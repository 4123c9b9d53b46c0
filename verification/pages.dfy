/** Pages and their size, common to the page cache and to relation files. */
module Pages {

  type Byte = b: int | 0 <= b < 256

  type Page = seq<Byte>

  const BLCKSZ: nat := 8192
}
