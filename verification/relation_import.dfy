/** Importing relation segment files, in any order, into the repository. */
module RelationImport {
  import opened Pages
  import opened RelationNames
  import opened BackupPaths
  import opened RelationExport

  /** Relation sizes, and the pages by relation and block number. */
  datatype State = State(sizes: map<RelTag, nat>, pages: map<(RelTag, nat), Page>)

  ghost predicate InFile<K>(k: (K, nat), rel: K, start: nat, n: nat) {
    k.0 == rel && start <= k.1 < start + n
  }

  /** `blocks` are stored from block number `start` on, everything else is as before. */
  ghost predicate Stored<K(!new)>(pages: map<(K, nat), Page>, pages': map<(K, nat), Page>, rel: K, start: nat,
                                  blocks: seq<Page>) {
    && (forall k: (K, nat) :: k in pages' <==> k in pages || InFile(k, rel, start, |blocks|))
    && (forall k: (K, nat) | k in pages' ::
          pages'[k] == if InFile(k, rel, start, |blocks|) then blocks[k.1 - start] else pages[k])
  }

  lemma StoreFirst<K(!new)>(pages: map<(K, nat), Page>, pages': map<(K, nat), Page>, rel: K, start: nat,
                            blocks: seq<Page>)
    requires blocks != [] && Stored(pages[(rel, start) := blocks[0]], pages', rel, start + 1, blocks[1..])
    ensures Stored(pages, pages', rel, start, blocks)
  {
    forall k: (K, nat)
      ensures InFile(k, rel, start, |blocks|) <==> k == (rel, start) || InFile(k, rel, start + 1, |blocks| - 1)
    {
    }
  }

  // Block numbers have 32 bits and wrap around

  function Wrap32(x: nat): (w: nat)
    ensures w < TWO32
  {
    if x < TWO32 then x else Wrap32(x - TWO32)
  }

  lemma {:induction false} WrapAdd(a: nat, b: nat)
    requires a < TWO32
    ensures Wrap32(a + b) == Wrap32(a + Wrap32(b))
    ensures WrappingSub(Wrap32(a + b), a) == Wrap32(b)
    decreases b
  {
    if b >= TWO32 {
      WrapAdd(a, b - TWO32);
    }
  }

  function WrappingSub(x: nat, y: nat): int { if x >= y then x - y else x + TWO32 - y }

  /** A block number after `n` increments. */
  function AfterIncrements(blknum: nat, n: nat): nat
    decreases n
  {
    if n == 0 then blknum else AfterIncrements(WrappingAdd(blknum, 1), n - 1)
  }

  lemma {:induction false} IncrementsWrap(blknum: nat, n: nat)
    requires blknum < TWO32
    ensures AfterIncrements(blknum, n) == Wrap32(blknum + n)
    decreases n
  {
    if n > 0 {
      IncrementsWrap(WrappingAdd(blknum, 1), n - 1);
    }
  }

  /** The blocks of a file go to consecutive block numbers, modulo 2^32. */
  ghost function StoredFrom<K>(pages: map<(K, nat), Page>, rel: K, blknum: nat, blocks: seq<Page>): map<(K, nat), Page>
    decreases |blocks|
  {
    if blocks == [] then pages
    else StoredFrom(pages[(rel, blknum) := blocks[0]], rel, WrappingAdd(blknum, 1), blocks[1..])
  }

  lemma {:induction false} StoredWithoutWrap<K(!new)>(pages: map<(K, nat), Page>, rel: K, start: nat, blocks: seq<Page>)
    requires start + |blocks| <= TWO32
    ensures Stored(pages, StoredFrom(pages, rel, start, blocks), rel, start, blocks)
    decreases |blocks|
  {
    if |blocks| == 1 {
      assert StoredFrom(pages, rel, start, blocks) == pages[(rel, start) := blocks[0]];
    } else if blocks != [] {
      StoredWithoutWrap(pages[(rel, start) := blocks[0]], rel, start + 1, blocks[1..]);
      StoreFirst(pages, StoredFrom(pages, rel, start, blocks), rel, start, blocks);
    }
  }

  /** Where the importer puts block `i` of segment `segno`. */
  function LandsAt(segno: nat, i: nat): nat { Wrap32(Wrap32(SegStart(segno)) + i) }

  lemma {:induction false} SegmentsAlias(segno: nat)
    ensures Wrap32(SegStart(segno + 32768)) == Wrap32(SegStart(segno))
  {
    SegStartIs(segno);
    SegStartIs(segno + 32768);
  }

  /** The blocks of a file land at their own numbers exactly if the file ends within the 2^32 blocks of a relation. */
  lemma LandsWhereItShould(segno: nat, n: nat)
    ensures (forall i: nat | i < n :: LandsAt(segno, i) == SegStart(segno) + i)
        <==> n == 0 || SegStart(segno) + n <= TWO32
  {
    if n > 0 && SegStart(segno) + n > TWO32 {
      assert LandsAt(segno, n - 1) < TWO32;
    }
  }

  function Max(a: nat, b: nat): nat { if a < b then b else a }

  function SizeOr0(sizes: map<RelTag, nat>, rel: RelTag): nat { if rel in sizes then sizes[rel] else 0 }

  /** The effect of importing a file of segment `segno` with an announced length of `nblocks` blocks. */
  ghost predicate Imported(s: State, s': State, rel: RelTag, segno: nat, nblocks: nat, blocks: seq<Page>) {
    var start := Wrap32(SegStart(segno));
    var size := if rel in s.sizes then s.sizes[rel] else Wrap32(nblocks);
    && s'.sizes == s.sizes[rel := Max(size, Wrap32(start + |blocks|))]
    && s'.pages == StoredFrom(s.pages, rel, start, blocks)
  }

  /** The same for a file whose block numbers do not wrap around. */
  ghost predicate ImportedAt(s: State, s': State, rel: RelTag, start: nat, blocks: seq<Page>) {
    && s'.sizes == s.sizes[rel := Max(SizeOr0(s.sizes, rel), start + |blocks|)]
    && Stored(s.pages, s'.pages, rel, start, blocks)
  }

  lemma ImportedWithoutWrap(s: State, s': State, rel: RelTag, segno: nat, blocks: seq<Page>)
    requires Imported(s, s', rel, segno, |blocks|, blocks) && SegStart(segno) + |blocks| < TWO32
    ensures ImportedAt(s, s', rel, SegStart(segno), blocks)
  {
    StoredWithoutWrap(s.pages, rel, SegStart(segno), blocks);
  }

  datatype Error = NotARelation | BadName | BadLength | InvalidRelnode | AlreadyExists | UnexpectedEof

  datatype Outcome = Ok | Err(error: Error)

  /** Exactly the files that are accepted: not of relation 0, and with the announced number of whole blocks. */
  predicate Acceptable(rel: RelTag, data: seq<Byte>, len: nat) {
    && rel.relnode != 0
    && len % BLCKSZ == 0
    && Wrap32(|Split(data)|) == Wrap32(len / BLCKSZ)
  }

  /** Reads whole blocks until the end of the file; a partial block at the end is not stored. */
  method PutBlocks<K(!new, ==)>(pages: map<(K, nat), Page>, rel: K, start: nat, data: seq<Byte>)
    returns (pages': map<(K, nat), Page>, blknum: nat)
    requires start < TWO32
    ensures blknum == Wrap32(start + |Split(data)|)
    ensures pages' == StoredFrom(pages, rel, start, Split(data))
  {
    var rest := data;
    pages', blknum := pages, start;
    while |rest| >= BLCKSZ
      invariant AfterIncrements(blknum, |Split(rest)|) == AfterIncrements(start, |Split(data)|)
      invariant StoredFrom(pages', rel, blknum, Split(rest)) == StoredFrom(pages, rel, start, Split(data))
      decreases |rest|
    {
      var buf := rest[..BLCKSZ];
      SplitFirst(rest);
      rest := rest[BLCKSZ..];
      pages' := pages'[(rel, blknum) := buf];
      blknum := WrappingAdd(blknum, 1);
    }
    IncrementsWrap(start, |Split(data)|);
  }

  class DatadirModification {
    var sizes: map<RelTag, nat>
    var pages: map<(RelTag, nat), Page>

    ghost function Repository(): State
      reads this
    {
      State(sizes, pages)
    }

    constructor ()
      ensures Repository() == State(map[], map[])
    {
      sizes, pages := map[], map[];
    }

    method PutRelCreation(rel: RelTag, nblocks: nat) returns (r: Outcome)
      modifies this`sizes
      ensures r == if rel.relnode == 0 then Err(InvalidRelnode)
                   else if rel in old(sizes) then Err(AlreadyExists)
                   else Ok
      ensures sizes == if r.Ok? then old(sizes)[rel := nblocks] else old(sizes)
    {
      if rel.relnode == 0 {
        return Err(InvalidRelnode);
      }
      if rel in sizes {
        return Err(AlreadyExists);
      }
      sizes := sizes[rel := nblocks];
      return Ok;
    }

    method PutRelExtend(rel: RelTag, nblocks: nat)
      requires rel in sizes
      modifies this`sizes
      ensures sizes == old(sizes)[rel := Max(old(sizes)[rel], nblocks)]
    {
      if nblocks > sizes[rel] {
        sizes := sizes[rel := nblocks];
      } else {
        assert sizes == sizes[rel := sizes[rel]];
      }
    }

    /** Imports a file of the backup, given by its path, if it belongs to a relation. */
    method ImportFile(path: string, data: seq<Byte>, len: nat) returns (r: Outcome)
      modifies this
      ensures r.Ok? <==> TagOf(path).Some? && Acceptable(TagOf(path).value.0, data, len)
      ensures r.Ok? ==>
        Imported(old(Repository()), Repository(), TagOf(path).value.0, TagOf(path).value.1, len / BLCKSZ, Split(data))
    {
      match TargetOf(path)
      case Relation(spcnode, dbnode, name) => r := ImportRel(spcnode, dbnode, name, data, len);
      case _ => r := Err(NotARelation);
    }

    /** Imports one segment file of a relation; a file refused before its blocks are read changes nothing. */
    method ImportRel(spcoid: nat, dboid: nat, name: string, data: seq<Byte>, len: nat) returns (r: Outcome)
      modifies this
      ensures var p := ParseRelFilename(name);
        r.Ok? <==> p.Parsed? && Acceptable(RelTag(p.forknum, spcoid, dboid, p.relnode), data, len)
      ensures var p := ParseRelFilename(name);
        r.Ok? ==> Imported(old(Repository()), Repository(), RelTag(p.forknum, spcoid, dboid, p.relnode), p.segno,
                           len / BLCKSZ, Split(data))
      ensures r.Err? && r.error != UnexpectedEof ==> Repository() == old(Repository())
    {
      var p := ParseRelFilename(name);
      if !p.Parsed? {
        return Err(BadName);
      }
      r := ImportSegment(RelTag(p.forknum, spcoid, dboid, p.relnode), p.segno, data, len);
    }

    method ImportSegment(rel: RelTag, segno: nat, data: seq<Byte>, len: nat) returns (r: Outcome)
      modifies this
      ensures r.Ok? <==> Acceptable(rel, data, len)
      ensures r.Ok? ==> Imported(old(Repository()), Repository(), rel, segno, len / BLCKSZ, Split(data))
      ensures r.Err? && r.error != UnexpectedEof ==> Repository() == old(Repository())
    {
      if len % BLCKSZ != 0 {
        return Err(BadLength);
      }
      var nblocks := Wrap32(len / BLCKSZ);
      var start := Wrap32(SegStart(segno));
      var created := PutRelCreation(rel, nblocks);
      if created.Err? && !created.error.AlreadyExists? {
        return created;
      }
      var pages', blknum := PutBlocks(pages, rel, start, data);
      pages := pages';
      WrapAdd(start, |Split(data)|);
      if WrappingSub(blknum, start) != nblocks {
        return Err(UnexpectedEof);
      }
      PutRelExtend(rel, blknum);
      r := Ok;
    }
  }
}
