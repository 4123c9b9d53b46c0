/** Grouping SLRU blocks into segment files for a base backup, and importing them again. */
module SlruSegments {
  import opened Basics
  import opened Pages
  import opened RelationNames
  import opened BackupPaths
  import opened RelationExport
  import opened RelationImport

  const SLRU_PAGES_PER_SEGMENT: nat := 32

  /** The contents of a segment file, by the segment rather than by its path. */
  datatype SegmentFile = SegmentFile(id: SegId, data: seq<Byte>)

  function Written(f: SegmentFile): File { File(SlruPath(f.id), f.data) }

  function AllWritten(files: seq<SegmentFile>): seq<File> {
    seq(|files|, i requires 0 <= i < |files| => Written(files[i]))
  }

  // Export

  /** A commit log block may carry an eight-byte timestamp at its end. */
  predicate BlockLength(kind: SlruKind, len: nat) {
    len == BLCKSZ || (kind.Clog? && len == BLCKSZ + 8)
  }

  /** The files once `page` has been added: the last file grows while the segment stays the same. */
  function AddPage(files: seq<SegmentFile>, id: SegId, page: Page): seq<SegmentFile> {
    var n := |files|;
    if n > 0 && files[n - 1].id == id then files[..n - 1] + [SegmentFile(id, files[n - 1].data + page)]
    else files + [SegmentFile(id, page)]
  }

  class SlruSegmentsBuilder {
    var ar: seq<File>
    var buf: seq<Byte>
    var currentSegment: Option<SegId>
    ghost var flushed: seq<SegmentFile>

    ghost predicate Valid()
      reads this
    {
      && ar == AllWritten(flushed)
      && (currentSegment.None? ==> flushed == [] && buf == [])
      && (currentSegment.Some? ==> buf != [])
    }

    /** The files written so far and the one being collected. */
    ghost function Contents(): seq<SegmentFile>
      reads this
    {
      if currentSegment.None? then flushed else flushed + [SegmentFile(currentSegment.value, buf)]
    }

    constructor ()
      ensures Valid() && Contents() == []
    {
      ar, buf, currentSegment, flushed := [], [], None, [];
    }

    method AddBlock(id: SegId, block: seq<Byte>) returns (ok: bool)
      requires Valid()
      modifies this
      ensures Valid()
      ensures ok <==> BlockLength(id.kind, |block|)
      ensures Contents() == if ok then AddPage(old(Contents()), id, block[..BLCKSZ]) else old(Contents())
    {
      ok := BlockLength(id.kind, |block|);
      if !ok {
        return;
      }
      ghost var before := Contents();
      assert [] + block[..BLCKSZ] == block[..BLCKSZ];
      if currentSegment.None? {
        currentSegment := Some(id);
        buf := buf + block[..BLCKSZ];
      } else if currentSegment.value == id {
        buf := buf + block[..BLCKSZ];
        assert before[..|before| - 1] == flushed;
      } else {
        Flush();
        currentSegment := Some(id);
        buf := buf + block[..BLCKSZ];
      }
    }

    method Flush()
      requires currentSegment.Some? && ar == AllWritten(flushed)
      modifies this
      ensures flushed == old(Contents()) && ar == AllWritten(flushed) && buf == [] && currentSegment.None?
    {
      ar := ar + [File(SlruPath(currentSegment.value), buf)];
      flushed := flushed + [SegmentFile(currentSegment.value, buf)];
      currentSegment := None;
      buf := [];
    }

    method Finish()
      requires Valid()
      modifies this
      ensures ar == AllWritten(old(Contents()))
    {
      if currentSegment.None? || buf == [] {
        return;
      }
      Flush();
    }
  }

  /** A segment and its blocks, in order. */
  datatype Segment = Segment(id: SegId, pages: seq<Page>)

  ghost predicate DistinctIds(segs: seq<Segment>) {
    forall i, j | 0 <= i < j < |segs| :: segs[i].id != segs[j].id
  }

  /** A segment as PostgreSQL has them: a 32-bit number, and at most 32 blocks of the right size. */
  predicate IsWritable(s: Segment) {
    s.id.segno < TWO32 && PageSized(s.pages) && |s.pages| <= SLRU_PAGES_PER_SEGMENT
  }

  ghost predicate PagesOk(segs: seq<Segment>) { forall i | 0 <= i < |segs| :: PageSized(segs[i].pages) }

  function FileOf(s: Segment): SegmentFile { SegmentFile(s.id, Concat(s.pages)) }

  ghost function FilesOf(segs: seq<Segment>): seq<SegmentFile> {
    seq(|segs|, i requires 0 <= i < |segs| => FileOf(segs[i]))
  }

  /** The segments that have a block. */
  ghost function NonEmpty(segs: seq<Segment>): (r: seq<Segment>)
    ensures forall s :: s in r <==> s in segs && s.pages != []
  {
    if segs == [] then []
    else
      var front, last := segs[..|segs| - 1], segs[|segs| - 1];
      assert segs == front + [last];
      if last.pages == [] then NonEmpty(front) else NonEmpty(front) + [last]
  }

  lemma {:induction false} NonEmptyDistinct(segs: seq<Segment>)
    requires DistinctIds(segs)
    ensures DistinctIds(NonEmpty(segs))
  {
    if segs != [] {
      var front, last := segs[..|segs| - 1], segs[|segs| - 1];
      NonEmptyDistinct(front);
      forall i | 0 <= i < |NonEmpty(front)|
        ensures NonEmpty(front)[i].id != last.id
      {
        assert NonEmpty(front)[i] in front;
      }
    }
  }

  /** The files while the blocks of a segment are being added after those of `front`. */
  ghost function Collecting(front: seq<Segment>, id: SegId, pages: seq<Page>): seq<SegmentFile> {
    FilesOf(NonEmpty(front)) + if pages == [] then [] else [SegmentFile(id, Concat(pages))]
  }

  lemma CollectedSegment(front: seq<Segment>, s: Segment)
    ensures Collecting(front, s.id, s.pages) == FilesOf(NonEmpty(front + [s]))
  {
    assert (front + [s])[..|front|] == front;
  }

  lemma AddPageCollects(front: seq<Segment>, id: SegId, pages: seq<Page>, page: Page)
    requires forall i | 0 <= i < |front| :: front[i].id != id
    ensures AddPage(Collecting(front, id, pages), id, page) == Collecting(front, id, pages + [page])
  {
    var files := Collecting(front, id, pages);
    ConcatAppend(pages, page);
    if pages == [] {
      assert files == FilesOf(NonEmpty(front));
      assert [] + page == page;
      if files != [] {
        assert NonEmpty(front)[|files| - 1] in front;
      }
    } else {
      assert files[..|files| - 1] == FilesOf(NonEmpty(front));
    }
  }

  /** Reads the segments in key order and writes their blocks; a block may have a timestamp after it. */
  method ExportSlru(segs: seq<Segment>, timestamps: seq<Byte>) returns (files: seq<File>)
    requires DistinctIds(segs) && PagesOk(segs) && |timestamps| == 8
    ensures files == AllWritten(FilesOf(NonEmpty(segs)))
  {
    var b := new SlruSegmentsBuilder();
    for i := 0 to |segs|
      invariant fresh(b) && b.Valid() && b.Contents() == FilesOf(NonEmpty(segs[..i]))
    {
      AddNext(b, segs, i, timestamps);
    }
    assert segs[..|segs|] == segs;
    b.Finish();
    files := b.ar;
  }

  method AddNext(b: SlruSegmentsBuilder, segs: seq<Segment>, i: nat, timestamps: seq<Byte>)
    requires DistinctIds(segs) && PagesOk(segs) && i < |segs| && |timestamps| == 8
    requires b.Valid() && b.Contents() == FilesOf(NonEmpty(segs[..i]))
    modifies b
    ensures b.Valid() && b.Contents() == FilesOf(NonEmpty(segs[..i + 1]))
  {
    ghost var front := segs[..i];
    assert segs[..i + 1] == front + [segs[i]];
    assert forall j | 0 <= j < |front| :: front[j] == segs[j];
    AddSegment(b, front, segs[i], timestamps);
  }

  method AddSegment(b: SlruSegmentsBuilder, ghost front: seq<Segment>, s: Segment, timestamps: seq<Byte>)
    requires b.Valid() && b.Contents() == FilesOf(NonEmpty(front)) && PageSized(s.pages) && |timestamps| == 8
    requires forall i | 0 <= i < |front| :: front[i].id != s.id
    modifies b
    ensures b.Valid() && b.Contents() == FilesOf(NonEmpty(front + [s]))
  {
    for j := 0 to |s.pages|
      invariant b.Valid() && b.Contents() == Collecting(front, s.id, s.pages[..j])
    {
      var stamp: bool := *;
      var block := if stamp && s.id.kind.Clog? then s.pages[j] + timestamps else s.pages[j];
      assert block[..BLCKSZ] == s.pages[j];
      AddPageCollects(front, s.id, s.pages[..j], s.pages[j]);
      assert s.pages[..j + 1] == s.pages[..j] + [s.pages[j]];
      var _ := b.AddBlock(s.id, block);
    }
    assert s.pages[..|s.pages|] == s.pages;
    CollectedSegment(front, s);
  }

  // Import

  datatype SlruError = NotAnSlru | PartialBlock | TooLong | SegmentExists | ShortFile

  datatype SlruOutcome = Imported | Refused(error: SlruError)

  /** Exactly the files that are accepted: a new segment of at most 32 whole blocks, as many as announced. */
  predicate SlruAcceptable(sizes: map<SegId, nat>, id: SegId, data: seq<Byte>, len: nat) {
    && len % BLCKSZ == 0
    && len / BLCKSZ <= SLRU_PAGES_PER_SEGMENT
    && id !in sizes
    && Wrap32(|Split(data)|) == len / BLCKSZ
  }

  class SlruModification {
    var sizes: map<SegId, nat>
    var pages: map<(SegId, nat), Page>

    constructor ()
      ensures sizes == map[] && pages == map[]
    {
      sizes, pages := map[], map[];
    }

    method PutSlruSegmentCreation(id: SegId, nblocks: nat) returns (ok: bool)
      modifies this`sizes
      ensures ok <==> id !in old(sizes)
      ensures sizes == if ok then old(sizes)[id := nblocks] else old(sizes)
    {
      ok := id !in sizes;
      if ok {
        sizes := sizes[id := nblocks];
      }
    }

    method ImportSlru(id: SegId, data: seq<Byte>, len: nat) returns (r: SlruOutcome)
      modifies this
      ensures r.Imported? <==> SlruAcceptable(old(sizes), id, data, len)
      ensures r.Imported? ==>
        sizes == old(sizes)[id := len / BLCKSZ] && pages == StoredFrom(old(pages), id, 0, Split(data))
      ensures r.Refused? && r.error != ShortFile ==> sizes == old(sizes) && pages == old(pages)
    {
      if len % BLCKSZ != 0 {
        return Refused(PartialBlock);
      }
      var nblocks := len / BLCKSZ;
      if nblocks > SLRU_PAGES_PER_SEGMENT {
        return Refused(TooLong);
      }
      var created := PutSlruSegmentCreation(id, nblocks);
      if !created {
        return Refused(SegmentExists);
      }
      var pages', rpageno := PutBlocks(pages, id, 0, data);
      pages := pages';
      if rpageno != nblocks {
        return Refused(ShortFile);
      }
      r := SlruOutcome.Imported;
    }

    /** Imports a file of the backup, given by its path, if it is an SLRU segment. */
    method ImportSlruPath(path: string, data: seq<Byte>, len: nat) returns (r: SlruOutcome)
      modifies this
      ensures r.Imported? <==> TargetOf(path).Slru? && SlruAcceptable(old(sizes), TargetOf(path).id, data, len)
      ensures r.Imported? ==>
        var id := TargetOf(path).id;
        sizes == old(sizes)[id := len / BLCKSZ] && pages == StoredFrom(old(pages), id, 0, Split(data))
    {
      match TargetOf(path)
      case Slru(id) => r := ImportSlru(id, data, len);
      case _ => r := Refused(NotAnSlru);
    }
  }

  // Round trip

  type Sizes = map<SegId, nat>
  type PageMap = map<(SegId, nat), Page>

  ghost predicate SegmentRestored(sizes: Sizes, pages: PageMap, s: Segment) {
    && s.id in sizes
    && sizes[s.id] == |s.pages|
    && forall b: nat | b < |s.pages| :: (s.id, b) in pages && pages[(s.id, b)] == s.pages[b]
  }

  /** Every segment that has a block is restored, and nothing else is there. */
  ghost predicate SlruRestored(segs: seq<Segment>, sizes: Sizes, pages: PageMap) {
    && (forall i | 0 <= i < |segs| && segs[i].pages != [] :: SegmentRestored(sizes, pages, segs[i]))
    && Within(segs, sizes, pages)
  }

  ghost predicate Created(sizes: Sizes, sizes': Sizes, pages: PageMap, pages': PageMap, s: Segment) {
    s.id !in sizes && sizes' == sizes[s.id := |s.pages|] && Stored(pages, pages', s.id, 0, s.pages)
  }

  lemma StaysRestored(sizes: Sizes, pages: PageMap, sizes': Sizes, pages': PageMap, s: Segment, other: Segment)
    requires Created(sizes, sizes', pages, pages', s) && SegmentRestored(sizes, pages, other)
    ensures SegmentRestored(sizes', pages', other)
  {
    forall b: nat | b < |other.pages|
      ensures (other.id, b) in pages' && pages'[(other.id, b)] == other.pages[b]
    {
      assert !InFile((other.id, b), s.id, 0, |s.pages|);
    }
  }

  lemma IsRestored(sizes: Sizes, pages: PageMap, sizes': Sizes, pages': PageMap, s: Segment)
    requires Created(sizes, sizes', pages, pages', s)
    ensures SegmentRestored(sizes', pages', s)
  {
    forall b: nat | b < |s.pages|
      ensures (s.id, b) in pages' && pages'[(s.id, b)] == s.pages[b]
    {
      assert InFile((s.id, b), s.id, 0, |s.pages|);
    }
  }

  /** Everything there belongs to one of the segments. */
  ghost predicate Within(segs: seq<Segment>, sizes: Sizes, pages: PageMap) {
    && (forall id | id in sizes :: exists i :: 0 <= i < |segs| && segs[i].id == id && segs[i].pages != [])
    && (forall p | p in pages :: exists i :: 0 <= i < |segs| && segs[i].id == p.0 && p.1 < |segs[i].pages|)
  }

  lemma StaysWithin(segs: seq<Segment>, s: Segment, sizes: Sizes, pages: PageMap, sizes': Sizes, pages': PageMap)
    requires s.pages != [] && Created(sizes, sizes', pages, pages', s) && Within(segs, sizes, pages)
    ensures Within(segs + [s], sizes', pages')
  {
    var more := segs + [s];
    assert more[|segs|] == s;
    forall id | id in sizes'
      ensures exists i {:trigger more[i]} :: 0 <= i < |more| && more[i].id == id && more[i].pages != []
    {
      if id != s.id {
        var i :| 0 <= i < |segs| && segs[i].id == id && segs[i].pages != [];
        assert more[i] == segs[i];
      }
    }
    forall p | p in pages'
      ensures exists i {:trigger more[i]} :: 0 <= i < |more| && more[i].id == p.0 && p.1 < |more[i].pages|
    {
      if !InFile(p, s.id, 0, |s.pages|) {
        var i :| 0 <= i < |segs| && segs[i].id == p.0 && p.1 < |segs[i].pages|;
        assert more[i] == segs[i];
      }
    }
  }

  lemma OneMore(segs: seq<Segment>, s: Segment, sizes: Sizes, pages: PageMap, sizes': Sizes, pages': PageMap)
    requires s.pages != [] && Created(sizes, sizes', pages, pages', s) && SlruRestored(segs, sizes, pages)
    ensures SlruRestored(segs + [s], sizes', pages')
  {
    IsRestored(sizes, pages, sizes', pages', s);
    forall i | 0 <= i < |segs| && segs[i].pages != []
      ensures SegmentRestored(sizes', pages', segs[i])
    {
      StaysRestored(sizes, pages, sizes', pages', s, segs[i]);
    }
    StaysWithin(segs, s, sizes, pages, sizes', pages');
  }

  lemma NotYetThere(segs: seq<Segment>, k: nat, sizes: Sizes, pages: PageMap)
    requires DistinctIds(segs) && k < |segs| && Within(segs[..k], sizes, pages)
    ensures segs[k].id !in sizes
  {
  }

  method ImportSlruFile(m: SlruModification, f: File, ghost s: Segment)
    requires f == Written(FileOf(s)) && IsWritable(s) && s.id !in m.sizes
    modifies m
    ensures Created(old(m.sizes), m.sizes, old(m.pages), m.pages, s)
  {
    FileSplits(s);
    SlruPathRoundTrip(s.id);
    StoredWithoutWrap(m.pages, s.id, 0, s.pages);
    var _ := m.ImportSlruPath(f.path, f.data, |f.data|);
  }

  lemma NextRestored(segs: seq<Segment>, k: nat, sizes: Sizes, pages: PageMap, sizes': Sizes, pages': PageMap)
    requires k < |segs| && segs[k].pages != [] && Created(sizes, sizes', pages, pages', segs[k])
    requires SlruRestored(segs[..k], sizes, pages)
    ensures SlruRestored(segs[..k + 1], sizes', pages')
  {
    assert segs[..k + 1] == segs[..k] + [segs[k]];
    OneMore(segs[..k], segs[k], sizes, pages, sizes', pages');
  }

  method ImportNext(m: SlruModification, f: File, ghost segs: seq<Segment>, ghost k: nat)
    requires DistinctIds(segs) && k < |segs| && IsWritable(segs[k]) && segs[k].pages != []
        && f == Written(FileOf(segs[k]))
    requires SlruRestored(segs[..k], m.sizes, m.pages)
    modifies m
    ensures SlruRestored(segs[..k + 1], m.sizes, m.pages)
  {
    ghost var sizes, pages := m.sizes, m.pages;
    NotYetThere(segs, k, sizes, pages);
    ImportSlruFile(m, f, segs[k]);
    NextRestored(segs, k, sizes, pages, m.sizes, m.pages);
  }

  /** Imports the files of `segs`, in the order of `segs`. */
  method ImportSlruFiles(files: seq<File>, ghost segs: seq<Segment>) returns (m: SlruModification)
    requires DistinctIds(segs) && files == AllWritten(FilesOf(segs))
    requires forall i | 0 <= i < |segs| :: IsWritable(segs[i]) && segs[i].pages != []
    ensures fresh(m) && SlruRestored(segs, m.sizes, m.pages)
  {
    m := new SlruModification();
    for k := 0 to |files|
      invariant fresh(m) && SlruRestored(segs[..k], m.sizes, m.pages)
    {
      ImportNext(m, files[k], segs, k);
    }
    assert segs[..|segs|] == segs;
  }

  lemma FileSplits(s: Segment)
    requires PageSized(s.pages)
    ensures Split(Concat(s.pages)) == s.pages && |Concat(s.pages)| % BLCKSZ == 0
        && |Concat(s.pages)| / BLCKSZ == |s.pages|
  {
    SplitConcat(s.pages);
    ConcatLength(s.pages);
    SplitCount(Concat(s.pages));
  }

  /** The order in which `n` files are imported: every position once. */
  ghost predicate IsOrder(order: seq<nat>, n: nat) {
    && |order| == n
    && (forall i | 0 <= i < n :: order[i] < n)
    && (forall i, j | 0 <= i < j < n :: order[i] != order[j])
    && (forall k: nat | k < n :: k in order)
  }

  ghost predicate SameSegments(segs: seq<Segment>, perm: seq<Segment>) {
    forall s :: s in perm <==> s in segs && s.pages != []
  }

  lemma RestoredAll(segs: seq<Segment>, perm: seq<Segment>, sizes: Sizes, pages: PageMap)
    requires SameSegments(segs, perm) && SlruRestored(perm, sizes, pages)
    ensures SlruRestored(segs, sizes, pages)
  {
    forall i | 0 <= i < |segs| && segs[i].pages != []
      ensures SegmentRestored(sizes, pages, segs[i])
    {
      assert segs[i] in perm;
    }
    forall id | id in sizes
      ensures exists i :: 0 <= i < |segs| && segs[i].id == id && segs[i].pages != []
    {
      var j :| 0 <= j < |perm| && perm[j].id == id && perm[j].pages != [];
      assert perm[j] in segs;
    }
    forall p | p in pages
      ensures exists i :: 0 <= i < |segs| && segs[i].id == p.0 && p.1 < |segs[i].pages|
    {
      var j :| 0 <= j < |perm| && perm[j].id == p.0 && p.1 < |perm[j].pages|;
      assert perm[j] in segs;
    }
  }

  ghost function Reordered<T>(s: seq<T>, order: seq<nat>): seq<T>
    requires IsOrder(order, |s|)
  {
    seq(|s|, i requires 0 <= i < |s| => s[order[i]])
  }

  lemma ReorderedSegments(segs: seq<Segment>, order: seq<nat>)
    requires DistinctIds(segs) && IsOrder(order, |NonEmpty(segs)|)
    ensures DistinctIds(Reordered(NonEmpty(segs), order)) && SameSegments(segs, Reordered(NonEmpty(segs), order))
  {
    var ne := NonEmpty(segs);
    var perm := Reordered(ne, order);
    NonEmptyDistinct(segs);
    forall i, j | 0 <= i < j < |perm|
      ensures perm[i].id != perm[j].id
    {
      assert perm[i] == ne[order[i]] && perm[j] == ne[order[j]];
    }
    forall s
      ensures s in perm <==> s in ne
    {
      if s in ne {
        var k: nat :| k < |ne| && ne[k] == s;
        assert k in order;
        var i :| 0 <= i < |order| && order[i] == k;
        assert perm[i] == s;
      }
      if s in perm {
        var i :| 0 <= i < |perm| && perm[i] == s;
        assert ne[order[i]] == s;
      }
    }
  }

  /** Exporting the segments and importing their files in any order restores them. */
  method SlruRoundTrip(segs: seq<Segment>, timestamps: seq<Byte>, order: seq<nat>) returns (m: SlruModification)
    requires DistinctIds(segs) && |timestamps| == 8
    requires forall i | 0 <= i < |segs| :: IsWritable(segs[i])
    requires IsOrder(order, |NonEmpty(segs)|)
    ensures fresh(m) && SlruRestored(segs, m.sizes, m.pages)
  {
    var files := ExportSlru(segs, timestamps);
    var shuffled := seq(|files|, i requires 0 <= i < |files| => files[order[i]]);
    ghost var perm := Reordered(NonEmpty(segs), order);
    ReorderedSegments(segs, order);
    forall i | 0 <= i < |perm|
      ensures IsWritable(perm[i]) && perm[i].pages != []
    {
      assert perm[i] in segs;
    }
    assert shuffled == AllWritten(FilesOf(perm));
    m := ImportSlruFiles(shuffled, perm);
    RestoredAll(segs, perm, m.sizes, m.pages);
  }

  /** A segment without blocks has no file: every segment comes back exactly when none is empty. */
  lemma EmptySegmentsAreLost(segs: seq<Segment>, sizes: Sizes, pages: PageMap)
    requires DistinctIds(segs) && SlruRestored(segs, sizes, pages)
    ensures (forall i | 0 <= i < |segs| :: segs[i].id in sizes) <==> (forall i | 0 <= i < |segs| :: segs[i].pages != [])
  {
    forall i | 0 <= i < |segs|
      ensures segs[i].id in sizes <==> segs[i].pages != []
    {
      if segs[i].id in sizes {
        var j :| 0 <= j < |segs| && segs[j].id == segs[i].id && segs[j].pages != [];
        assert i == j;
      }
    }
  }
}
