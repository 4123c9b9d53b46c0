/** Writing a relation into segment files for a base backup, and which forks a backup holds. */
module RelationExport {
  import opened Basics
  import opened Pages
  import opened RelationNames
  import opened BackupPaths

  /** Blocks in a 1 GiB segment. */
  const RELSEG_SIZE: nat := 131072

  datatype File = File(path: string, data: seq<Byte>)

  datatype Export = Files(files: seq<File>) | BlockNumberOverflow

  // Blocks and bytes

  predicate PageSized(pages: seq<Page>) { forall i | 0 <= i < |pages| :: |pages[i]| == BLCKSZ }

  function Concat(pages: seq<Page>): seq<Byte> {
    if pages == [] then [] else pages[0] + Concat(pages[1..])
  }

  /** The whole blocks of a file; a partial block at the end is dropped. */
  function Split(data: seq<Byte>): seq<Page> {
    if |data| < BLCKSZ then [] else [data[..BLCKSZ]] + Split(data[BLCKSZ..])
  }

  lemma SplitFirst(data: seq<Byte>)
    requires |data| >= BLCKSZ
    ensures var blocks := Split(data);
            blocks != [] && blocks[0] == data[..BLCKSZ] && blocks[1..] == Split(data[BLCKSZ..])
  {
  }

  lemma {:induction false} SplitConcat(pages: seq<Page>)
    requires PageSized(pages)
    ensures Split(Concat(pages)) == pages
  {
    if pages != [] {
      var rest := Concat(pages[1..]);
      SplitConcat(pages[1..]);
      assert (pages[0] + rest)[..BLCKSZ] == pages[0] && (pages[0] + rest)[BLCKSZ..] == rest;
    }
  }

  lemma {:induction false} SplitCount(data: seq<Byte>)
    ensures |Split(data)| == |data| / 8192
  {
    if |data| >= BLCKSZ {
      SplitCount(data[BLCKSZ..]);
    }
  }

  lemma {:induction false} ConcatLength(pages: seq<Page>)
    requires PageSized(pages)
    ensures |Concat(pages)| == |pages| * 8192
    ensures |Concat(pages)| % 8192 == 0
  {
    if pages != [] {
      ConcatLength(pages[1..]);
    }
  }

  lemma {:induction false} ConcatAppend(pages: seq<Page>, page: Page)
    ensures Concat(pages + [page]) == Concat(pages) + page
  {
    if pages == [] {
      assert pages + [page] == [page];
    } else {
      assert (pages + [page])[1..] == pages[1..] + [page];
      ConcatAppend(pages[1..], page);
    }
  }

  // Segments

  function SegStart(segno: nat): nat { if segno == 0 then 0 else SegStart(segno - 1) + RELSEG_SIZE }

  lemma SegStartIs(segno: nat)
    ensures SegStart(segno) == segno * 131072
  {
  }

  /** The segments a relation has; an empty relation has one empty segment. */
  predicate IsSegment(nblocks: nat, segno: nat) { segno == 0 || SegStart(segno) < nblocks }

  function SegEnd(nblocks: nat, segno: nat): (end: nat)
    requires IsSegment(nblocks, segno)
    ensures SegStart(segno) <= end <= nblocks
  {
    if SegStart(segno) + RELSEG_SIZE < nblocks then SegStart(segno) + RELSEG_SIZE else nblocks
  }

  function SegPages(pages: seq<Page>, segno: nat): seq<Page> {
    if IsSegment(|pages|, segno) then pages[SegStart(segno)..SegEnd(|pages|, segno)] else []
  }

  function SegFile(dst: RelTag, pages: seq<Page>, segno: nat): File {
    File(SegFilePath(dst, segno), Concat(SegPages(pages, segno)))
  }

  lemma {:induction false} SegmentsBefore(nblocks: nat, segno: nat, s: nat)
    requires IsSegment(nblocks, segno) && s <= segno
    ensures IsSegment(nblocks, s)
  {
    if s < segno {
      SegmentsBefore(nblocks, segno - 1, s);
    }
  }

  lemma {:induction false} NoMoreSegments(nblocks: nat, segno: nat, s: nat)
    requires 0 < segno <= s && nblocks <= SegStart(segno)
    ensures !IsSegment(nblocks, s)
  {
    if segno < s {
      NoMoreSegments(nblocks, segno, s - 1);
    }
  }

  /** The files of a relation by segment number. */
  function FilesOf(dst: RelTag, pages: seq<Page>): nat -> File { (segno: nat) => SegFile(dst, pages, segno) }

  /** The relation has exactly `k` segments. */
  ghost predicate SegmentCount(nblocks: nat, k: nat) { forall s: nat :: s < k <==> IsSegment(nblocks, s) }

  /** `files` holds exactly the segments of the relation, in order. */
  ghost predicate HoldsSegments(dst: RelTag, pages: seq<Page>, files: seq<File>) {
    SegmentCount(|pages|, |files|) && FirstOf(FilesOf(dst, pages), files)
  }

  lemma OneSegment(nblocks: nat, k: nat, s: nat)
    requires 0 < k && IsSegment(nblocks, k - 1) && nblocks <= SegStart(k)
    ensures s < k <==> IsSegment(nblocks, s)
  {
    if s < k {
      SegmentsBefore(nblocks, k - 1, s);
    } else {
      NoMoreSegments(nblocks, k, s);
    }
  }

  lemma AllSegments(nblocks: nat, k: nat)
    requires 0 < k && IsSegment(nblocks, k - 1) && nblocks <= SegStart(k)
    ensures SegmentCount(nblocks, k)
  {
    forall s: nat
      ensures s < k <==> IsSegment(nblocks, s)
    {
      OneSegment(nblocks, k, s);
    }
  }

  /** The greatest size whose last segment ends below 2^32. */
  const MAX_NBLOCKS: nat := 0xFFFE_0000

  lemma WithinLimit(nblocks: nat, segno: nat)
    requires nblocks <= SegStart(segno) < TWO32
    ensures nblocks <= MAX_NBLOCKS
  {
    SegStartIs(segno);
  }

  lemma EmptyRelation(dst: RelTag, pages: seq<Page>)
    requires pages == []
    ensures HoldsSegments(dst, pages, [File(SegFilePath(dst, 0), [])])
  {
    AllSegments(0, 1);
    assert FilesOf(dst, pages)(0) == File(SegFilePath(dst, 0), []);
  }

  /** Writes the blocks of a relation as files named after `dst`; 32-bit additions are checked. */
  method AddRel(dst: RelTag, pages: seq<Page>) returns (r: Export)
    requires |pages| < TWO32
    ensures r.BlockNumberOverflow? <==> |pages| > MAX_NBLOCKS
    ensures r.Files? ==> HoldsSegments(dst, pages, r.files)
  {
    var nblocks := |pages|;
    if nblocks == 0 {
      EmptyRelation(dst, pages);
      return Files([File(SegFilePath(dst, 0), [])]);
    }
    var startblk, seg, files := 0, 0, [];
    while startblk < nblocks
      invariant startblk == if SegStart(seg) < nblocks then SegStart(seg) else nblocks
      invariant SegStart(seg) < TWO32
      invariant seg > 0 ==> IsSegment(nblocks, seg - 1)
      invariant |files| == seg && FirstOf(FilesOf(dst, pages), files)
    {
      if startblk + RELSEG_SIZE >= TWO32 {
        return BlockNumberOverflow;
      }
      var endblk := if startblk + RELSEG_SIZE < nblocks then startblk + RELSEG_SIZE else nblocks;
      var file := WriteSegment(dst, pages, seg, startblk, endblk);
      FirstOfNext(FilesOf(dst, pages), files);
      files := files + [file];
      seg := seg + 1;
      startblk := endblk;
    }
    WithinLimit(nblocks, seg);
    AllSegments(nblocks, seg);
    r := Files(files);
  }

  method WriteSegment(dst: RelTag, pages: seq<Page>, seg: nat, startblk: nat, endblk: nat) returns (file: File)
    requires IsSegment(|pages|, seg)
    requires startblk == SegStart(seg) <= endblk == SegEnd(|pages|, seg)
    ensures file == FilesOf(dst, pages)(seg)
  {
    var data := [];
    for blknum := startblk to endblk
      invariant data == Concat(pages[startblk..blknum])
    {
      data := data + pages[blknum];
      ConcatAppend(pages[startblk..blknum], pages[blknum]);
      assert pages[startblk..blknum + 1] == pages[startblk..blknum] + [pages[blknum]];
    }
    file := File(SegFilePath(dst, seg), data);
  }

  // The same loop with 32-bit additions that wrap around

  function WrappingAdd(a: nat, b: nat): nat {
    if a + b < TWO32 then a + b else a + b - TWO32
  }

  /** The value of `startblk` after one more turn of the loop. */
  function NextStart(nblocks: nat, startblk: nat): nat {
    var end := WrappingAdd(startblk, RELSEG_SIZE);
    if end < nblocks then end else nblocks
  }

  function StartAfter(nblocks: nat, turns: nat): nat {
    if turns == 0 then 0 else NextStart(nblocks, StartAfter(nblocks, turns - 1))
  }

  ghost predicate LoopEnds(nblocks: nat) { exists turns: nat :: StartAfter(nblocks, turns) >= nblocks }

  lemma {:induction false} StartsWithoutWrap(nblocks: nat, turns: nat)
    requires 0 < nblocks <= MAX_NBLOCKS && (turns > 0 ==> IsSegment(nblocks, turns - 1))
    ensures StartAfter(nblocks, turns) == if SegStart(turns) < nblocks then SegStart(turns) else nblocks
  {
    if turns > 0 {
      StartsWithoutWrap(nblocks, turns - 1);
      SegStartIs(turns - 1);
    }
  }

  /** Segment numbers counted round and round: after the last one that fits comes zero. */
  function Cycle(turns: nat): (k: nat)
    ensures k < 32768
  {
    if turns == 0 || Cycle(turns - 1) == 32767 then 0 else Cycle(turns - 1) + 1
  }

  lemma {:induction false} StartsCycle(nblocks: nat, turns: nat)
    requires MAX_NBLOCKS < nblocks < TWO32
    ensures StartAfter(nblocks, turns) == SegStart(Cycle(turns)) < nblocks
  {
    SegStartIs(Cycle(turns));
    if turns > 0 {
      StartsCycle(nblocks, turns - 1);
      SegStartIs(Cycle(turns - 1));
    }
  }

  /** The segment that holds block `b`. */
  lemma SegmentOfBlock(nblocks: nat, b: nat) returns (segno: nat)
    requires b < nblocks
    ensures IsSegment(nblocks, segno) && SegStart(segno) <= b < SegEnd(nblocks, segno)
  {
    segno := b / 131072;
    SegStartIs(segno);
  }

  /** With wrapping additions the loop ends exactly for the sizes at which none of them wraps. */
  lemma LoopEndsExactly(nblocks: nat)
    requires nblocks < TWO32
    ensures LoopEnds(nblocks) <==> nblocks <= MAX_NBLOCKS
  {
    if nblocks == 0 {
      assert StartAfter(nblocks, 0) >= nblocks;
    } else if nblocks <= MAX_NBLOCKS {
      var last := SegmentOfBlock(nblocks, nblocks - 1);
      StartsWithoutWrap(nblocks, last + 1);
      assert StartAfter(nblocks, last + 1) >= nblocks;
    } else {
      forall turns: nat
        ensures StartAfter(nblocks, turns) < nblocks
      {
        StartsCycle(nblocks, turns);
      }
    }
  }

  // Fork selection

  function Main(rel: RelTag): RelTag { rel.(forknum := MAIN_FORKNUM) }

  function Init(rel: RelTag): RelTag { rel.(forknum := INIT_FORKNUM) }

  /** Whether the backup holds a relation named `dst` with the contents of `src`. */
  predicate Exports(rels: set<RelTag>, fullBackup: bool, dst: RelTag, src: RelTag) {
    if dst.forknum == INIT_FORKNUM then src == dst && dst in rels
    else if dst.forknum == MAIN_FORKNUM && Init(dst) in rels then src == Init(dst)
    else fullBackup && src == dst && dst in rels
  }

  ghost predicate OncePerName(sent: seq<(RelTag, RelTag)>) {
    forall i, j | 0 <= i < j < |sent| :: sent[i].1 != sent[j].1
  }

  /** The pair (source, name) stems from visiting one of the first `k` relations. */
  ghost predicate SentBy(rels: seq<RelTag>, full: bool, k: nat, src: RelTag, dst: RelTag)
    requires k <= |rels|
  {
    src in rels[..k] && Exports(Members(rels), full, dst, src)
  }

  function Members(rels: seq<RelTag>): (s: set<RelTag>)
    ensures forall r :: r in s <==> r in rels
  {
    set r | r in rels
  }

  /** The loop over the relations of a database, visited in any order. */
  method SelectForks(rels: seq<RelTag>, fullBackup: bool) returns (sent: seq<(RelTag, RelTag)>)
    requires Distinct(rels)
    ensures OncePerName(sent)
    ensures forall src, dst :: (src, dst) in sent <==> Exports(Members(rels), fullBackup, dst, src)
  {
    sent := [];
    for k := 0 to |rels|
      invariant OncePerName(sent)
      invariant forall src, dst :: (src, dst) in sent <==> SentBy(rels, fullBackup, k, src, dst)
    {
      var rel := rels[k];
      assert rels[..k + 1] == rels[..k] + [rel];
      assert rel !in rels[..k];
      if rel.forknum == INIT_FORKNUM {
        sent := sent + [(rel, rel)] + [(rel, Main(rel))];
      } else if fullBackup {
        if !(rel.forknum == MAIN_FORKNUM && Init(rel) in rels) {
          sent := sent + [(rel, rel)];
        }
      }
    }
    assert rels[..|rels|] == rels;
  }

  /** A full backup names every relation; a partial one exactly the init forks and the main forks they stand for. */
  lemma NamesInBackup(rels: set<RelTag>, fullBackup: bool, dst: RelTag)
    ensures (exists src :: Exports(rels, fullBackup, dst, src)) <==>
      || (dst.forknum == INIT_FORKNUM && dst in rels)
      || (dst.forknum == MAIN_FORKNUM && Init(dst) in rels)
      || (fullBackup && dst in rels)
  {
    assert Exports(rels, fullBackup, dst, dst) || Exports(rels, fullBackup, dst, Init(dst))
        || forall src :: !Exports(rels, fullBackup, dst, src);
  }
}
