/** Exporting relations and importing their segment files in any order restores every block. */
module RelationRoundTrip {
  import opened Pages
  import opened Basics
  import opened RelationNames
  import opened BackupPaths
  import opened RelationExport
  import opened RelationImport

  /** The relations of a database with their blocks. */
  type Database = map<RelTag, seq<Page>>

  /** A relation with a valid tag and blocks of the right size; shared relations belong to no database. */
  predicate WellFormed(rel: RelTag, pages: seq<Page>) {
    && 0 < rel.relnode && Nameable(rel)
    && (rel.spcnode == GLOBALTABLESPACE_OID ==> rel.dbnode == 0)
    && PageSized(pages) && |pages| < TWO32
  }

  predicate Exportable(rel: RelTag, pages: seq<Page>) {
    WellFormed(rel, pages) && Placed(rel) && |pages| <= MAX_NBLOCKS
  }

  ghost predicate AllExportable(db: Database) { forall rel | rel in db :: Exportable(rel, db[rel]) }

  /** A relation and one of its segments. */
  type Segment = (RelTag, nat)

  ghost predicate Has(db: Database, seg: Segment) { seg.0 in db && IsSegment(|db[seg.0]|, seg.1) }

  function FileOf(db: Database, seg: Segment): File
    requires Has(db, seg)
  {
    SegFile(seg.0, db[seg.0], seg.1)
  }

  ghost predicate Restored(db: Database, s: State) {
    && (forall rel :: rel in s.sizes <==> rel in db)
    && (forall rel | rel in db :: s.sizes[rel] == |db[rel]|)
    && (forall rel, b: nat :: (rel, b) in s.pages <==> rel in db && b < |db[rel]|)
    && (forall rel, b: nat | (rel, b) in s.pages :: s.pages[(rel, b)] == db[rel][b])
  }

  // What has been imported so far

  ghost predicate SizeOk(db: Database, s: State, rel: RelTag) {
    rel in s.sizes ==> rel in db && s.sizes[rel] <= |db[rel]|
  }

  ghost predicate PageOk(db: Database, s: State, k: (RelTag, nat)) {
    k in s.pages ==> k.0 in db && k.1 < |db[k.0]| && s.pages[k] == db[k.0][k.1]
  }

  /** Nothing but blocks of the database at their own numbers. */
  ghost predicate Sound(db: Database, s: State) {
    && (forall rel {:trigger SizeOk(db, s, rel)} :: SizeOk(db, s, rel))
    && (forall k {:trigger PageOk(db, s, k)} :: PageOk(db, s, k))
  }

  /** All of one segment is there. */
  ghost predicate Present(db: Database, s: State, seg: Segment)
    requires Has(db, seg)
  {
    var end := SegEnd(|db[seg.0]|, seg.1);
    && seg.0 in s.sizes
    && end <= s.sizes[seg.0]
    && forall b | SegStart(seg.1) <= b < end :: (seg.0, b) in s.pages
  }

  ghost predicate ImportedFile(db: Database, s: State, s': State, seg: Segment)
    requires AllExportable(db) && Has(db, seg)
  {
    ImportedAt(s, s', seg.0, SegStart(seg.1), SegPages(db[seg.0], seg.1))
  }

  lemma ImportIsSound(db: Database, s: State, s': State, seg: Segment)
    requires AllExportable(db) && Has(db, seg) && Sound(db, s) && ImportedFile(db, s, s', seg)
    ensures Sound(db, s')
  {
    forall rel
      ensures SizeOk(db, s', rel)
    {
      assert SizeOk(db, s, rel);
    }
    forall k: (RelTag, nat)
      ensures PageOk(db, s', k)
    {
      assert PageOk(db, s, k);
      ImportedPage(db, s, s', seg, k);
    }
  }

  lemma ImportedPage(db: Database, s: State, s': State, seg: Segment, k: (RelTag, nat))
    requires AllExportable(db) && Has(db, seg) && PageOk(db, s, k) && ImportedFile(db, s, s', seg)
    ensures PageOk(db, s', k)
  {
    assert InFile(k, seg.0, SegStart(seg.1), |SegPages(db[seg.0], seg.1)|) || k !in s'.pages || k in s.pages;
  }

  lemma ImportIsPresent(db: Database, s: State, s': State, seg: Segment)
    requires AllExportable(db) && Has(db, seg) && ImportedFile(db, s, s', seg)
    ensures Present(db, s', seg)
  {
    var start := SegStart(seg.1);
    forall b | start <= b < SegEnd(|db[seg.0]|, seg.1)
      ensures (seg.0, b) in s'.pages
    {
      assert InFile((seg.0, b), seg.0, start, |SegPages(db[seg.0], seg.1)|);
    }
  }

  lemma PresentStays(db: Database, s: State, s': State, seg: Segment, other: Segment)
    requires AllExportable(db) && Has(db, seg) && Has(db, other)
    requires Present(db, s, other) && ImportedFile(db, s, s', seg)
    ensures Present(db, s', other)
  {
  }

  ghost predicate AllPresent(db: Database, s: State) {
    forall rel, segno: nat :: Has(db, (rel, segno)) ==> Present(db, s, (rel, segno))
  }

  lemma RelationPresent(db: Database, s: State, rel: RelTag)
    requires AllExportable(db) && Sound(db, s) && AllPresent(db, s) && rel in db
    ensures rel in s.sizes && s.sizes[rel] == |db[rel]|
    ensures forall b: nat | b < |db[rel]| :: (rel, b) in s.pages
  {
    assert SizeOk(db, s, rel);
    assert Has(db, (rel, 0)) && Present(db, s, (rel, 0));
    if |db[rel]| > 0 {
      var last := SegmentOfBlock(|db[rel]|, |db[rel]| - 1);
      assert Has(db, (rel, last)) && Present(db, s, (rel, last));
    }
    forall b: nat | b < |db[rel]|
      ensures (rel, b) in s.pages
    {
      var segno := SegmentOfBlock(|db[rel]|, b);
      assert Has(db, (rel, segno)) && Present(db, s, (rel, segno));
    }
  }

  lemma EverythingRestored(db: Database, s: State)
    requires AllExportable(db) && Sound(db, s) && AllPresent(db, s)
    ensures Restored(db, s)
  {
    forall rel
      ensures rel in s.sizes <==> rel in db
      ensures rel in db ==> s.sizes[rel] == |db[rel]|
    {
      assert SizeOk(db, s, rel);
      if rel in db {
        RelationPresent(db, s, rel);
      }
    }
    forall rel, b: nat
      ensures (rel, b) in s.pages <==> rel in db && b < |db[rel]|
      ensures (rel, b) in s.pages ==> s.pages[(rel, b)] == db[rel][b]
    {
      assert PageOk(db, s, (rel, b));
      if rel in db && b < |db[rel]| {
        RelationPresent(db, s, rel);
      }
    }
  }

  // Importing exported files

  lemma FileIsFor(db: Database, seg: Segment)
    requires AllExportable(db) && Has(db, seg)
    ensures TagOf(FileOf(db, seg).path) == Some(seg)
  {
    assert Exportable(seg.0, db[seg.0]);
    SegStartIs(seg.1);
    PathRoundTripExactly(seg.0, seg.1);
  }

  lemma FileSplits(db: Database, seg: Segment)
    requires AllExportable(db) && Has(db, seg)
    ensures var data, ps := FileOf(db, seg).data, SegPages(db[seg.0], seg.1);
      && Split(data) == ps
      && |data| % BLCKSZ == 0
      && |data| / BLCKSZ == |ps|
      && SegStart(seg.1) + |ps| < TWO32
  {
    assert Exportable(seg.0, db[seg.0]);
    var ps := SegPages(db[seg.0], seg.1);
    SplitConcat(ps);
    SplitCount(Concat(ps));
    ConcatLength(ps);
  }

  method ImportOne(m: DatadirModification, ghost db: Database, ghost seg: Segment, file: File)
    requires AllExportable(db) && Has(db, seg) && file == FileOf(db, seg)
    modifies m
    ensures ImportedFile(db, old(m.Repository()), m.Repository(), seg)
  {
    ghost var before := m.Repository();
    FileIsFor(db, seg);
    FileSplits(db, seg);
    assert Exportable(seg.0, db[seg.0]);
    var _ := m.ImportFile(file.path, file.data, |file.data|);
    ImportedWithoutWrap(before, m.Repository(), seg.0, seg.1, SegPages(db[seg.0], seg.1));
  }

  /** The files of the segments `segs` of a database. */
  ghost predicate FilesFor(db: Database, segs: seq<Segment>, files: seq<File>) {
    |files| == |segs| && forall i | 0 <= i < |segs| :: Has(db, segs[i]) && files[i] == FileOf(db, segs[i])
  }

  ghost predicate AllSegmentsIn(db: Database, segs: seq<Segment>) {
    forall rel, segno: nat :: Has(db, (rel, segno)) ==> (rel, segno) in segs
  }

  ghost predicate ImportedUpTo(db: Database, s: State, segs: seq<Segment>, k: nat)
    requires k <= |segs| && forall i | 0 <= i < |segs| :: Has(db, segs[i])
  {
    Sound(db, s) && forall j | 0 <= j < k :: Present(db, s, segs[j])
  }

  lemma OneMoreImported(db: Database, s: State, s': State, segs: seq<Segment>, k: nat)
    requires AllExportable(db) && k < |segs| && forall i | 0 <= i < |segs| :: Has(db, segs[i])
    requires ImportedUpTo(db, s, segs, k) && ImportedFile(db, s, s', segs[k])
    ensures ImportedUpTo(db, s', segs, k + 1)
  {
    ImportIsSound(db, s, s', segs[k]);
    ImportIsPresent(db, s, s', segs[k]);
    forall j | 0 <= j < k
      ensures Present(db, s', segs[j])
    {
      PresentStays(db, s, s', segs[k], segs[j]);
    }
  }

  /** Imports files in the order given, which may be any and may repeat files. */
  method ImportAll(ghost db: Database, ghost segs: seq<Segment>, files: seq<File>) returns (m: DatadirModification)
    requires AllExportable(db) && FilesFor(db, segs, files)
    ensures fresh(m) && ImportedUpTo(db, m.Repository(), segs, |segs|)
    ensures AllSegmentsIn(db, segs) ==> Restored(db, m.Repository())
  {
    m := new DatadirModification();
    for i := 0 to |files|
      invariant fresh(m) && ImportedUpTo(db, m.Repository(), segs, i)
    {
      ghost var before := m.Repository();
      ImportOne(m, db, segs[i], files[i]);
      OneMoreImported(db, before, m.Repository(), segs, i);
    }
    if AllSegmentsIn(db, segs) {
      AllArePresent(db, m.Repository(), segs);
      EverythingRestored(db, m.Repository());
    }
  }

  lemma AllArePresent(db: Database, s: State, segs: seq<Segment>)
    requires AllExportable(db) && forall i | 0 <= i < |segs| :: Has(db, segs[i])
    requires ImportedUpTo(db, s, segs, |segs|) && AllSegmentsIn(db, segs)
    ensures AllPresent(db, s)
  {
  }

  // Export and import together

  /** The source of the relation named `dst` in a backup: the init fork stands in for the main fork. */
  function SourceOf(db: Database, dst: RelTag): RelTag {
    if dst.forknum == MAIN_FORKNUM && Init(dst) in db then Init(dst) else dst
  }

  function NamesOf(db: Database, fullBackup: bool): set<RelTag> {
    (set rel <- db | fullBackup || rel.forknum == INIT_FORKNUM)
    + (set rel <- db | rel.forknum == INIT_FORKNUM :: Main(rel))
  }

  /** The database a backup stands for. */
  function BackupOf(db: Database, fullBackup: bool): Database {
    map dst <- NamesOf(db, fullBackup) | SourceOf(db, dst) in db :: db[SourceOf(db, dst)]
  }

  lemma BackupHolds(db: Database, fullBackup: bool, dst: RelTag, src: RelTag)
    ensures Exports(db.Keys, fullBackup, dst, src) <==> dst in BackupOf(db, fullBackup) && src == SourceOf(db, dst)
  {
    if dst.forknum == MAIN_FORKNUM && Init(dst) in db {
      assert Main(Init(dst)) == dst;
    }
  }

  /** Without init forks a full backup is the database itself. */
  lemma FullBackupIsTheDatabase(db: Database)
    requires forall rel <- db :: rel.forknum != INIT_FORKNUM
    ensures BackupOf(db, true) == db
  {
  }

  /** The main fork of a relation with an init fork is backed up as its init fork, which is backed up too. */
  lemma UnloggedComesBackEmpty(db: Database, fullBackup: bool, rel: RelTag)
    requires rel.forknum == INIT_FORKNUM && rel in db
    ensures rel in BackupOf(db, fullBackup) && Main(rel) in BackupOf(db, fullBackup)
    ensures BackupOf(db, fullBackup)[Main(rel)] == BackupOf(db, fullBackup)[rel] == db[rel]
  {
    assert Init(Main(rel)) == rel;
  }

  lemma BackupIsExportable(db: Database, fullBackup: bool)
    requires AllWellFormed(db) && Supported(db) && SmallEnough(BackupOf(db, fullBackup))
    ensures AllExportable(BackupOf(db, fullBackup))
  {
    forall dst <- BackupOf(db, fullBackup)
      ensures Exportable(dst, BackupOf(db, fullBackup)[dst])
    {
      assert WellFormed(SourceOf(db, dst), db[SourceOf(db, dst)]) && Placed(SourceOf(db, dst));
    }
  }

  /** No relation is in a user-defined tablespace. */
  ghost predicate Supported(db: Database) { forall rel | rel in db :: Placed(rel) }

  ghost predicate AllWellFormed(db: Database) { forall rel | rel in db :: WellFormed(rel, db[rel]) }

  ghost predicate SmallEnough(db: Database) { forall rel | rel in db :: |db[rel]| <= MAX_NBLOCKS }

  function SegmentsOf(dst: RelTag, n: nat): seq<Segment> { seq(n, s requires 0 <= s < n => (dst, s)) }

  lemma MoreFiles(b: Database, segs: seq<Segment>, files: seq<File>, dst: RelTag, more: seq<File>)
    requires FilesFor(b, segs, files) && dst in b && HoldsSegments(dst, b[dst], more)
    ensures FilesFor(b, segs + SegmentsOf(dst, |more|), files + more)
  {
    var segs', files' := segs + SegmentsOf(dst, |more|), files + more;
    forall i | 0 <= i < |segs'|
      ensures Has(b, segs'[i]) && files'[i] == FileOf(b, segs'[i])
    {
      if i >= |segs| {
        var s: nat := i - |segs|;
        assert segs'[i] == (dst, s) && files'[i] == more[s] == FilesOf(dst, b[dst])(s);
      }
    }
  }

  /** All of the relation `dst` is in the list. */
  ghost predicate Whole(b: Database, segs: seq<Segment>, dst: RelTag) {
    dst in b && |b[dst]| <= MAX_NBLOCKS && forall s: nat | IsSegment(|b[dst]|, s) :: (dst, s) in segs
  }

  lemma NowWhole(b: Database, segs: seq<Segment>, dst: RelTag, more: seq<File>)
    requires dst in b && |b[dst]| <= MAX_NBLOCKS && HoldsSegments(dst, b[dst], more)
    ensures Whole(b, segs + SegmentsOf(dst, |more|), dst)
  {
    var segs' := segs + SegmentsOf(dst, |more|);
    forall s: nat | IsSegment(|b[dst]|, s)
      ensures (dst, s) in segs'
    {
      assert segs'[|segs| + s] == (dst, s);
    }
  }

  lemma StaysWhole(b: Database, segs: seq<Segment>, more: seq<Segment>, dst: RelTag)
    requires Whole(b, segs, dst)
    ensures Whole(b, segs + more, dst)
  {
  }

  lemma AllWhole(db: Database, fullBackup: bool, sent: seq<(RelTag, RelTag)>, segs: seq<Segment>)
    requires forall src, dst :: (src, dst) in sent <==> Exports(db.Keys, fullBackup, dst, src)
    requires forall j | 0 <= j < |sent| :: Whole(BackupOf(db, fullBackup), segs, sent[j].1)
    ensures SmallEnough(BackupOf(db, fullBackup)) && AllSegmentsIn(BackupOf(db, fullBackup), segs)
  {
    forall dst | dst in BackupOf(db, fullBackup)
      ensures Whole(BackupOf(db, fullBackup), segs, dst)
    {
      BackupHolds(db, fullBackup, dst, SourceOf(db, dst));
      assert (SourceOf(db, dst), dst) in sent;
    }
  }

  /** Whether the directory of a relation can be added: user-defined tablespaces are refused unless empty. */
  predicate DirectoryOk(rel: RelTag) {
    rel.spcnode == GLOBALTABLESPACE_OID || rel.spcnode == DEFAULTTABLESPACE_OID
  }

  /** Adds the directories of all relations, as `send_tarball` does one directory at a time. */
  method AddDbDirs(db: Database, rels: seq<RelTag>) returns (ok: bool)
    requires AllWellFormed(db) && Members(rels) == db.Keys
    ensures ok <==> Supported(db)
  {
    for i := 0 to |rels|
      invariant forall j | 0 <= j < i :: DirectoryOk(rels[j])
    {
      if !DirectoryOk(rels[i]) {
        assert rels[i] in db;
        return false;
      }
    }
    forall rel | rel in db
      ensures Placed(rel)
    {
      assert rel in rels && WellFormed(rel, db[rel]);
    }
    ok := true;
  }

  /**
   * Sends a database, its relations listed in any order; fails on a user-defined tablespace or too large a relation.
   */
  method ExportAll(db: Database, rels: seq<RelTag>, fullBackup: bool)
    returns (ok: bool, files: seq<File>, segs: seq<Segment>)
    requires AllWellFormed(db) && Distinct(rels) && Members(rels) == db.Keys
    ensures ok <==> Supported(db) && SmallEnough(BackupOf(db, fullBackup))
    ensures ok ==> FilesFor(BackupOf(db, fullBackup), segs, files) && AllSegmentsIn(BackupOf(db, fullBackup), segs)
  {
    ok := AddDbDirs(db, rels);
    if !ok {
      return false, [], [];
    }
    ok, files, segs := ExportRelations(db, rels, fullBackup);
  }

  method ExportRelations(db: Database, rels: seq<RelTag>, fullBackup: bool)
    returns (ok: bool, files: seq<File>, segs: seq<Segment>)
    requires AllWellFormed(db) && Distinct(rels) && Members(rels) == db.Keys
    ensures ok <==> SmallEnough(BackupOf(db, fullBackup))
    ensures ok ==> FilesFor(BackupOf(db, fullBackup), segs, files) && AllSegmentsIn(BackupOf(db, fullBackup), segs)
  {
    ghost var b := BackupOf(db, fullBackup);
    var sent := SelectForks(rels, fullBackup);
    files, segs := [], [];
    for k := 0 to |sent|
      invariant FilesFor(b, segs, files)
      invariant forall j | 0 <= j < k :: Whole(b, segs, sent[j].1)
    {
      var src, dst := sent[k].0, sent[k].1;
      assert (src, dst) in sent;
      BackupHolds(db, fullBackup, dst, src);
      var r := AddRel(dst, db[src]);
      if r.BlockNumberOverflow? {
        return false, [], [];
      }
      MoreFiles(b, segs, files, dst, r.files);
      NowWhole(b, segs, dst, r.files);
      forall j | 0 <= j < k
        ensures Whole(b, segs + SegmentsOf(dst, |r.files|), sent[j].1)
      {
        StaysWhole(b, segs, SegmentsOf(dst, |r.files|), sent[j].1);
      }
      files, segs := files + r.files, segs + SegmentsOf(dst, |r.files|);
    }
    AllWhole(db, fullBackup, sent, segs);
    ok := true;
  }

  /** An order in which `n` files are imported: every file comes at least once. */
  ghost predicate Covers(order: seq<nat>, n: nat) {
    (forall i | 0 <= i < |order| :: order[i] < n) && forall k: nat | k < n :: k in order
  }

  lemma ReorderedFiles(b: Database, segs: seq<Segment>, files: seq<File>, order: seq<nat>, segs': seq<Segment>,
                       files': seq<File>)
    requires FilesFor(b, segs, files) && AllSegmentsIn(b, segs) && Covers(order, |files|)
    requires |segs'| == |files'| == |order|
    requires forall i | 0 <= i < |order| :: segs'[i] == segs[order[i]] && files'[i] == files[order[i]]
    ensures FilesFor(b, segs', files') && AllSegmentsIn(b, segs')
  {
    forall rel, segno: nat | Has(b, (rel, segno))
      ensures (rel, segno) in segs'
    {
      assert (rel, segno) in segs;
      var k: nat :| k < |segs| && segs[k] == (rel, segno);
      assert k in order;
      var i :| 0 <= i < |order| && order[i] == k;
      assert segs'[i] == (rel, segno);
    }
  }

  /**
   * Exports a database and imports the files in an order chosen by `shuffle`.  It fails exactly if a relation is in a
   * user-defined tablespace or too large; otherwise what is restored is the database the backup stands for, sizes and
   * blocks.
   */
  method BackupAndRestore(db: Database, rels: seq<RelTag>, fullBackup: bool, shuffle: nat -> seq<nat>)
    returns (ok: bool, m: DatadirModification)
    requires AllWellFormed(db) && Distinct(rels) && Members(rels) == db.Keys
    requires forall n: nat :: Covers(shuffle(n), n)
    ensures fresh(m)
    ensures ok <==> Supported(db) && SmallEnough(BackupOf(db, fullBackup))
    ensures ok ==> Restored(BackupOf(db, fullBackup), m.Repository())
    ensures ok && fullBackup && (forall rel <- db :: rel.forknum != INIT_FORKNUM) ==> Restored(db, m.Repository())
  {
    var files, segs;
    ok, files, segs := ExportAll(db, rels, fullBackup);
    if !ok {
      m := new DatadirModification();
      return;
    }
    var order := shuffle(|files|);
    assert Covers(order, |files|);
    var shuffled := seq(|order|, i requires 0 <= i < |order| => files[order[i]]);
    ghost var segs' := seq(|order|, i requires 0 <= i < |order| => segs[order[i]]);
    ReorderedFiles(BackupOf(db, fullBackup), segs, files, order, segs', shuffled);
    BackupIsExportable(db, fullBackup);
    m := ImportAll(BackupOf(db, fullBackup), segs', shuffled);
    if fullBackup && forall rel <- db :: rel.forknum != INIT_FORKNUM {
      FullBackupIsTheDatabase(db);
    }
  }
}
