/** Paths of the files in a base backup, and what the importer makes of them. */
module BackupPaths {
  import opened Basics
  import opened Strings
  import opened RelationNames

  const DEFAULTTABLESPACE_OID := 1663
  const GLOBALTABLESPACE_OID := 1664

  datatype SlruKind = Clog | MultiXactMembers | MultiXactOffsets

  datatype SegId = SegId(kind: SlruKind, segno: nat)

  // Writing paths

  function SegFilePath(rel: RelTag, segno: nat): string {
    if rel.spcnode == GLOBALTABLESPACE_OID then "global" + "/" + SegFileName(rel, segno)
    else "base" + "/" + (Dec(rel.dbnode) + "/" + SegFileName(rel, segno))
  }

  /** An upper-case hexadecimal digit. */
  function HexDigit(d: nat): char
    requires d < 16
  {
    if d < 10 then '0' + d as char else 'A' + (d - 10) as char
  }

  function Hex(n: nat): string {
    if n < 16 then [HexDigit(n)] else Hex(n / 16) + [HexDigit(n % 16)]
  }

  /** Zeros in front up to a width of four. */
  function Pad4(s: string): string
    decreases 4 - |s|
  {
    if |s| < 4 then Pad4("0" + s) else s
  }

  function SlruPath(id: SegId): string {
    match id.kind
    case Clog => "pg_xact" + "/" + Pad4(Hex(id.segno))
    case MultiXactMembers => "pg_multixact" + "/" + ("members" + "/" + Pad4(Hex(id.segno)))
    case MultiXactOffsets => "pg_multixact" + "/" + ("offsets" + "/" + Pad4(Hex(id.segno)))
  }

  // Reading paths

  predicate IsHexDigit(c: char) { IsDigit(c) || 'a' <= c <= 'f' || 'A' <= c <= 'F' }

  function HexValue(c: char): nat
    requires IsHexDigit(c)
  {
    if IsDigit(c) then (c - '0') as nat else if c <= 'F' then (c - 'A') as nat + 10 else (c - 'a') as nat + 10
  }

  function HexNum(s: string): nat
    requires All(s, IsHexDigit)
  {
    if s == "" then 0 else HexNum(s[..|s| - 1]) * 16 + HexValue(s[|s| - 1])
  }

  /** A number may have a plus sign in front. */
  function Unsigned(s: string): string { if |s| > 1 && s[0] == '+' then s[1..] else s }

  function ParseHex(s: string): Option<nat> {
    var t := Unsigned(s);
    if t != "" && All(t, IsHexDigit) && HexNum(t) < TWO32 then Some(HexNum(t)) else None
  }

  function ParseDec(s: string): Option<nat> {
    var t := Unsigned(s);
    if t != "" && All(t, IsDigit) && Num(t) < TWO32 then Some(Num(t)) else None
  }

  /** What a file of the backup is imported as. */
  datatype Target =
    | Relation(spcnode: nat, dbnode: nat, name: string)
    | Slru(id: SegId)
    | NotModelled
    | Malformed

  predicate IsSpecial(name: string) { name == "pg_control" || name == "pg_filenode.map" || name == "PG_VERSION" }

  function SlruTarget(kind: SlruKind, name: string): Target {
    match ParseHex(name)
    case Some(segno) => Slru(SegId(kind, segno))
    case None => Malformed
  }

  /** `import_file`: by the first components of the path. */
  function TargetOf(path: string): Target {
    if path != "" && path[0] == '/' then NotModelled else PartsTarget(Components(path))
  }

  function PartsTarget(parts: seq<string>): Target {
    if parts == [] then NotModelled
    else
      var first, name := parts[0], parts[|parts| - 1];
      if name != "" && name[0] == '.' then NotModelled
      else if first == "global" then RelationTarget(GLOBALTABLESPACE_OID, Some(0), name)
      else if first == "base" then
        RelationTarget(DEFAULTTABLESPACE_OID, if |parts| > 1 then ParseDec(parts[1]) else None, name)
      else if first == "pg_xact" then SlruTarget(Clog, name)
      else if first == "pg_multixact" && |parts| > 1 && parts[1] == "offsets" then SlruTarget(MultiXactOffsets, name)
      else if first == "pg_multixact" && |parts| > 1 && parts[1] == "members" then SlruTarget(MultiXactMembers, name)
      else NotModelled
  }

  function RelationTarget(spcnode: nat, dbnode: Option<nat>, name: string): Target {
    match dbnode
    case None => Malformed
    case Some(db) => if IsSpecial(name) then NotModelled else Relation(spcnode, db, name)
  }

  // Numbers

  lemma DecRoundTrip(n: nat)
    requires n < TWO32
    ensures ParseDec(Dec(n)) == Some(n)
  {
    NumDec(n);
    assert Dec(n)[0] != '+';
  }

  lemma {:induction false} HexRoundTrip(n: nat)
    ensures Hex(n) != "" && All(Hex(n), IsHexDigit) && HexNum(Hex(n)) == n
  {
    if n >= 16 {
      HexRoundTrip(n / 16);
      assert Hex(n)[..|Hex(n)| - 1] == Hex(n / 16);
    }
  }

  lemma {:induction false} LeadingZero(s: string)
    requires All(s, IsHexDigit)
    ensures All("0" + s, IsHexDigit) && HexNum("0" + s) == HexNum(s)
  {
    var t := "0" + s;
    if s == "" {
      assert t[..0] == "";
    } else {
      LeadingZero(s[..|s| - 1]);
      assert t[..|t| - 1] == "0" + s[..|s| - 1];
    }
  }

  lemma {:induction false} PadKeepsValue(s: string)
    requires s != "" && All(s, IsHexDigit)
    ensures Pad4(s) != "" && All(Pad4(s), IsHexDigit) && HexNum(Pad4(s)) == HexNum(s)
    decreases 4 - |s|
  {
    if |s| < 4 {
      LeadingZero(s);
      PadKeepsValue("0" + s);
    }
  }

  lemma SlruNumber(segno: nat)
    requires segno < TWO32
    ensures var s := Pad4(Hex(segno)); s != "" && All(s, IsHexDigit) && ParseHex(s) == Some(segno)
  {
    HexRoundTrip(segno);
    PadKeepsValue(Hex(segno));
    assert IsHexDigit(Pad4(Hex(segno))[0]);
  }

  // Round trips

  lemma HexIsName(s: string)
    requires s != "" && All(s, IsHexDigit)
    ensures All(s, NotSlash) && s[0] != '.'
  {
    assert IsHexDigit(s[0]);
  }

  predicate IsPart(s: string) { s != "" && All(s, NotSlash) }

  lemma TwoParts(a: string, b: string)
    requires IsPart(a) && IsPart(b)
    ensures TargetOf(a + "/" + b) == PartsTarget([a, b])
  {
    FirstComponent(a, b);
    OnlyComponent(b);
    assert [a] + [b] == [a, b];
  }

  lemma ThreeParts(a: string, b: string, c: string)
    requires IsPart(a) && IsPart(b) && IsPart(c)
    ensures TargetOf(a + "/" + (b + "/" + c)) == PartsTarget([a, b, c])
  {
    FirstComponent(a, b + "/" + c);
    FirstComponent(b, c);
    OnlyComponent(c);
    assert [a] + ([b] + [c]) == [a, b, c];
  }

  lemma SlruParts(name: string)
    requires name != "" && name[0] != '.'
    ensures PartsTarget(["pg_xact", name]) == SlruTarget(Clog, name)
    ensures PartsTarget(["pg_multixact", "offsets", name]) == SlruTarget(MultiXactOffsets, name)
    ensures PartsTarget(["pg_multixact", "members", name]) == SlruTarget(MultiXactMembers, name)
  {
    assert "pg_xact"[0] == "pg_multixact"[0] == 'p' && "global"[0] == 'g' && "base"[0] == 'b';
    assert "pg_multixact"[3] == 'm' && "pg_xact"[3] == 'x' && "members"[0] == 'm' && "offsets"[0] == 'o';
  }

  /** Every SLRU path the exporter writes names its kind and segment to the importer. */
  lemma SlruPathRoundTrip(id: SegId)
    requires id.segno < TWO32
    ensures TargetOf(SlruPath(id)) == Slru(id)
  {
    var name := Pad4(Hex(id.segno));
    SlruNumber(id.segno);
    HexIsName(name);
    SlruParts(name);
    match id.kind
    case Clog => TwoParts("pg_xact", name);
    case MultiXactMembers => ThreeParts("pg_multixact", "members", name);
    case MultiXactOffsets => ThreeParts("pg_multixact", "offsets", name);
  }

  lemma DecIsName(n: nat)
    ensures All(Dec(n), NotSlash)
  {
  }

  lemma RelationName(rel: RelTag, segno: nat)
    ensures var name := SegFileName(rel, segno); name != "" && All(name, NotSlash) && IsDigit(name[0])
  {
    DecIsName(rel.relnode);
    DecIsName(segno);
    AllAppend(".", Dec(segno), NotSlash);
    AllAppend("_", ForkName(rel.forknum), NotSlash);
    AllAppend(ForkPart(rel.forknum), SegPart(segno), NotSlash);
    AllAppend(Dec(rel.relnode), ForkPart(rel.forknum) + SegPart(segno), NotSlash);
    assert SegFileName(rel, segno)[0] == Dec(rel.relnode)[0];
  }

  lemma RelationParts(db: string, name: string)
    requires name != "" && IsDigit(name[0])
    ensures PartsTarget(["global", name]) == Relation(GLOBALTABLESPACE_OID, 0, name)
    ensures PartsTarget(["base", db, name]) == RelationTarget(DEFAULTTABLESPACE_OID, ParseDec(db), name)
    ensures !IsSpecial(name)
  {
    assert "global"[0] == 'g' && "base"[0] == 'b';
    assert "pg_control"[0] == "pg_filenode.map"[0] == 'p' && "PG_VERSION"[0] == 'P';
  }

  /** The directory keeps the database, but of the tablespace only whether it is the global one. */
  lemma PathTarget(rel: RelTag, segno: nat)
    requires rel.dbnode < TWO32
    ensures TargetOf(SegFilePath(rel, segno)) ==
      if rel.spcnode == GLOBALTABLESPACE_OID then Relation(GLOBALTABLESPACE_OID, 0, SegFileName(rel, segno))
      else Relation(DEFAULTTABLESPACE_OID, rel.dbnode, SegFileName(rel, segno))
  {
    var name := SegFileName(rel, segno);
    RelationName(rel, segno);
    RelationParts(Dec(rel.dbnode), name);
    DecIsName(rel.dbnode);
    DecRoundTrip(rel.dbnode);
    if rel.spcnode == GLOBALTABLESPACE_OID {
      TwoParts("global", name);
    } else {
      ThreeParts("base", Dec(rel.dbnode), name);
    }
  }

  /** The relation and segment the importer takes a path for. */
  function TagOf(path: string): Option<(RelTag, nat)> {
    match TargetOf(path)
    case Relation(spc, db, name) =>
      (match ParseRelFilename(name)
       case Parsed(relnode, forknum, segno) => Some((RelTag(forknum, spc, db, relnode), segno))
       case _ => None)
    case _ => None
  }

  /** Shared relations, and relations in the default tablespace. */
  predicate Placed(rel: RelTag) {
    (rel.spcnode == GLOBALTABLESPACE_OID && rel.dbnode == 0) || rel.spcnode == DEFAULTTABLESPACE_OID
  }

  predicate Nameable(rel: RelTag) { rel.relnode < TWO32 && rel.dbnode < TWO32 && rel.forknum <= INIT_FORKNUM }

  /** A path comes back as the same relation exactly for shared relations and those of the default tablespace. */
  lemma PathRoundTripExactly(rel: RelTag, segno: nat)
    requires Nameable(rel) && segno < TWO32
    ensures TagOf(SegFilePath(rel, segno)) == Some((rel, segno)) <==> Placed(rel)
  {
    PathTarget(rel, segno);
    NameRoundTrip(rel, segno);
  }
}
