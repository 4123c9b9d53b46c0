/** Names of relation segment files: `<relnode>[_<fork>][.<segno>]`. */
module RelationNames {
  import opened Strings

  const TWO32 := 0x1_0000_0000

  const MAIN_FORKNUM := 0
  const FSM_FORKNUM := 1
  const VISIBILITYMAP_FORKNUM := 2
  const INIT_FORKNUM := 3

  datatype RelTag = RelTag(forknum: nat, spcnode: nat, dbnode: nat, relnode: nat)

  // Decimal numbers

  function Dec(n: nat): (s: string)
    ensures s != "" && All(s, IsDigit)
  {
    var d := ['0' + (n % 10) as char];
    if n < 10 then d else Dec(n / 10) + d
  }

  function Num(s: string): nat
    requires All(s, IsDigit)
  {
    if s == "" then 0 else Num(s[..|s| - 1]) * 10 + (s[|s| - 1] - '0') as nat
  }

  lemma {:induction false} NumDec(n: nat)
    ensures Num(Dec(n)) == n
  {
    if n >= 10 {
      NumDec(n / 10);
      assert Dec(n)[..|Dec(n)| - 1] == Dec(n / 10);
    }
  }

  // Printing and parsing

  function ForkName(forknum: nat): string {
    if forknum == FSM_FORKNUM then "fsm"
    else if forknum == VISIBILITYMAP_FORKNUM then "vm"
    else if forknum == INIT_FORKNUM then "init"
    else "UNKNOWN FORKNUM"
  }

  function ForkPart(forknum: nat): string {
    if forknum == MAIN_FORKNUM then "" else "_" + ForkName(forknum)
  }

  function SegPart(segno: nat): string {
    if segno == 0 then "" else "." + Dec(segno)
  }

  function SegFileName(rel: RelTag, segno: nat): string {
    Dec(rel.relnode) + (ForkPart(rel.forknum) + SegPart(segno))
  }

  datatype Parsed = Parsed(relnode: nat, forknum: nat, segno: nat) | InvalidForkName | InvalidFileName

  /** `(\.\d+)?` up to the end of the name. */
  predicate IsSegPart(s: string) {
    s == "" || (s[0] == '.' && |s| > 1 && All(s[1..], IsDigit))
  }

  function ParseSegno(s: string, relnode: nat, forknum: nat): Parsed {
    if s == "" then Parsed(relnode, forknum, 0)
    else if IsSegPart(s) && Num(s[1..]) < TWO32 then Parsed(relnode, forknum, Num(s[1..]))
    else InvalidFileName
  }

  function ForkNumber(name: string): nat {
    if name == "fsm" then FSM_FORKNUM
    else if name == "vm" then VISIBILITYMAP_FORKNUM
    else if name == "init" then INIT_FORKNUM
    else 4
  }

  /** A malformed rest is reported before an unknown fork name, an oversized segment number after it. */
  function ParseFork(s: string, relnode: nat): Parsed {
    if s == "" || s[0] != '_' then ParseSegno(s, relnode, MAIN_FORKNUM)
    else
      var n := 1 + Span(s[1..], IsLower);
      var rest := s[n..];
      if n == 1 || !IsSegPart(rest) then InvalidFileName
      else if ForkNumber(s[1..n]) == 4 then InvalidForkName
      else ParseSegno(rest, relnode, ForkNumber(s[1..n]))
  }

  function ParseRelFilename(s: string): Parsed {
    var n := Span(s, IsDigit);
    if n == 0 || Num(s[..n]) >= TWO32 then InvalidFileName else ParseFork(s[n..], Num(s[..n]))
  }

  // Round trip

  lemma SegnoRoundTrip(relnode: nat, forknum: nat, segno: nat)
    requires segno < TWO32
    ensures ParseSegno(SegPart(segno), relnode, forknum) == Parsed(relnode, forknum, segno)
  {
    if segno != 0 {
      NumDec(segno);
      assert SegPart(segno)[1..] == Dec(segno);
    }
  }

  lemma SegPartIsOne(segno: nat)
    ensures IsSegPart(SegPart(segno))
  {
    assert segno != 0 ==> SegPart(segno)[1..] == Dec(segno);
  }

  lemma ParseNamedFork(name: string, seg: string, relnode: nat)
    requires name != "" && All(name, IsLower) && ForkNumber(name) != 4 && IsSegPart(seg)
    ensures ParseFork("_" + name + seg, relnode) == ParseSegno(seg, relnode, ForkNumber(name))
  {
    var s := "_" + name + seg;
    assert s[1..] == name + seg;
    SpanAppend(name, seg, IsLower);
    assert s[1..1 + |name|] == name && s[1 + |name|..] == seg;
  }

  lemma ForkNames(forknum: nat)
    requires 0 < forknum <= INIT_FORKNUM
    ensures ForkName(forknum) != "" && All(ForkName(forknum), IsLower) && ForkNumber(ForkName(forknum)) == forknum
  {
  }

  lemma ForkRoundTrip(relnode: nat, forknum: nat, segno: nat)
    requires forknum <= INIT_FORKNUM && segno < TWO32
    ensures ParseFork(ForkPart(forknum) + SegPart(segno), relnode) == Parsed(relnode, forknum, segno)
  {
    SegnoRoundTrip(relnode, forknum, segno);
    SegPartIsOne(segno);
    if forknum == MAIN_FORKNUM {
      assert ForkPart(forknum) + SegPart(segno) == SegPart(segno);
    } else {
      ForkNames(forknum);
      ParseNamedFork(ForkName(forknum), SegPart(segno), relnode);
    }
  }

  /** Every name the exporter writes parses back to the relation, fork and segment it was written for. */
  lemma NameRoundTrip(rel: RelTag, segno: nat)
    requires rel.relnode < TWO32 && rel.forknum <= INIT_FORKNUM && segno < TWO32
    ensures ParseRelFilename(SegFileName(rel, segno)) == Parsed(rel.relnode, rel.forknum, segno)
  {
    var rest := ForkPart(rel.forknum) + SegPart(segno);
    SpanAppend(Dec(rel.relnode), rest, IsDigit);
    NumDec(rel.relnode);
    ForkRoundTrip(rel.relnode, rel.forknum, segno);
  }
}
