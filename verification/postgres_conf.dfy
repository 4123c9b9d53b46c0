/** Printing and reading `postgresql.conf`. */
module PostgresConfFile {
  import opened Basics
  import opened Strings

  datatype Result = Ok(value: string) | OctalEscape

  // Escaping

  predicate IsAlnum(c: char) { IsLetter(c) || IsDigit(c) }

  /** `[-+]?[0-9]+[a-zA-Z]*` */
  predicate IsNumberWithUnit(s: string) {
    var t := if s != "" && (s[0] == '-' || s[0] == '+') then s[1..] else s;
    var n := Span(t, IsDigit);
    0 < n && All(t[n..], IsLetter)
  }

  /** `[a-zA-Z][a-zA-Z0-9]*` */
  predicate IsSimpleWord(s: string) {
    s != "" && IsLetter(s[0]) && All(s, IsAlnum)
  }

  function Replace(s: string, c: char, with: string): string {
    if s == "" then "" else (if s[0] == c then with else [s[0]]) + Replace(s[1..], c, with)
  }

  function Quoted(s: string): string {
    Replace(Replace(Replace(s, '\\', "\\\\"), '\n', "\\n"), '\'', "''")
  }

  function Escape(s: string): string {
    if IsNumberWithUnit(s) || IsSimpleWord(s) then s else "'" + Quoted(s) + "'"
  }

  function EscapedChar(c: char): char {
    match c
    case 'b' => '\U{8}'
    case 'f' => '\U{c}'
    case 'n' => '\n'
    case 'r' => '\r'
    case 't' => '\t'
    case _ => c
  }

  function Prepend(c: char, r: Result): Result {
    match r
    case Ok(s) => Ok([c] + s)
    case OctalEscape => OctalEscape
  }

  /** The text between the quotes, with escapes resolved; a backslash at the very end is dropped. */
  function Unquoted(s: string): Result {
    if s == "" then Ok("")
    else if s[0] == '\\' then
      if |s| == 1 then Ok("")
      else if '0' <= s[1] <= '7' then OctalEscape
      else Prepend(EscapedChar(s[1]), Unquoted(s[2..]))
    else if s[0] == '\'' && |s| > 1 && s[1] == '\'' then Prepend('\'', Unquoted(s[2..]))
    else Prepend(s[0], Unquoted(s[1..]))
  }

  function Deescaped(s: string): Result {
    if |s| >= 2 && s[0] == '\'' && s[|s| - 1] == '\'' then Unquoted(s[1..|s| - 1]) else Ok(s)
  }

  function Before(s: string, r: Result): Result {
    match r
    case Ok(t) => Ok(s + t)
    case OctalEscape => OctalEscape
  }

  /** The loop over the characters of a quoted value. */
  method Deescape(s: string) returns (r: Result)
    ensures r == Deescaped(s)
  {
    if !(|s| >= 2 && s[0] == '\'' && s[|s| - 1] == '\'') {
      return Ok(s);
    }
    var rest := s[1..|s| - 1];
    var result := "";
    while rest != ""
      invariant Deescaped(s) == Before(result, Unquoted(rest))
      decreases |rest|
    {
      var c := rest[0];
      var taken := 1;
      if c == '\\' {
        if |rest| == 1 {
          break;
        }
        if '0' <= rest[1] <= '7' {
          return OctalEscape;
        }
        c, taken := EscapedChar(rest[1]), 2;
      } else if c == '\'' && |rest| > 1 && rest[1] == '\'' {
        taken := 2;
      }
      BeforePrepend(result, c, Unquoted(rest[taken..]));
      result := result + [c];
      rest := rest[taken..];
    }
    r := Ok(result);
  }

  lemma BeforePrepend(s: string, c: char, r: Result)
    ensures Before(s, Prepend(c, r)) == Before(s + [c], r)
  {
    if r.Ok? {
      assert s + ([c] + r.value) == (s + [c]) + r.value;
    }
  }

  // Escaping one character at a time

  function Esc(c: char): string {
    if c == '\\' then "\\\\" else if c == '\n' then "\\n" else if c == '\'' then "''" else [c]
  }

  lemma {:induction false} ReplaceAppend(a: string, b: string, c: char, t: string)
    ensures Replace(a + b, c, t) == Replace(a, c, t) + Replace(b, c, t)
  {
    if a == "" {
      assert a + b == b;
    } else {
      assert (a + b)[1..] == a[1..] + b;
      ReplaceAppend(a[1..], b, c, t);
    }
  }

  lemma ReplaceOne(x: char)
    ensures Replace(Replace(Replace([x], '\\', "\\\\"), '\n', "\\n"), '\'', "''") == Esc(x)
  {
    assert Replace([x], '\\', "\\\\") == if x == '\\' then "\\\\" else [x];
    assert Replace("\\\\", '\n', "\\n") == "\\\\" by {
      assert "\\\\"[1..] == "\\";
    }
    assert Replace("\\\\", '\'', "''") == "\\\\" by {
      assert "\\\\"[1..] == "\\";
    }
    assert Replace("\\n", '\'', "''") == "\\n" by {
      assert "\\n"[1..] == "n";
    }
  }

  lemma QuotedStep(s: string)
    requires s != ""
    ensures Quoted(s) == Esc(s[0]) + Quoted(s[1..])
  {
    var a, b := [s[0]], s[1..];
    assert s == a + b;
    ReplaceAppend(a, b, '\\', "\\\\");
    ReplaceAppend(Replace(a, '\\', "\\\\"), Replace(b, '\\', "\\\\"), '\n', "\\n");
    ReplaceAppend(Replace(Replace(a, '\\', "\\\\"), '\n', "\\n"),
                  Replace(Replace(b, '\\', "\\\\"), '\n', "\\n"), '\'', "''");
    ReplaceOne(s[0]);
  }

  lemma UnquoteStep(c: char, rest: string)
    ensures Unquoted(Esc(c) + rest) == Prepend(c, Unquoted(rest))
  {
    var e := Esc(c);
    assert (e + rest)[|e|..] == rest;
  }

  /** `quote` escapes one character after the other. */
  ghost predicate EscapesEach(quote: string -> string) {
    quote("") == "" && forall s | s != "" :: quote(s) == Esc(s[0]) + quote(s[1..])
  }

  lemma {:induction false} UnquoteEach(quote: string -> string, s: string)
    requires EscapesEach(quote)
    ensures Unquoted(quote(s)) == Ok(s)
  {
    if s != "" {
      var c, more := s[0], s[1..];
      UnquoteEach(quote, more);
      UnquoteStep(c, quote(more));
      assert s == [c] + more;
    }
  }

  lemma QuotedEscapesEach()
    ensures EscapesEach(Quoted)
  {
    forall s | s != ""
      ensures Quoted(s) == Esc(s[0]) + Quoted(s[1..])
    {
      QuotedStep(s);
    }
  }

  lemma UnquoteQuoted(s: string)
    ensures Unquoted(Quoted(s)) == Ok(s)
  {
    QuotedEscapesEach();
    UnquoteEach(Quoted, s);
  }

  /** Escaping a value and reading it back gives the value, for every string. */
  lemma EscapeRoundTrip(s: string)
    ensures Deescaped(Escape(s)) == Ok(s)
  {
    if IsNumberWithUnit(s) || IsSimpleWord(s) {
      PlainStart(s);
    } else {
      var e := Escape(s);
      assert e[1..|e| - 1] == Quoted(s);
      UnquoteQuoted(s);
    }
  }

  lemma PlainStart(s: string)
    requires IsNumberWithUnit(s) || IsSimpleWord(s)
    ensures s != "" && s[0] != '\''
  {
  }

  // Reading lines

  /** White space as Unicode defines it. */
  predicate IsSpace(c: char) {
    || '\t' <= c <= '\r' || c == ' ' || c == '\U{85}' || c == '\U{A0}' || c == '\U{1680}'
    || '\U{2000}' <= c <= '\U{200A}' || c == '\U{2028}' || c == '\U{2029}' || c == '\U{202F}'
    || c == '\U{205F}' || c == '\U{3000}'
  }

  predicate NotSpace(c: char) { !IsSpace(c) }

  /** A class of word characters: what the proofs need to know of `\w`. */
  ghost predicate WordClass(word: char -> bool) {
    forall c: char | word(c) :: !IsSpace(c) && c != '=' && c != '#'
  }

  function NameChar(word: char -> bool): char -> bool {
    (c: char) => word(c) || c == '.'
  }

  predicate IsName(word: char -> bool, s: string) { s != "" && All(s, NameChar(word)) }

  function TrimLeft(s: string): string { s[Span(s, IsSpace)..] }

  function TrimRight(s: string): string {
    if s != "" && IsSpace(s[|s| - 1]) then TrimRight(s[..|s| - 1]) else s
  }

  datatype Setting = NoSetting | Setting(name: string, value: string)

  function ReadValue(name: string, raw: string): Setting {
    if raw == "" || !All(raw, NotSpace) then NoSetting
    else
      match Deescaped(raw)
      case Ok(v) => Setting(name, v)
      case OctalEscape => NoSetting
  }

  function ReadAfterName(name: string, s: string): Setting {
    var rest := TrimLeft(s);
    if rest == "" || rest[0] != '=' then NoSetting else ReadValue(name, TrimLeft(rest[1..]))
  }

  /** `^((?:\w|\.)+)\s*=\s*(\S+)$` on the trimmed line, unless it is a comment. */
  function ReadLine(word: char -> bool, line: string): Setting {
    var t := TrimLeft(TrimRight(line));
    if t != "" && t[0] == '#' then NoSetting
    else
      var n := Span(t, NameChar(word));
      if n == 0 then NoSetting else ReadAfterName(t[..n], t[n..])
  }

  lemma ReadNames(word: char -> bool, line: string)
    ensures ReadLine(word, line).Setting? ==> IsName(word, ReadLine(word, line).name)
  {
  }

  /** The settings of a file: later lines override earlier ones. */
  function Settings(word: char -> bool, lines: seq<string>): map<string, string> {
    if lines == [] then map[]
    else
      var before := Settings(word, lines[..|lines| - 1]);
      match ReadLine(word, lines[|lines| - 1])
      case Setting(name, value) => before[name := value]
      case NoSetting => before
  }

  lemma OneMoreSetting(word: char -> bool, lines: seq<string>, line: string)
    ensures Settings(word, lines + [line])
         == match ReadLine(word, line)
            case Setting(name, value) => Settings(word, lines)[name := value]
            case NoSetting => Settings(word, lines)
  {
    assert (lines + [line])[..|lines|] == lines;
  }

  predicate NotNewline(c: char) { c != '\n' }

  /** A line ended by a line feed loses a carriage return before it. */
  function StripCr(line: string): string {
    if line != "" && line[|line| - 1] == '\r' then line[..|line| - 1] else line
  }

  /** The first line of a text and what follows it. */
  function FirstLine(text: string): (r: (string, string))
    requires text != ""
    ensures |r.1| < |text|
  {
    var n := Span(text, NotNewline);
    if n == |text| then (text, "") else (StripCr(text[..n]), text[n + 1..])
  }

  function Lines(text: string): seq<string>
    decreases |text|
  {
    if text == "" then []
    else
      var r := FirstLine(text);
      [r.0] + Lines(r.1)
  }

  function Printed(lines: seq<string>): string {
    if lines == [] then "" else lines[0] + Printed(lines[1..])
  }

  class PostgresConf {
    var lines: seq<string>
    var hash: map<string, string>

    constructor ()
      ensures lines == [] && hash == map[]
    {
      lines, hash := [], map[];
    }

    method Append(option: string, value: string)
      modifies this
      ensures lines == old(lines) + [option + "=" + Escape(value) + "\n"]
      ensures hash == old(hash)[option := value]
    {
      lines := lines + [option + "=" + Escape(value) + "\n"];
      hash := hash[option := value];
    }

    /** Keeps a line that was read, and its setting if it holds one. */
    method ReadOne(word: char -> bool, line: string)
      requires hash == Settings(word, lines)
      modifies this
      ensures lines == old(lines) + [line] && hash == Settings(word, lines)
    {
      OneMoreSetting(word, lines, line);
      match ReadLine(word, line) {
        case Setting(name, value) => hash := hash[name := value];
        case NoSetting =>
      }
      lines := lines + [line];
    }

    method Display() returns (text: string)
      ensures text == Printed(lines)
    {
      text := "";
      for i := 0 to |lines|
        invariant text + Printed(lines[i..]) == Printed(lines)
      {
        assert text + (lines[i] + Printed(lines[i + 1..])) == (text + lines[i]) + Printed(lines[i + 1..]);
        text := text + lines[i];
      }
    }
  }

  lemma OneLineRead(before: seq<string>, rest: string)
    requires rest != ""
    ensures before + Lines(rest) == before + [FirstLine(rest).0] + Lines(FirstLine(rest).1)
  {
  }

  method Read(word: char -> bool, text: string) returns (conf: PostgresConf)
    ensures fresh(conf) && conf.lines == Lines(text) && conf.hash == Settings(word, Lines(text))
  {
    conf := new PostgresConf();
    var rest := text;
    while rest != ""
      invariant fresh(conf) && Lines(text) == conf.lines + Lines(rest)
      invariant conf.hash == Settings(word, conf.lines)
      decreases |rest|
    {
      ghost var before := conf.lines;
      var next := FirstLine(rest);
      conf.ReadOne(word, next.0);
      OneLineRead(before, rest);
      rest := next.1;
    }
  }

  // Reading back what was printed

  /** No white space except line feeds. */
  predicate Clean(value: string) { forall i | 0 <= i < |value| :: IsSpace(value[i]) ==> value[i] == '\n' }

  lemma EscSpaces(c: char)
    ensures All(Esc(c), NotSpace) <==> (IsSpace(c) ==> c == '\n')
    ensures All(Esc(c), NotNewline)
  {
    assert Esc(c)[0] == if c == '\n' then '\\' else c;
  }

  lemma {:induction false} QuotedSpaces(s: string)
    ensures All(Quoted(s), NotSpace) <==> Clean(s)
    ensures All(Quoted(s), NotNewline)
  {
    if s != "" {
      QuotedStep(s);
      EscSpaces(s[0]);
      QuotedSpaces(s[1..]);
      AllAppend(Esc(s[0]), Quoted(s[1..]), NotSpace);
      AllAppend(Esc(s[0]), Quoted(s[1..]), NotNewline);
      assert s == [s[0]] + s[1..];
      assert Clean(s) <==> Clean([s[0]]) && Clean(s[1..]);
    }
  }

  predicate IsPlain(c: char) { IsAlnum(c) || c == '-' || c == '+' }

  lemma NumberIsPlain(s: string)
    requires IsNumberWithUnit(s)
    ensures s != "" && All(s, IsPlain)
  {
    var signed := s[0] == '-' || s[0] == '+';
    var t := if signed then s[1..] else s;
    var n := Span(t, IsDigit);
    forall i | 0 <= i < |t|
      ensures IsPlain(t[i])
    {
      assert i < n ==> t[..n][i] == t[i];
      assert i >= n ==> t[n..][i - n] == t[i];
    }
    assert signed ==> forall i | 1 <= i < |s| :: s[i] == t[i - 1];
  }

  lemma EscapedSpaces(s: string)
    ensures All(Escape(s), NotSpace) <==> Clean(s)
    ensures All(Escape(s), NotNewline)
    ensures var e := Escape(s); e != "" && !IsSpace(e[0]) && !IsSpace(e[|e| - 1])
  {
    if IsNumberWithUnit(s) {
      NumberIsPlain(s);
    } else if !IsSimpleWord(s) {
      QuotedSpaces(s);
      AllAppend("'" + Quoted(s), "'", NotSpace);
      AllAppend("'", Quoted(s), NotSpace);
      AllAppend("'" + Quoted(s), "'", NotNewline);
      AllAppend("'", Quoted(s), NotNewline);
    }
  }

  lemma TrimLeftNothing(s: string)
    requires s == "" || !IsSpace(s[0])
    ensures TrimLeft(s) == s
  {
  }

  lemma ValueReads(name: string, e: string, value: string)
    requires e != "" && !IsSpace(e[0]) && Deescaped(e) == Ok(value)
    ensures ReadAfterName(name, "=" + e) == if All(e, NotSpace) then Setting(name, value) else NoSetting
  {
    TrimLeftNothing("=" + e);
    assert ("=" + e)[1..] == e;
    TrimLeftNothing(e);
  }

  lemma NameReads(word: char -> bool, name: string, rest: string)
    requires WordClass(word) && IsName(word, name)
    requires rest != "" && rest[0] == '=' && !IsSpace(rest[|rest| - 1])
    ensures ReadLine(word, name + rest) == ReadAfterName(name, rest)
  {
    var line := name + rest;
    assert NameChar(word)(name[0]) && line[0] == name[0];
    assert line[|line| - 1] == rest[|rest| - 1];
    TrimLeftNothing(line);
    assert !word('=');
    SpanAppend(name, rest, NameChar(word));
  }

  /** A printed setting reads back as itself exactly when its value is clean. */
  lemma SettingRoundTrip(word: char -> bool, name: string, value: string)
    requires WordClass(word) && IsName(word, name)
    ensures ReadLine(word, name + "=" + Escape(value)) == if Clean(value) then Setting(name, value) else NoSetting
  {
    var e := Escape(value);
    EscapedSpaces(value);
    EscapeRoundTrip(value);
    assert name + "=" + e == name + ("=" + e);
    NameReads(word, name, "=" + e);
    ValueReads(name, e, value);
  }

  /** A sequence of calls of `append`, as names and values. */
  type Appends = seq<(string, string)>

  ghost function LineOf(a: (string, string)): string { a.0 + "=" + Escape(a.1) }

  ghost function LinesOf(ops: Appends): seq<string> { Each(LineOf, ops) }

  ghost function Ended(lines: seq<string>): seq<string> { seq(|lines|, i requires 0 <= i < |lines| => lines[i] + "\n") }

  ghost function LastWrites(ops: Appends): map<string, string> {
    if ops == [] then map[] else LastWrites(ops[..|ops| - 1])[ops[|ops| - 1].0 := ops[|ops| - 1].1]
  }

  ghost predicate LineOk(line: string) { line != "" && All(line, NotNewline) && line[|line| - 1] != '\r' }

  lemma {:induction false} LinesOfPrinted(lines: seq<string>)
    requires forall i | 0 <= i < |lines| :: LineOk(lines[i])
    ensures Lines(Printed(Ended(lines))) == lines
  {
    if lines != [] {
      var l, more := lines[0], lines[1..];
      var tail := Printed(Ended(more));
      assert Ended(lines)[1..] == Ended(more);
      var text := l + "\n" + tail;
      assert text == l + ("\n" + tail);
      SpanAppend(l, "\n" + tail, NotNewline);
      assert text[|l| + 1..] == tail;
      LinesOfPrinted(more);
      assert lines == [l] + more;
    }
  }

  lemma LineOfIsOk(word: char -> bool, a: (string, string))
    requires WordClass(word) && IsName(word, a.0)
    ensures LineOk(LineOf(a))
  {
    EscapedSpaces(a.1);
    forall i | 0 <= i < |a.0|
      ensures a.0[i] != '\n'
    {
      assert NameChar(word)(a.0[i]);
    }
    AllAppend(a.0 + "=", Escape(a.1), NotNewline);
    AllAppend(a.0, "=", NotNewline);
  }

  ghost predicate NamesOk(word: char -> bool, ops: Appends) { forall i | 0 <= i < |ops| :: IsName(word, ops[i].0) }

  /** What was read is, for every name, the last value if that is clean, and otherwise some clean one or nothing. */
  ghost predicate ReadsClean(read: map<string, string>, written: map<string, string>) {
    && (forall k | k in read :: Clean(read[k]) && k in written)
    && (forall k | k in written :: Clean(written[k]) ==> k in read && read[k] == written[k])
  }

  lemma CleanStep(read: map<string, string>, written: map<string, string>, name: string, value: string)
    requires ReadsClean(read, written)
    ensures ReadsClean(if Clean(value) then read[name := value] else read, written[name := value])
  {
  }

  lemma {:induction false} ReadsCleanValues(word: char -> bool, ops: Appends)
    requires WordClass(word) && NamesOk(word, ops)
    ensures ReadsClean(Settings(word, LinesOf(ops)), LastWrites(ops))
  {
    if ops != [] {
      var front, last := ops[..|ops| - 1], ops[|ops| - 1];
      ReadsCleanValues(word, front);
      EachNext(LineOf, ops, |front|);
      assert ops[..|front| + 1] == ops;
      OneMoreSetting(word, LinesOf(front), LineOf(last));
      SettingRoundTrip(word, last.0, last.1);
      CleanStep(Settings(word, LinesOf(front)), LastWrites(front), last.0, last.1);
    }
  }

  lemma PrintedLines(word: char -> bool, ops: Appends)
    requires WordClass(word) && NamesOk(word, ops)
    ensures Lines(Printed(Ended(LinesOf(ops)))) == LinesOf(ops)
  {
    forall i | 0 <= i < |ops|
      ensures LineOk(LinesOf(ops)[i])
    {
      LineOfIsOk(word, ops[i]);
    }
    LinesOfPrinted(LinesOf(ops));
  }

  /** Only names can be read. */
  lemma {:induction false} SettingNames(word: char -> bool, lines: seq<string>)
    ensures forall k <- Settings(word, lines) :: IsName(word, k)
  {
    if lines != [] {
      SettingNames(word, lines[..|lines| - 1]);
      ReadNames(word, lines[|lines| - 1]);
    }
  }

  lemma {:induction false} AppendedNames(ops: Appends, i: nat)
    requires i < |ops|
    ensures ops[i].0 in LastWrites(ops)
  {
    if i < |ops| - 1 {
      AppendedNames(ops[..|ops| - 1], i);
    }
  }

  /** Printing and reading gives the same options exactly when names are names and last values are clean. */
  lemma PrintReadExactly(word: char -> bool, ops: Appends)
    requires WordClass(word)
    ensures Settings(word, Lines(Printed(Ended(LinesOf(ops))))) == LastWrites(ops) <==>
      NamesOk(word, ops) && forall k | k in LastWrites(ops) :: Clean(LastWrites(ops)[k])
  {
    var read, written := Settings(word, Lines(Printed(Ended(LinesOf(ops))))), LastWrites(ops);
    if read == written {
      SettingNames(word, Lines(Printed(Ended(LinesOf(ops)))));
      forall i | 0 <= i < |ops|
        ensures IsName(word, ops[i].0)
      {
        AppendedNames(ops, i);
      }
    }
    if NamesOk(word, ops) {
      PrintedLines(word, ops);
      ReadsCleanValues(word, ops);
    }
  }

  lemma OneMoreLine(lines: seq<string>, line: string)
    ensures Ended(lines + [line]) == Ended(lines) + [line + "\n"]
  {
  }

  lemma OneMoreWrite(ops: Appends, i: nat)
    requires i < |ops|
    ensures LastWrites(ops[..i + 1]) == LastWrites(ops[..i])[ops[i].0 := ops[i].1]
  {
    assert ops[..i + 1][..i] == ops[..i];
  }

  lemma OneMoreAppend(ops: Appends, i: nat)
    requires i < |ops|
    ensures Ended(LinesOf(ops[..i + 1])) == Ended(LinesOf(ops[..i])) + [LineOf(ops[i]) + "\n"]
    ensures LastWrites(ops[..i + 1]) == LastWrites(ops[..i])[ops[i].0 := ops[i].1]
  {
    OneMoreWrite(ops, i);
    OneMoreLine(LinesOf(ops[..i]), LineOf(ops[i]));
    EachNext(LineOf, ops, i);
  }

  method AppendAll(ops: Appends) returns (conf: PostgresConf)
    ensures fresh(conf) && conf.lines == Ended(LinesOf(ops)) && conf.hash == LastWrites(ops)
  {
    conf := new PostgresConf();
    for i := 0 to |ops|
      invariant fresh(conf)
      invariant conf.lines == Ended(LinesOf(ops[..i])) && conf.hash == LastWrites(ops[..i])
    {
      OneMoreAppend(ops, i);
      conf.Append(ops[i].0, ops[i].1);
    }
    assert ops[..|ops|] == ops;
  }

  /** Appends settings to a new configuration, prints it and reads it back. */
  method PrintAndRead(word: char -> bool, ops: Appends) returns (printed: PostgresConf, read: PostgresConf)
    requires WordClass(word)
    ensures printed.hash == LastWrites(ops)
    ensures read.hash == printed.hash <==> NamesOk(word, ops) && forall k | k in printed.hash :: Clean(printed.hash[k])
  {
    printed := AppendAll(ops);
    var text := printed.Display();
    read := Read(word, text);
    PrintReadExactly(word, ops);
  }
}
