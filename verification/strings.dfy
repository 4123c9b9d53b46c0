/** Scanning strings by character class, and splitting paths. */
module Strings {

  predicate IsDigit(c: char) { '0' <= c <= '9' }

  predicate IsLower(c: char) { 'a' <= c <= 'z' }

  predicate IsLetter(c: char) { IsLower(c) || 'A' <= c <= 'Z' }

  predicate All(s: string, p: char -> bool) { forall i | 0 <= i < |s| :: p(s[i]) }

  /** The length of the longest prefix whose characters all satisfy `p`. */
  function Span(s: string, p: char -> bool): (n: nat)
    ensures n <= |s| && All(s[..n], p) && (n < |s| ==> !p(s[n]))
  {
    if s != "" && p(s[0]) then
      var n := 1 + Span(s[1..], p);
      assert s[..n] == [s[0]] + s[1..][..n - 1];
      n
    else 0
  }

  lemma {:induction false} SpanAppend(a: string, b: string, p: char -> bool)
    requires All(a, p) && (b == "" || !p(b[0]))
    ensures Span(a + b, p) == |a|
    ensures (a + b)[..|a|] == a && (a + b)[|a|..] == b
  {
    if a == "" {
      assert a + b == b;
    } else {
      assert (a + b)[1..] == a[1..] + b;
      SpanAppend(a[1..], b, p);
    }
  }

  lemma AllAppend(a: string, b: string, p: char -> bool)
    ensures All(a + b, p) <==> All(a, p) && All(b, p)
  {
    if All(a + b, p) {
      assert forall i | 0 <= i < |a| :: a[i] == (a + b)[i];
      assert forall i | 0 <= i < |b| :: b[i] == (a + b)[|a| + i];
    }
  }

  predicate NotSlash(c: char) { c != '/' }

  /** The components of a path; repeated slashes count as one. */
  function Components(path: string): seq<string>
    decreases |path|
  {
    if path == "" then []
    else
      var n := Span(path, NotSlash);
      var rest := if n == |path| then "" else path[n + 1..];
      (if n == 0 then [] else [path[..n]]) + Components(rest)
  }

  lemma FirstComponent(first: string, rest: string)
    requires first != "" && All(first, NotSlash)
    ensures Components(first + "/" + rest) == [first] + Components(rest)
  {
    var path := first + "/" + rest;
    assert path == first + ("/" + rest);
    SpanAppend(first, "/" + rest, NotSlash);
    assert path[|first| + 1..] == rest;
  }

  lemma OnlyComponent(name: string)
    requires name != "" && All(name, NotSlash)
    ensures Components(name) == [name]
  {
    assert name + "" == name;
    SpanAppend(name, "", NotSlash);
  }
}
