/** The safekeeper quorum fast path: asking all safekeepers for their status and checking that a quorum agrees. */
module Safekeepers {
  import opened Basics

  type Lsn = nat

  datatype Status = Found(flushLsn: Lsn, commitLsn: Lsn) | NotFound

  // The agreement check

  function MaxOf(s: seq<Lsn>): (m: Lsn)
    requires s != []
    ensures m in s && forall x | x in s :: x <= m
  {
    if |s| == 1 then s[0]
    else
      var m := MaxOf(s[1..]);
      assert s == [s[0]] + s[1..];
      if s[0] < m then m else s[0]
  }

  function MinOf(s: seq<Lsn>): (m: Lsn)
    requires s != []
    ensures m in s && forall x | x in s :: m <= x
  {
    if |s| == 1 then s[0]
    else
      var m := MinOf(s[1..]);
      assert s == [s[0]] + s[1..];
      if m < s[0] then m else s[0]
  }

  function FoundOnly(responses: seq<Status>): (r: seq<Status>)
    ensures |r| <= |responses|
    ensures forall x | x in r :: x.Found?
    ensures |r| == |responses| <==> forall i | 0 <= i < |responses| :: responses[i].Found?
    ensures |r| == |responses| ==> r == responses
  {
    if responses == [] then []
    else if responses[0].Found? then [responses[0]] + FoundOnly(responses[1..])
    else FoundOnly(responses[1..])
  }

  /** All responses know the timeline and have flushed and committed up to the same position. */
  ghost predicate AgreeOn(responses: seq<Status>, lsn: Lsn) {
    forall i | 0 <= i < |responses| :: responses[i] == Found(lsn, lsn)
  }

  function Commits(found: seq<Status>): (r: seq<Lsn>)
    requires forall x | x in found :: x.Found?
    ensures |r| == |found| && forall i | 0 <= i < |r| :: r[i] == found[i].commitLsn
  {
    seq<Lsn>(|found|, i requires 0 <= i < |found| => assert found[i] in found; found[i].commitLsn)
  }

  function Flushes(found: seq<Status>): (r: seq<Lsn>)
    requires forall x | x in found :: x.Found?
    ensures |r| == |found| && forall i | 0 <= i < |r| :: r[i] == found[i].flushLsn
  {
    seq<Lsn>(|found|, i requires 0 <= i < |found| => assert found[i] in found; found[i].flushLsn)
  }

  function CheckIfSynced(responses: seq<Status>): Option<Lsn>
    requires responses != []
  {
    var found := FoundOnly(responses);
    if |found| < |responses| then None
    else
      var commit, flush := Commits(found), Flushes(found);
      if MinOf(commit) != MaxOf(commit) then None
      else if MinOf(flush) != MaxOf(flush) then None
      else if MaxOf(commit) != MaxOf(flush) then None
      else Some(MaxOf(commit))
  }

  lemma AllEqual(s: seq<Lsn>, i: nat)
    requires i < |s| && MinOf(s) == MaxOf(s)
    ensures s[i] == MaxOf(s)
  {
    assert s[i] in s;
  }

  lemma SyncedMeansAgreement(responses: seq<Status>, lsn: Lsn)
    requires responses != []
    ensures CheckIfSynced(responses) == Some(lsn) <==> AgreeOn(responses, lsn)
  {
    var found := FoundOnly(responses);
    if CheckIfSynced(responses) == Some(lsn) {
      forall i | 0 <= i < |responses|
        ensures responses[i] == Found(lsn, lsn)
      {
        AllEqual(Commits(found), i);
        AllEqual(Flushes(found), i);
        assert found[i].Found?;
      }
    }
    if AgreeOn(responses, lsn) {
      assert found == responses;
      assert MinOf(Commits(found)) == lsn && MaxOf(Commits(found)) == lsn;
      assert MinOf(Flushes(found)) == lsn && MaxOf(Flushes(found)) == lsn;
    }
  }

  // Majorities

  function Quorum(n: nat): nat { n / 2 + 1 }

  /** The safekeepers that have flushed at least up to `lsn`. */
  ghost function FlushedUpTo(answers: seq<Status>, lsn: Lsn): set<nat> {
    set i <- Indices(|answers|) | answers[i].Found? && answers[i].flushLsn >= lsn
  }

  ghost predicate MajorityFlushed(answers: seq<Status>, lsn: Lsn) {
    |FlushedUpTo(answers, lsn)| >= Quorum(|answers|)
  }

  ghost predicate GreatestMajorityLsn(answers: seq<Status>, lsn: Lsn) {
    MajorityFlushed(answers, lsn) && forall other: Lsn :: MajorityFlushed(answers, other) ==> other <= lsn
  }

  lemma QuorumsMeet(a: set<nat>, b: set<nat>, n: nat)
    requires a <= Indices(n) && b <= Indices(n) && |a| >= Quorum(n) && |b| >= Quorum(n)
    ensures a * b != {}
  {
    SubsetSize(a + b, Indices(n));
    assert |a + b| == |a| + |b| - |a * b|;
  }

  /** The safekeepers heard from so far, each once, and what they said. */
  ghost predicate Heard(answers: seq<Status>, from: set<nat>, responses: seq<Status>) {
    && from <= Indices(|answers|)
    && |from| == |responses|
    && (forall i | i in from :: answers[i] in responses)
    && (forall x | x in responses :: exists i :: i in from && answers[i] == x)
  }

  lemma HearOne(answers: seq<Status>, from: set<nat>, responses: seq<Status>, i: nat)
    requires Heard(answers, from, responses) && i < |answers| && i !in from
    ensures Heard(answers, from + {i}, responses + [answers[i]])
  {
    assert |from + {i}| == |from| + 1;
    forall x | x in responses + [answers[i]]
      ensures exists j :: j in from + {i} && answers[j] == x
    {
      if x != answers[i] {
        var j :| j in from && answers[j] == x;
        assert j in from + {i};
      }
    }
  }

  lemma Verdict(answers: seq<Status>, from: set<nat>, responses: seq<Status>)
    requires Heard(answers, from, responses) && |responses| >= Quorum(|answers|)
    ensures CheckIfSynced(responses).Some? <==> exists lsn: Lsn :: AgreeOn(responses, lsn)
    ensures CheckIfSynced(responses).Some? ==> GreatestMajorityLsn(answers, CheckIfSynced(responses).value)
  {
    forall lsn: Lsn
      ensures CheckIfSynced(responses) == Some(lsn) <==> AgreeOn(responses, lsn)
    {
      SyncedMeansAgreement(responses, lsn);
    }
    if CheckIfSynced(responses).Some? {
      AgreementIsGreatest(answers, from, responses, CheckIfSynced(responses).value);
    }
  }

  lemma AgreementIsGreatest(answers: seq<Status>, from: set<nat>, responses: seq<Status>, lsn: Lsn)
    requires Heard(answers, from, responses) && |responses| >= Quorum(|answers|) && AgreeOn(responses, lsn)
    ensures GreatestMajorityLsn(answers, lsn)
  {
    SubsetSize(from, FlushedUpTo(answers, lsn));
    forall other: Lsn | MajorityFlushed(answers, other)
      ensures other <= lsn
    {
      QuorumsMeet(from, FlushedUpTo(answers, other), |answers|);
      var i :| i in from * FlushedUpTo(answers, other);
      assert answers[i] == Found(lsn, lsn);
    }
  }

  lemma GreatestIsUnique(answers: seq<Status>, a: Lsn, b: Lsn)
    requires GreatestMajorityLsn(answers, a) && GreatestMajorityLsn(answers, b)
    ensures a == b
  {
  }

  // The collection loop

  /** Safekeepers answer in any order; a request may also fail or time out. */
  method CheckSafekeepersSynced(answers: seq<Status>)
    returns (r: Option<Lsn>, heard: set<nat>, responses: seq<Status>, errors: nat)
    ensures Heard(answers, heard, responses)
    ensures |responses| == Quorum(|answers|) || errors == Quorum(|answers|) || |responses| + errors == |answers|
    ensures r.Some? ==> GreatestMajorityLsn(answers, r.value)
    ensures r.Some? <==> |responses| >= Quorum(|answers|) && exists lsn: Lsn :: AgreeOn(responses, lsn)
    ensures |responses| <= Quorum(|answers|) && errors <= Quorum(|answers|)
    ensures |responses| + errors <= |answers|
  {
    var quorum := Quorum(|answers|);
    var tasks := Indices(|answers|);
    heard, responses, errors := {}, [], 0;
    while tasks != {}
      invariant tasks <= Indices(|answers|) && tasks !! heard
      invariant Heard(answers, heard, responses)
      invariant |responses| < quorum && errors < quorum
      invariant |tasks| + |responses| + errors == |answers|
    {
      var i :| i in tasks;
      tasks := tasks - {i};
      var failed: bool := *;
      if failed {
        errors := errors + 1;
      } else {
        HearOne(answers, heard, responses, i);
        responses := responses + [answers[i]];
        heard := heard + {i};
      }
      if |responses| >= quorum || errors >= quorum {
        break;
      }
    }
    if |responses| < quorum {
      r := None;
      return;
    }
    r := CheckIfSynced(responses);
    Verdict(answers, heard, responses);
  }

  /** Two checks of the same safekeepers that both succeed return the same position. */
  method CheckTwice(answers: seq<Status>) returns (a: Option<Lsn>, b: Option<Lsn>)
    ensures a.Some? && b.Some? ==> a == b
  {
    var first, _, _, _ := CheckSafekeepersSynced(answers);
    var second, _, _, _ := CheckSafekeepersSynced(answers);
    a, b := first, second;
    if a.Some? && b.Some? {
      GreatestIsUnique(answers, a.value, b.value);
    }
  }
}
