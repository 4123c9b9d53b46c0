/** Batched deletion lists, and the table of remotely visible positions, of the deletion queue. */
module DeletionQueue {
  import opened Basics

  /** A remote path as its components. */
  type Path = seq<string>

  type TenantId = string
  type TimelineId = string
  type Generation = nat

  datatype TenantDeletionList = TenantDeletionList(timelines: map<TimelineId, seq<Path>>, generation: Generation)

  datatype State = State(tenants: map<TenantId, TenantDeletionList>, size: nat)

  datatype Request = Request(tenant: TenantId, timeline: TimelineId, generation: Generation, objects: seq<Path>)

  const EMPTY := State(map[], 0)

  // Paths

  function TimelinePath(tenant: TenantId, timeline: TimelineId): Path { ["tenants", tenant, "timelines", timeline] }

  predicate Under(tenant: TenantId, timeline: TimelineId, p: Path) {
    |p| >= 4 && p[..4] == TimelinePath(tenant, timeline)
  }

  /** What callers must respect: objects lie below their timeline. */
  predicate WellFormed(r: Request) { forall i | 0 <= i < |r.objects| :: Under(r.tenant, r.timeline, r.objects[i]) }

  /** What is left of a path below its timeline. */
  function Key(p: Path): Path { if |p| >= 4 then p[4..] else [] }

  function Stripped(objects: seq<Path>): (r: seq<Path>)
    ensures |r| == |objects|
  {
    if objects == [] then [] else Stripped(objects[..|objects| - 1]) + [Key(objects[|objects| - 1])]
  }

  lemma SamePath(tenant: TenantId, timeline: TimelineId, p: Path, q: Path)
    requires Under(tenant, timeline, p) && Under(tenant, timeline, q)
    ensures p == q <==> Key(p) == Key(q)
  {
    assert p == p[..4] + p[4..] && q == q[..4] + q[4..];
  }

  // One push, as a function of the list

  predicate Accepts(s: State, r: Request) {
    r.objects == [] || r.tenant !in s.tenants || s.tenants[r.tenant].generation == r.generation
  }

  function KeysOf(timelines: map<TimelineId, seq<Path>>, timeline: TimelineId): seq<Path> {
    if timeline in timelines then timelines[timeline] else []
  }

  function TimelinesOf(s: State, tenant: TenantId): map<TimelineId, seq<Path>> {
    if tenant in s.tenants then s.tenants[tenant].timelines else map[]
  }

  /** The list after a push: a refused one changes nothing. */
  function Pushed(s: State, r: Request): State
    requires WellFormed(r)
  {
    if r.objects == [] || !Accepts(s, r) then s
    else
      var timelines := TimelinesOf(s, r.tenant);
      var keys := KeysOf(timelines, r.timeline) + Stripped(r.objects);
      State(s.tenants[r.tenant := TenantDeletionList(timelines[r.timeline := keys], r.generation)],
            s.size + |r.objects|)
  }

  // How many keys are stored

  ghost function Lengths(timelines: map<TimelineId, seq<Path>>): map<TimelineId, nat> {
    map t <- timelines :: |timelines[t]|
  }

  ghost function Totals(tenants: map<TenantId, TenantDeletionList>): map<TenantId, nat> {
    map t <- tenants :: Sum(Lengths(tenants[t].timelines))
  }

  /** The number of keys in all lists of all tenants. */
  ghost function StoredKeys(tenants: map<TenantId, TenantDeletionList>): nat { Sum(Totals(tenants)) }

  /** Every tenant has a timeline, and every timeline a key. */
  ghost predicate NoneEmpty(timelines: map<TimelineId, seq<Path>>) {
    timelines != map[] && forall t <- timelines :: timelines[t] != []
  }

  ghost predicate Consistent(s: State) {
    s.size == StoredKeys(s.tenants) && forall t <- s.tenants :: NoneEmpty(s.tenants[t].timelines)
  }

  lemma KeysAdded(timelines: map<TimelineId, seq<Path>>, timeline: TimelineId, extra: seq<Path>)
    ensures Sum(Lengths(timelines[timeline := KeysOf(timelines, timeline) + extra]))
        == Sum(Lengths(timelines)) + |extra|
  {
    var keys := KeysOf(timelines, timeline) + extra;
    SumUpdate(Lengths(timelines), timeline, |keys|);
    assert Lengths(timelines[timeline := keys]) == Lengths(timelines)[timeline := |keys|];
  }

  lemma TotalsUpdate(tenants: map<TenantId, TenantDeletionList>, tenant: TenantId, entry: TenantDeletionList)
    ensures Totals(tenants[tenant := entry]) == Totals(tenants)[tenant := Sum(Lengths(entry.timelines))]
  {
  }

  lemma TenantAdded(tenants: map<TenantId, TenantDeletionList>, tenant: TenantId, entry: TenantDeletionList)
    ensures StoredKeys(tenants[tenant := entry])
         == StoredKeys(tenants) + Sum(Lengths(entry.timelines))
            - if tenant in tenants then Sum(Lengths(tenants[tenant].timelines)) else 0
  {
    TotalsUpdate(tenants, tenant, entry);
    SumUpdate(Totals(tenants), tenant, Sum(Lengths(entry.timelines)));
  }

  lemma StaysNonEmpty(timelines: map<TimelineId, seq<Path>>, timeline: TimelineId, keys: seq<Path>)
    requires keys != [] && (timelines != map[] ==> NoneEmpty(timelines))
    ensures NoneEmpty(timelines[timeline := keys])
  {
    assert timeline in timelines[timeline := keys];
  }

  lemma NoKeys(timelines: map<TimelineId, seq<Path>>)
    requires timelines == map[]
    ensures Sum(Lengths(timelines)) == 0
  {
    assert Lengths(timelines) == map[];
  }

  lemma PushConsistent(s: State, r: Request)
    requires WellFormed(r) && Consistent(s)
    ensures Consistent(Pushed(s, r))
  {
    if r.objects != [] && Accepts(s, r) {
      var timelines, extra := TimelinesOf(s, r.tenant), Stripped(r.objects);
      var more := timelines[r.timeline := KeysOf(timelines, r.timeline) + extra];
      KeysAdded(timelines, r.timeline, extra);
      TenantAdded(s.tenants, r.tenant, TenantDeletionList(more, r.generation));
      StaysNonEmpty(timelines, r.timeline, KeysOf(timelines, r.timeline) + extra);
      if r.tenant !in s.tenants {
        NoKeys(timelines);
      }
    }
  }

  lemma ConsistentEmpty(s: State)
    requires Consistent(s)
    ensures s.tenants == map[] <==> s.size == 0
  {
    if s.tenants == map[] {
      assert Totals(s.tenants) == map[];
    } else {
      var t :| t in s.tenants;
      var timelines := s.tenants[t].timelines;
      assert NoneEmpty(timelines);
      var l :| l in timelines;
      SumPick(Totals(s.tenants), t);
      SumPick(Lengths(timelines), l);
    }
  }

  method ExtendKeys(had: seq<Path>, objects: seq<Path>) returns (keys: seq<Path>)
    ensures keys == had + Stripped(objects)
  {
    keys := had;
    for i := 0 to |objects|
      invariant keys == had + Stripped(objects[..i])
    {
      StrippedNext(had, objects, i);
      keys := keys + [Key(objects[i])];
    }
    assert objects[..|objects|] == objects;
  }

  lemma StrippedNext(had: seq<Path>, objects: seq<Path>, i: nat)
    requires i < |objects|
    ensures had + Stripped(objects[..i + 1]) == had + Stripped(objects[..i]) + [Key(objects[i])]
  {
    assert objects[..i + 1][..i] == objects[..i];
  }

  class DeletionList {
    var tenants: map<TenantId, TenantDeletionList>
    var size: nat

    ghost function Contents(): State
      reads this
    {
      State(tenants, size)
    }

    /** `size` is the number of stored keys, and nothing empty is stored. */
    ghost predicate Valid()
      reads this
    {
      Consistent(Contents())
    }

    constructor ()
      ensures Valid() && Contents() == EMPTY
    {
      tenants, size := map[], 0;
    }

    /** Looks at `tenants` only, and yet answers whether any key is stored. */
    method IsEmpty() returns (empty: bool)
      requires Valid()
      ensures empty <==> size == 0
    {
      ConsistentEmpty(Contents());
      empty := tenants == map[];
    }

    /** Looks at `size` only, and yet counts the keys in the nested lists. */
    method Len() returns (n: nat)
      requires Valid()
      ensures n == StoredKeys(tenants)
    {
      n := size;
    }

    /** Takes the objects if they fit this list; otherwise the caller still has them all. */
    method Push(r: Request) returns (accepted: bool, left: seq<Path>)
      requires Valid() && WellFormed(r)
      modifies this
      ensures Valid()
      ensures accepted <==> Accepts(old(Contents()), r)
      ensures left == if accepted then [] else r.objects
      ensures Contents() == Pushed(old(Contents()), r)
    {
      PushConsistent(Contents(), r);
      if r.objects == [] {
        return true, [];
      }
      accepted := PushObjects(r);
      left := if accepted then [] else r.objects;
    }

    method PushObjects(r: Request) returns (accepted: bool)
      requires WellFormed(r) && r.objects != []
      modifies this
      ensures accepted <==> Accepts(old(Contents()), r)
      ensures Contents() == Pushed(old(Contents()), r)
    {
      var entry := if r.tenant in tenants then tenants[r.tenant] else TenantDeletionList(map[], r.generation);
      if entry.generation != r.generation {
        return false;
      }
      var had := if r.timeline in entry.timelines then entry.timelines[r.timeline] else [];
      size := size + |r.objects|;
      var keys := ExtendKeys(had, r.objects);
      tenants := tenants[r.tenant := TenantDeletionList(entry.timelines[r.timeline := keys], r.generation)];
      return true;
    }

    /** All stored paths, the hash maps being visited in any order. */
    method IntoRemotePaths() returns (result: seq<Path>)
      ensures forall p :: multiset(result)[p] == Copies(tenants, p)
    {
      result := [];
      var todo := tenants.Keys;
      while todo != {}
        invariant todo <= tenants.Keys
        invariant forall p :: multiset(result)[p] == if TenantOf(p) in todo then 0 else Copies(tenants, p)
        decreases |todo|
      {
        var tenant :| tenant in todo;
        var paths := TenantPaths(tenant, tenants[tenant].timelines);
        result := result + paths;
        todo := todo - {tenant};
      }
    }
  }

  // What is stored

  /** The component of a path that names its tenant. */
  function TenantOf(p: Path): TenantId { if |p| >= 2 then p[1] else "" }

  function TimelineOf(p: Path): TimelineId { if |p| >= 4 then p[3] else "" }

  /** How often a path is stored for one tenant. */
  ghost function CopiesIn(tenant: TenantId, timelines: map<TimelineId, seq<Path>>, p: Path): nat {
    if TimelineOf(p) in timelines && Under(tenant, TimelineOf(p), p)
    then multiset(timelines[TimelineOf(p)])[Key(p)]
    else 0
  }

  /** How often a path is stored. */
  ghost function Copies(tenants: map<TenantId, TenantDeletionList>, p: Path): nat {
    if TenantOf(p) in tenants then CopiesIn(TenantOf(p), tenants[TenantOf(p)].timelines, p) else 0
  }

  method TenantPaths(tenant: TenantId, timelines: map<TimelineId, seq<Path>>) returns (result: seq<Path>)
    ensures forall p :: multiset(result)[p] == CopiesIn(tenant, timelines, p)
  {
    result := [];
    var todo := timelines.Keys;
    while todo != {}
      invariant todo <= timelines.Keys
      invariant forall p :: multiset(result)[p] == if TimelineOf(p) in todo then 0 else CopiesIn(tenant, timelines, p)
      decreases |todo|
    {
      var timeline :| timeline in todo;
      var paths := TimelinePaths(tenant, timeline, timelines[timeline]);
      result := result + paths;
      todo := todo - {timeline};
    }
  }

  /** Joins stored keys with the path of their timeline. */
  method TimelinePaths(tenant: TenantId, timeline: TimelineId, keys: seq<Path>) returns (result: seq<Path>)
    ensures forall p :: multiset(result)[p] == if Under(tenant, timeline, p) then multiset(keys)[Key(p)] else 0
  {
    result := [];
    for i := 0 to |keys|
      invariant forall p :: multiset(result)[p] == if Under(tenant, timeline, p) then multiset(keys[..i])[Key(p)] else 0
    {
      var path := TimelinePath(tenant, timeline) + keys[i];
      OneJoined(tenant, timeline, keys[i]);
      assert keys[..i + 1] == keys[..i] + [keys[i]];
      result := result + [path];
    }
    assert keys[..|keys|] == keys;
  }

  lemma OneJoined(tenant: TenantId, timeline: TimelineId, key: Path)
    ensures forall p :: p == TimelinePath(tenant, timeline) + key <==> Under(tenant, timeline, p) && Key(p) == key
  {
    forall p
      ensures p == TimelinePath(tenant, timeline) + key <==> Under(tenant, timeline, p) && Key(p) == key
    {
      if Under(tenant, timeline, p) {
        assert p == p[..4] + p[4..];
      }
    }
  }

  // Any sequence of pushes

  ghost predicate AllWellFormed(requests: seq<Request>) { forall i | 0 <= i < |requests| :: WellFormed(requests[i]) }

  ghost function Run(requests: seq<Request>): State
    requires AllWellFormed(requests)
  {
    if requests == [] then EMPTY else Pushed(Run(requests[..|requests| - 1]), requests[|requests| - 1])
  }

  /** The paths of the accepted pushes, in order. */
  ghost function Taken(requests: seq<Request>): seq<Path>
    requires AllWellFormed(requests)
  {
    if requests == [] then []
    else
      var front, last := requests[..|requests| - 1], requests[|requests| - 1];
      Taken(front) + if Accepts(Run(front), last) then last.objects else []
  }

  lemma {:induction false} CopiesPerPath(tenant: TenantId, timeline: TimelineId, objects: seq<Path>, p: Path)
    requires forall i | 0 <= i < |objects| :: Under(tenant, timeline, objects[i])
    ensures multiset(objects)[p] == if Under(tenant, timeline, p) then multiset(Stripped(objects))[Key(p)] else 0
  {
    if objects != [] {
      var front, last := objects[..|objects| - 1], objects[|objects| - 1];
      CopiesPerPath(tenant, timeline, front, p);
      assert objects == front + [last];
      if Under(tenant, timeline, p) {
        SamePath(tenant, timeline, p, last);
      }
    }
  }

  lemma UnderNames(tenant: TenantId, timeline: TimelineId, p: Path)
    requires Under(tenant, timeline, p)
    ensures TenantOf(p) == tenant && TimelineOf(p) == timeline
  {
    assert p[1] == p[..4][1] && p[3] == p[..4][3];
  }

  lemma CopiesAdded(tenant: TenantId, timelines: map<TimelineId, seq<Path>>, timeline: TimelineId, extra: seq<Path>,
                    p: Path)
    ensures CopiesIn(tenant, timelines[timeline := KeysOf(timelines, timeline) + extra], p)
         == CopiesIn(tenant, timelines, p) + if Under(tenant, timeline, p) then multiset(extra)[Key(p)] else 0
  {
    if Under(tenant, timeline, p) {
      UnderNames(tenant, timeline, p);
    }
  }

  lemma PushStores(s: State, r: Request, p: Path)
    requires WellFormed(r) && r.objects != [] && Accepts(s, r)
    ensures Copies(Pushed(s, r).tenants, p) == Copies(s.tenants, p) + multiset(r.objects)[p]
  {
    CopiesPerPath(r.tenant, r.timeline, r.objects, p);
    CopiesAdded(r.tenant, TimelinesOf(s, r.tenant), r.timeline, Stripped(r.objects), p);
    if Under(r.tenant, r.timeline, p) {
      UnderNames(r.tenant, r.timeline, p);
    }
  }

  /** Exactly the accepted paths are stored, each as often as it was pushed, and `size` counts them. */
  lemma {:induction false} StoresWhatWasTaken(requests: seq<Request>)
    requires AllWellFormed(requests)
    ensures Run(requests).size == |Taken(requests)|
    ensures forall p :: Copies(Run(requests).tenants, p) == multiset(Taken(requests))[p]
  {
    if requests != [] {
      var front, last := requests[..|requests| - 1], requests[|requests| - 1];
      StoresWhatWasTaken(front);
      if Accepts(Run(front), last) && last.objects != [] {
        forall p
          ensures Copies(Run(requests).tenants, p) == multiset(Taken(requests))[p]
        {
          PushStores(Run(front), last, p);
        }
      }
    }
  }

  lemma {:induction false} RunConsistent(requests: seq<Request>)
    requires AllWellFormed(requests)
    ensures Consistent(Run(requests))
  {
    if requests != [] {
      var front := requests[..|requests| - 1];
      RunConsistent(front);
      PushConsistent(Run(front), requests[|front|]);
    }
  }

  lemma KeepsGeneration(s: State, r: Request, tenant: TenantId)
    requires WellFormed(r) && tenant in s.tenants
    ensures tenant in Pushed(s, r).tenants && Pushed(s, r).tenants[tenant].generation == s.tenants[tenant].generation
  {
  }

  /** All accepted pushes of a tenant had the generation its entry has. */
  lemma {:induction false} OneGenerationPerTenant(requests: seq<Request>, i: nat)
    requires AllWellFormed(requests)
    requires i < |requests| && requests[i].objects != [] && Accepts(Run(requests[..i]), requests[i])
    ensures requests[i].tenant in Run(requests).tenants
    ensures Run(requests).tenants[requests[i].tenant].generation == requests[i].generation
  {
    var front := requests[..|requests| - 1];
    if i < |front| {
      assert front[..i] == requests[..i];
      OneGenerationPerTenant(front, i);
      KeepsGeneration(Run(front), requests[|front|], requests[i].tenant);
    } else {
      assert front == requests[..i];
    }
  }

  lemma SameCounts(paths: seq<Path>, taken: seq<Path>)
    requires forall p :: multiset(paths)[p] == multiset(taken)[p]
    ensures multiset(paths) == multiset(taken) && |paths| == |taken|
  {
    assert multiset(paths) == multiset(taken);
    assert |paths| == |multiset(paths)|;
  }

  /** Pushes to a new list and takes the paths out again. */
  method PushAll(requests: seq<Request>) returns (accepted: seq<bool>, empty: bool, size: nat, paths: seq<Path>)
    requires AllWellFormed(requests)
    ensures |accepted| == |requests| && forall i | 0 <= i < |requests| :: Answered(requests, i, accepted[i])
    ensures multiset(paths) == multiset(Taken(requests)) && size == |paths| && (empty <==> Taken(requests) == [])
  {
    var list := new DeletionList();
    accepted := PushEach(list, requests);
    RunConsistent(requests);
    StoresWhatWasTaken(requests);
    empty := list.IsEmpty();
    size := list.Len();
    paths := list.IntoRemotePaths();
    SameCounts(paths, Taken(requests));
  }

  ghost predicate Answered(requests: seq<Request>, i: nat, accepted: bool)
    requires AllWellFormed(requests) && i < |requests|
  {
    accepted <==> Accepts(Run(requests[..i]), requests[i])
  }

  method PushEach(list: DeletionList, requests: seq<Request>) returns (accepted: seq<bool>)
    requires AllWellFormed(requests) && list.Contents() == EMPTY
    modifies list
    ensures list.Contents() == Run(requests)
    ensures |accepted| == |requests| && forall i | 0 <= i < |requests| :: Answered(requests, i, accepted[i])
  {
    accepted := [];
    for i := 0 to |requests|
      invariant list.Contents() == Run(requests[..i])
      invariant |accepted| == i && forall j | 0 <= j < i :: Answered(requests, j, accepted[j])
    {
      var ok := PushOne(list, requests, i);
      accepted := accepted + [ok];
    }
    assert requests[..|requests|] == requests;
  }

  method PushOne(list: DeletionList, requests: seq<Request>, i: nat) returns (accepted: bool)
    requires AllWellFormed(requests) && i < |requests| && list.Contents() == Run(requests[..i])
    modifies list
    ensures list.Contents() == Run(requests[..i + 1]) && Answered(requests, i, accepted)
  {
    RunConsistent(requests[..i]);
    assert requests[..i + 1][..i] == requests[..i];
    var ok, _ := list.Push(requests[i]);
    accepted := ok;
  }

  // Remotely visible positions

  /** The position to be published, and the cell (by its address) that will receive it. */
  datatype PendingLsn = PendingLsn(projected: nat, resultSlot: nat)

  datatype LsnUpdate = LsnUpdate(tenant: TenantId, timeline: TimelineId, generation: Generation, pending: PendingLsn)

  datatype TenantLsnState = TenantLsnState(timelines: map<TimelineId, PendingLsn>, generation: Generation)

  class VisibleLsnUpdates {
    var tenants: map<TenantId, TenantLsnState>

    constructor ()
      ensures tenants == map[]
    {
      tenants := map[];
    }

    /** State of an earlier generation is dropped as a whole. */
    method UpdateRemoteConsistentLsn(u: LsnUpdate)
      modifies this
      ensures tenants == Updated(old(tenants), u)
    {
      if u.tenant !in tenants {
        tenants := tenants[u.tenant := TenantLsnState(map[], u.generation)];
      }
      if tenants[u.tenant].generation != u.generation {
        tenants := tenants[u.tenant := TenantLsnState(map[], u.generation)];
      }
      var entry := tenants[u.tenant];
      tenants := tenants[u.tenant := entry.(timelines := entry.timelines[u.timeline := u.pending])];
    }
  }

  function Updated(tenants: map<TenantId, TenantLsnState>, u: LsnUpdate): map<TenantId, TenantLsnState> {
    var current := if u.tenant in tenants && tenants[u.tenant].generation == u.generation
                   then tenants[u.tenant].timelines else map[];
    tenants[u.tenant := TenantLsnState(current[u.timeline := u.pending], u.generation)]
  }

  ghost function Table(updates: seq<LsnUpdate>): map<TenantId, TenantLsnState> {
    if updates == [] then map[] else Updated(Table(updates[..|updates| - 1]), updates[|updates| - 1])
  }

  /** Update `i` is the last one of its timeline, and every later one of its tenant has its generation. */
  ghost predicate StillVisible(updates: seq<LsnUpdate>, i: nat)
    requires i < |updates|
  {
    forall j | i < j < |updates| && updates[j].tenant == updates[i].tenant ::
      updates[j].generation == updates[i].generation && updates[j].timeline != updates[i].timeline
  }

  ghost predicate IsFor(u: LsnUpdate, tenant: TenantId, timeline: TimelineId, pending: PendingLsn) {
    u.tenant == tenant && u.timeline == timeline && u.pending == pending
  }

  ghost predicate Visible(updates: seq<LsnUpdate>, tenant: TenantId, timeline: TimelineId, pending: PendingLsn) {
    exists i: nat :: i < |updates| && StillVisible(updates, i) && IsFor(updates[i], tenant, timeline, pending)
  }

  ghost predicate Shows(tenants: map<TenantId, TenantLsnState>, tenant: TenantId, timeline: TimelineId,
                        pending: PendingLsn) {
    tenant in tenants && timeline in tenants[tenant].timelines && tenants[tenant].timelines[timeline] == pending
  }

  lemma StillVisibleNext(updates: seq<LsnUpdate>, i: nat)
    requires i < |updates| - 1
    ensures var front, last := updates[..|updates| - 1], updates[|updates| - 1];
      StillVisible(updates, i) <==>
        && StillVisible(front, i)
        && (last.tenant == updates[i].tenant ==>
            last.generation == updates[i].generation && last.timeline != updates[i].timeline)
  {
    var front := updates[..|updates| - 1];
    assert forall j | 0 <= j < |front| :: front[j] == updates[j];
  }

  /** A visible update has the generation its tenant's entry has. */
  lemma {:induction false} VisibleGeneration(updates: seq<LsnUpdate>, i: nat)
    requires i < |updates| && StillVisible(updates, i)
    ensures updates[i].tenant in Table(updates) && Table(updates)[updates[i].tenant].generation == updates[i].generation
  {
    var front := updates[..|updates| - 1];
    if i < |front| {
      StillVisibleNext(updates, i);
      VisibleGeneration(front, i);
    }
  }

  lemma {:induction false} ShownIsVisible(updates: seq<LsnUpdate>, tenant: TenantId, timeline: TimelineId,
                                          pending: PendingLsn) returns (i: nat)
    requires Shows(Table(updates), tenant, timeline, pending)
    ensures i < |updates| && StillVisible(updates, i) && IsFor(updates[i], tenant, timeline, pending)
  {
    var front, last := updates[..|updates| - 1], updates[|updates| - 1];
    if last.tenant == tenant && last.timeline == timeline {
      i := |front|;
    } else {
      i := ShownIsVisible(front, tenant, timeline, pending);
      VisibleGeneration(front, i);
      StillVisibleNext(updates, i);
    }
  }

  lemma {:induction false} VisibleIsShown(updates: seq<LsnUpdate>, i: nat)
    requires i < |updates| && StillVisible(updates, i)
    ensures Shows(Table(updates), updates[i].tenant, updates[i].timeline, updates[i].pending)
  {
    var front := updates[..|updates| - 1];
    if i < |front| {
      StillVisibleNext(updates, i);
      VisibleIsShown(front, i);
      VisibleGeneration(front, i);
    }
  }

  /** The table shows exactly the last update of each timeline since its tenant last changed generation. */
  lemma TableShowsLastUpdates(updates: seq<LsnUpdate>, tenant: TenantId, timeline: TimelineId, pending: PendingLsn)
    ensures Shows(Table(updates), tenant, timeline, pending) <==> Visible(updates, tenant, timeline, pending)
  {
    if Shows(Table(updates), tenant, timeline, pending) {
      var i := ShownIsVisible(updates, tenant, timeline, pending);
    }
    if Visible(updates, tenant, timeline, pending) {
      var i: nat :| i < |updates| && StillVisible(updates, i) && IsFor(updates[i], tenant, timeline, pending);
      VisibleIsShown(updates, i);
    }
  }
}
