/** The page cache as one object: its mappings, its slots and the clock hand, used by one task at a time. */
module PageCacheObject {
  import opened Basics
  import opened PageCacheTypes
  import opened PageCacheMapping
  import opened PageCacheClock

  /** `locked` says that some guard holds the slot, so that `try_write` fails. */
  datatype Slot = Slot(key: Option<CacheKey>, usage: nat, locked: bool)

  // What the clock loop does to the slots

  /** What is left of a usage count after `visits` decrements. */
  function Left(usage: nat, visits: nat): nat { if visits < usage then usage - visits else 0 }

  /** After `ticks` ticks every usage count has been decremented once per visit. */
  ghost predicate Swept(before: seq<Slot>, after: seq<Slot>, hand: nat, ticks: nat) {
    && |before| == |after|
    && forall u | 0 <= u < |before| ::
         after[u] == before[u].(usage := Left(before[u].usage, Visits(hand, |before|, u, ticks)))
  }

  /** No unlocked slot has been visited more often than its usage count. */
  ghost predicate Spared(before: seq<Slot>, hand: nat, ticks: nat) {
    forall u | 0 <= u < |before| && !before[u].locked :: Visits(hand, |before|, u, ticks) <= before[u].usage
  }

  ghost predicate SlotBounds(slots: seq<Slot>, hand: nat) {
    && 0 < |slots| * PAGE_SZ < TWO64 / 2
    && hand < TWO64
    && forall i | 0 <= i < |slots| :: slots[i].usage <= MAX_USAGE_COUNT
  }

  /**
   * The outcome of a search: the victim is the first unlocked slot to be visited more often than its usage count,
   * and there is none only if all slots are locked.
   */
  ghost predicate Scanned(before: seq<Slot>, after: seq<Slot>, hand: nat, victim: Option<nat>, iters: nat) {
    && iters > 0
    && Swept(before, after, hand, iters)
    && Spared(before, hand, iters - 1)
    && (victim.Some? ==>
          && victim.value < |before| && !before[victim.value].locked
          && Visits(hand, |before|, victim.value, iters) > before[victim.value].usage)
    && (victim.None? ==> forall u | 0 <= u < |before| :: before[u].locked)
  }

  lemma VisitsNext(hand: nat, n: nat, u: nat, ticks: nat)
    requires n > 0 && hand < TWO64 && ticks < TWO64
    ensures Visits(hand, n, u, ticks + 1) == Visits(hand, n, u, ticks) + One(HandAfter(hand, ticks) % n == u)
  {
    VisitsSplit(hand, n, u, ticks, 1);
    assert Visits(HandAfter(hand, ticks), n, u, 1) == One(HandAfter(hand, ticks) % n == u);
  }

  function Decremented(slot: Slot): Slot { slot.(usage := if slot.usage == 0 then 0 else slot.usage - 1) }

  /** One tick decrements the usage count of the slot the hand points at. */
  lemma Tick(before: seq<Slot>, now: seq<Slot>, hand: nat, ticks: nat, i: nat)
    requires SlotBounds(before, hand) && ticks < TWO64 && Swept(before, now, hand, ticks)
    requires i == HandAfter(hand, ticks) % |before|
    ensures Swept(before, now[i := Decremented(now[i])], hand, ticks + 1)
    ensures Spared(before, hand, ticks) && (before[i].locked || now[i].usage > 0) ==> Spared(before, hand, ticks + 1)
    ensures now[i].usage == 0 ==> Visits(hand, |before|, i, ticks + 1) > before[i].usage
  {
    forall u | 0 <= u < |before|
      ensures Visits(hand, |before|, u, ticks + 1) == Visits(hand, |before|, u, ticks) + One(i == u)
    {
      VisitsNext(hand, |before|, u, ticks);
    }
  }

  /** After seven turns' worth of ticks every slot has been visited more often than any usage count allows. */
  lemma SevenTurnsUseUp(before: seq<Slot>, hand: nat, u: nat, ticks: nat)
    requires SlotBounds(before, hand) && u < |before| && 7 * |before| <= ticks
    ensures Visits(hand, |before|, u, ticks) > before[u].usage
  {
    SevenTurnsVisit(hand, |before|, u);
    VisitsGrow(hand, |before|, u, 7 * |before|, ticks);
  }

  lemma LimitMeansAllLocked(before: seq<Slot>, hand: nat, ticks: nat)
    requires SlotBounds(before, hand) && Spared(before, hand, ticks) && 10 * |before| <= ticks
    ensures forall u | 0 <= u < |before| :: before[u].locked
  {
    forall u | 0 <= u < |before|
      ensures before[u].locked
    {
      SevenTurnsUseUp(before, hand, u, ticks);
    }
  }

  lemma UsageMeansNoLimit(before: seq<Slot>, now: seq<Slot>, hand: nat, u: nat, ticks: nat)
    requires SlotBounds(before, hand) && Swept(before, now, hand, ticks) && u < |before| && now[u].usage > 0
    ensures ticks < 7 * |before|
  {
    if ticks >= 7 * |before| {
      SevenTurnsUseUp(before, hand, u, ticks);
    }
  }

  /** A search that finds a victim does so within seven turns, and within six if the hand does not jump. */
  lemma SearchIsBounded(before: seq<Slot>, after: seq<Slot>, hand: nat, victim: Option<nat>, iters: nat)
    requires SlotBounds(before, hand) && Scanned(before, after, hand, victim, iters) && victim.Some?
    ensures iters <= 7 * |before|
    ensures SixFullTurns(hand, |before|) ==> iters <= 6 * |before|
  {
    var n, u := |before|, victim.value;
    if iters > 7 * n {
      SevenTurnsUseUp(before, hand, u, iters - 1);
    } else if iters > 6 * n && SixFullTurns(hand, n) {
      SixTurnsVisit(hand, n, u);
      VisitsGrow(hand, n, u, 6 * n, iters - 1);
    }
  }

  /** One unlocked slot, as much in use as can be. */
  function OnlyUnlocked(n: nat, u: nat): seq<Slot> {
    seq(n, i => if i == u then Slot(None, MAX_USAGE_COUNT, false) else Slot(None, 0, true))
  }

  lemma OnlyUnlockedIsFound(hand: nat, n: nat, u: nat, after: seq<Slot>, victim: Option<nat>, iters: nat)
    requires 0 < n && u < n && hand < TWO64 && 6 * n < TWO64 && Visits(hand, n, u, 6 * n) == 5
    requires Scanned(OnlyUnlocked(n, u), after, hand, victim, iters)
    ensures iters > 6 * n
  {
    assert !OnlyUnlocked(n, u)[u].locked;
    assert victim == Some(u);
    if iters <= 6 * n {
      VisitsGrow(hand, n, u, iters, 6 * n);
    }
  }

  /** If the hand does jump within six turns, then there are slots for which every search takes longer than that. */
  lemma JumpDelaysSearch(hand: nat, n: nat) returns (before: seq<Slot>)
    requires 0 < n * PAGE_SZ < TWO64 / 2 && hand < TWO64 && !SixFullTurns(hand, n)
    ensures |before| == n && SlotBounds(before, hand) && exists slot <- before :: !slot.locked
    ensures forall after, victim, iters: nat | Scanned(before, after, hand, victim, iters) :: iters > 6 * n
  {
    var u := SixTurnsMiss(hand, n);
    before := OnlyUnlocked(n, u);
    assert before[u] in before;
    forall after, victim, iters: nat | Scanned(before, after, hand, victim, iters)
      ensures iters > 6 * n
    {
      OnlyUnlockedIsFound(hand, n, u, after, victim, iters);
    }
  }

  /** Versions of one page share a version list; file blocks stand for themselves. */
  predicate SamePlace(a: CacheKey, b: CacheKey) {
    if a.MaterializedPage? then b.MaterializedPage? && a.page == b.page else a == b
  }

  /** The page of every unlocked slot is mapped to that slot. */
  ghost predicate KeysMapped(slots: seq<Slot>, mapping: map<CacheKey, nat>) {
    forall i | 0 <= i < |slots| && !slots[i].locked && slots[i].key.Some? :: Has(mapping, slots[i].key.value, i)
  }

  lemma SweptKeeps(before: seq<Slot>, after: seq<Slot>, hand: nat, ticks: nat, mapping: map<CacheKey, nat>)
    requires SlotBounds(before, hand) && Swept(before, after, hand, ticks) && KeysMapped(before, mapping)
    ensures SlotBounds(after, hand) && KeysMapped(after, mapping)
  {
  }

  /** Evicting the page of slot `i` leaves the other slots' pages mapped. */
  lemma EvictKeeps(slots: seq<Slot>, mapping: map<CacheKey, nat>, i: nat)
    requires KeysMapped(slots, mapping) && i < |slots| && !slots[i].locked && slots[i].key.Some?
    ensures KeysMapped(slots[i := slots[i].(key := None)], mapping - {slots[i].key.value})
  {
    assert Has(mapping, slots[i].key.value, i);
  }

  class PageCache {
    var materializedPageMap: VersionMap
    var immutablePageMap: BlockMap
    var materializedBytes: int
    var immutableBytes: int
    const slots: array<Slot>
    var nextEvictSlot: nat
    ghost var mapping: map<CacheKey, nat>

    ghost predicate MappingValid()
      reads this
    {
      && WellFormed(materializedPageMap)
      && Represents(materializedPageMap, immutablePageMap, mapping)
      && materializedBytes == PageBytes(|Mats(mapping)|)
      && immutableBytes == PageBytes(|Files(mapping)|)
    }

    ghost predicate SlotsValid()
      reads this, slots
    {
      SlotBounds(slots[..], nextEvictSlot) && KeysMapped(slots[..], mapping)
    }

    constructor (numPages: nat)
      requires 0 < numPages * PAGE_SZ < TWO64 / 2
      ensures MappingValid() && SlotsValid() && fresh(slots)
      ensures mapping == map[] && slots.Length == numPages
    {
      materializedPageMap, immutablePageMap, mapping := map[], map[], map[];
      materializedBytes, immutableBytes := 0, 0;
      slots := new Slot[numPages](_ => Slot(None, 0, false));
      nextEvictSlot := 0;
    }

    /** The newest cached version that is not newer than asked for; the key is rewritten to that version. */
    method SearchMapping(key: CacheKey) returns (slot: Option<nat>, found: CacheKey)
      requires MappingValid()
      ensures slot.None? ==> NoMatch(mapping, key) && found == key
      ensures slot.Some? ==> BestMatch(mapping, key, found) && mapping[found] == slot.value
    {
      found := key;
      match key
      case MaterializedPage(page, lsn) =>
        if page !in materializedPageMap {
          NoVersionMatches(key);
          return None, key;
        }
        var versions := materializedPageMap[page];
        var hit, idx := BinarySearch(versions, lsn);
        if !hit && idx == 0 {
          NoVersionMatches(key);
          return None, key;
        }
        if !hit {
          idx := idx - 1;
        }
        found := MaterializedPage(page, versions[idx].lsn);
        assert Has(mapping, found, versions[idx].slot);
        forall other <- mapping | Satisfies(other, key)
          ensures other.lsn <= found.lsn
        {
          assert Stored(materializedPageMap, immutablePageMap, other, mapping[other]);
        }
        slot := Some(versions[idx].slot);
      case ImmutableFilePage(fileId, blkno) =>
        if (fileId, blkno) in immutablePageMap {
          assert Has(mapping, key, immutablePageMap[(fileId, blkno)]);
          slot := Some(immutablePageMap[(fileId, blkno)]);
        } else {
          assert key in mapping ==> Stored(materializedPageMap, immutablePageMap, key, mapping[key]);
          slot := None;
        }
    }

    lemma NoVersionMatches(key: CacheKey)
      requires MappingValid() && key.MaterializedPage?
      requires key.page in materializedPageMap ==> forall v <- materializedPageMap[key.page] :: key.lsn < v.lsn
      ensures NoMatch(mapping, key)
    {
      forall k <- mapping
        ensures !Satisfies(k, key)
      {
        assert Stored(materializedPageMap, immutablePageMap, k, mapping[k]);
      }
    }

    method SearchMappingExact(key: CacheKey) returns (slot: Option<nat>)
      requires MappingValid()
      ensures slot == if key in mapping then Some(mapping[key]) else None
    {
      assert key in mapping ==> Stored(materializedPageMap, immutablePageMap, key, mapping[key]);
      match key
      case MaterializedPage(page, lsn) =>
        if page !in materializedPageMap {
          return None;
        }
        var versions := materializedPageMap[page];
        var hit, idx := BinarySearch(versions, lsn);
        if hit {
          assert Has(mapping, key, versions[idx].slot);
          slot := Some(versions[idx].slot);
        } else {
          slot := None;
        }
      case ImmutableFilePage(fileId, blkno) =>
        if (fileId, blkno) in immutablePageMap {
          assert Has(mapping, key, immutablePageMap[(fileId, blkno)]);
          slot := Some(immutablePageMap[(fileId, blkno)]);
        } else {
          slot := None;
        }
    }

    /** A page has a version list exactly when some version of it is cached. */
    lemma EntryMeansCached(key: CacheKey)
      requires MappingValid()
      ensures (if key.MaterializedPage? then key.page in materializedPageMap
               else (key.fileId, key.blkno) in immutablePageMap)
         <==> exists k <- mapping :: SamePlace(k, key)
    {
      if k :| k in mapping && SamePlace(k, key) {
        assert Stored(materializedPageMap, immutablePageMap, k, mapping[k]);
      }
      if key.MaterializedPage? {
        if key.page in materializedPageMap {
          var v := materializedPageMap[key.page][0];
          assert Has(mapping, MaterializedPage(key.page, v.lsn), v.slot);
          assert SamePlace(MaterializedPage(key.page, v.lsn), key);
        }
      } else if (key.fileId, key.blkno) in immutablePageMap {
        assert Has(mapping, key, immutablePageMap[(key.fileId, key.blkno)]);
        assert SamePlace(key, key);
      }
    }

    /** `ok` is false where the source panics: the page, or the file block, has no entry at all. */
    method RemoveMapping(key: CacheKey) returns (ok: bool)
      requires MappingValid()
      modifies this`materializedPageMap, this`immutablePageMap, this`materializedBytes, this`immutableBytes,
               this`mapping
      ensures MappingValid()
      ensures mapping == old(mapping) - {key}
      ensures ok <==> exists k <- old(mapping) :: SamePlace(k, key)
    {
      EntryMeansCached(key);
      match key
      case MaterializedPage(page, lsn) => ok := RemovePageVersion(page, lsn);
      case ImmutableFilePage(fileId, blkno) => ok := RemoveFileBlock(fileId, blkno);
    }

    method RemovePageVersion(page: PageId, lsn: nat) returns (ok: bool)
      requires MappingValid()
      modifies this`materializedPageMap, this`materializedBytes, this`mapping
      ensures MappingValid()
      ensures mapping == old(mapping) - {MaterializedPage(page, lsn)}
      ensures ok <==> page in old(materializedPageMap)
    {
      ghost var key := MaterializedPage(page, lsn);
      assert key in mapping ==> Stored(materializedPageMap, immutablePageMap, key, mapping[key]);
      CountRemove(mapping, key);
      if page !in materializedPageMap {
        assert mapping == mapping - {key};
        return false;
      }
      var versions := materializedPageMap[page];
      var hit, idx := BinarySearch(versions, lsn);
      if hit {
        assert Has(mapping, key, versions[idx].slot);
        RemoveVersion(materializedPageMap, immutablePageMap, mapping, page, idx);
        materializedPageMap := RemoveAt(materializedPageMap, page, idx);
        materializedBytes := materializedBytes - PAGE_SZ;
      } else {
        assert mapping == mapping - {key};
      }
      mapping := mapping - {key};
      ok := true;
    }

    method RemoveFileBlock(fileId: nat, blkno: nat) returns (ok: bool)
      requires MappingValid()
      modifies this`immutablePageMap, this`immutableBytes, this`mapping
      ensures MappingValid()
      ensures mapping == old(mapping) - {ImmutableFilePage(fileId, blkno)}
      ensures ok <==> (fileId, blkno) in old(immutablePageMap)
    {
      ghost var key := ImmutableFilePage(fileId, blkno);
      assert key in mapping ==> Stored(materializedPageMap, immutablePageMap, key, mapping[key]);
      CountRemove(mapping, key);
      ok := (fileId, blkno) in immutablePageMap;
      if ok {
        assert Has(mapping, key, immutablePageMap[(fileId, blkno)]);
        RemoveBlock(materializedPageMap, immutablePageMap, mapping, fileId, blkno);
        immutablePageMap := immutablePageMap - {(fileId, blkno)};
        immutableBytes := immutableBytes - PAGE_SZ;
      } else {
        assert mapping == mapping - {key};
      }
      mapping := mapping - {key};
    }

    /** Inserts the mapping, unless there is one already, which then stays as it is. */
    method TryInsertMapping(key: CacheKey, slot: nat) returns (existing: Option<nat>)
      requires MappingValid()
      modifies this`materializedPageMap, this`immutablePageMap, this`materializedBytes, this`immutableBytes,
               this`mapping
      ensures MappingValid()
      ensures existing == if old(key in mapping) then Some(old(mapping[key])) else None
      ensures mapping == if old(key in mapping) then old(mapping) else old(mapping)[key := slot]
    {
      match key
      case MaterializedPage(page, lsn) => existing := InsertPageVersion(page, lsn, slot);
      case ImmutableFilePage(fileId, blkno) => existing := InsertFileBlock(fileId, blkno, slot);
    }

    method InsertPageVersion(page: PageId, lsn: nat, slot: nat) returns (existing: Option<nat>)
      requires MappingValid()
      modifies this`materializedPageMap, this`materializedBytes, this`mapping
      ensures MappingValid()
      ensures var key := MaterializedPage(page, lsn);
              && existing == (if key in old(mapping) then Some(old(mapping)[key]) else None)
              && mapping == if key in old(mapping) then old(mapping) else old(mapping)[key := slot]
    {
      ghost var key := MaterializedPage(page, lsn);
      var versions := if page in materializedPageMap then materializedPageMap[page] else [];
      var hit, idx := BinarySearch(versions, lsn);
      if hit {
        assert Has(mapping, key, versions[idx].slot);
        return Some(versions[idx].slot);
      }
      InsertVersion(materializedPageMap, immutablePageMap, mapping, page, idx, Version(lsn, slot));
      CountInsert(mapping, key, slot);
      materializedPageMap := InsertAt(materializedPageMap, page, idx, Version(lsn, slot));
      materializedBytes := materializedBytes + PAGE_SZ;
      mapping := mapping[key := slot];
      existing := None;
    }

    method InsertFileBlock(fileId: nat, blkno: nat, slot: nat) returns (existing: Option<nat>)
      requires MappingValid()
      modifies this`immutablePageMap, this`immutableBytes, this`mapping
      ensures MappingValid()
      ensures var key := ImmutableFilePage(fileId, blkno);
              && existing == (if key in old(mapping) then Some(old(mapping)[key]) else None)
              && mapping == if key in old(mapping) then old(mapping) else old(mapping)[key := slot]
    {
      ghost var key := ImmutableFilePage(fileId, blkno);
      if (fileId, blkno) in immutablePageMap {
        assert Has(mapping, key, immutablePageMap[(fileId, blkno)]);
        return Some(immutablePageMap[(fileId, blkno)]);
      }
      assert key in mapping ==> Stored(materializedPageMap, immutablePageMap, key, mapping[key]);
      InsertBlock(materializedPageMap, immutablePageMap, mapping, fileId, blkno, slot);
      CountInsert(mapping, key, slot);
      immutablePageMap := immutablePageMap[(fileId, blkno) := slot];
      immutableBytes := immutableBytes + PAGE_SZ;
      mapping := mapping[key := slot];
      existing := None;
    }

    /**
     * `try_lock_for_read`.  Between the search and the moment the slot lock is obtained other tasks may change
     * the slot; `slotKey` is what each slot carries at that moment.
     */
    method TryLockForRead(key: CacheKey, slotKey: nat -> Option<CacheKey>) returns (slot: Option<nat>, found: CacheKey)
      requires MappingValid()
      ensures slot.Some? ==>
          BestMatch(mapping, key, found) && mapping[found] == slot.value && slotKey(slot.value) == Some(found)
      ensures slot.None? ==> found == key
      ensures slot.None? ==> NoMatch(mapping, key)
                             || exists best <- mapping ::
                                  BestMatch(mapping, key, best) && slotKey(mapping[best]) != Some(best)
    {
      slot, found := SearchMapping(key);
      if slot.Some? && slotKey(slot.value) != Some(found) {
        slot, found := None, key;
      }
    }

    /** Advance the hand and decrement the usage count of the slot it pointed at; returns the count before that. */
    method TickClock() returns (i: nat, usage: nat)
      requires SlotBounds(slots[..], nextEvictSlot)
      modifies this`nextEvictSlot, slots
      ensures i == old(nextEvictSlot) % slots.Length && i < slots.Length
      ensures nextEvictSlot == Advance(old(nextEvictSlot))
      ensures usage == old(slots[i].usage)
      ensures slots[..] == old(slots[..])[i := Decremented(old(slots[i]))]
    {
      i := nextEvictSlot % slots.Length;
      nextEvictSlot := Advance(nextEvictSlot);
      usage := slots[i].usage;
      if usage != 0 {
        slots[i] := slots[i].(usage := usage - 1);
      }
    }

    /** The clock loop of `find_victim`: choose the slot, without evicting its page yet. */
    method Scan() returns (victim: Option<nat>, iters: nat)
      requires SlotBounds(slots[..], nextEvictSlot)
      modifies this`nextEvictSlot, slots
      ensures iters < TWO64 && nextEvictSlot == HandAfter(old(nextEvictSlot), iters) < TWO64
      ensures Scanned(old(slots[..]), slots[..], old(nextEvictSlot), victim, iters)
    {
      ghost var hand0, before := nextEvictSlot, slots[..];
      var iterLimit := slots.Length * 10;
      iters := 0;
      while true
        invariant iters <= iterLimit && nextEvictSlot == HandAfter(hand0, iters)
        invariant Swept(before, slots[..], hand0, iters)
        invariant Spared(before, hand0, iters)
        decreases iterLimit - iters
      {
        ghost var now := slots[..];
        var i, usage := TickClock();
        Tick(before, now, hand0, iters, i);
        iters := iters + 1;
        assert slots[i].locked == before[i].locked;
        if usage == 0 {
          if slots[i].locked {
            if iters > iterLimit {
              LimitMeansAllLocked(before, hand0, iters - 1);
              return None, iters;
            }
          } else {
            return Some(i), iters;
          }
        } else {
          UsageMeansNoLimit(before, now, hand0, i, iters - 1);
        }
      }
    }

    /** Removes the mapping of the page in slot `i` and frees the slot. */
    method EvictSlot(i: nat)
      requires MappingValid() && SlotsValid() && i < slots.Length && !slots[i].locked
      modifies this`materializedPageMap, this`immutablePageMap, this`materializedBytes, this`immutableBytes,
               this`mapping, slots
      ensures MappingValid() && SlotsValid()
      ensures mapping == (match old(slots[i].key) case None => old(mapping) case Some(k) => old(mapping) - {k})
      ensures slots[..] == old(slots[..])[i := old(slots[i]).(key := None)]
    {
      if slots[i].key.None? {
        assert slots[i].(key := None) == slots[i];
        return;
      }
      EvictKeeps(slots[..], mapping, i);
      ghost var before := slots[..];
      var key := slots[i].key.value;
      assert Has(mapping, key, i) && SamePlace(key, key);
      var ok := RemoveMapping(key);
      assert ok;
      slots[i] := slots[i].(key := None);
      assert slots[..] == before[i := before[i].(key := None)];
    }

    /** `find_victim`, with nobody else moving.  `None` is the "exceeded evict iter limit" error. */
    method FindVictim() returns (victim: Option<nat>, iters: nat)
      requires MappingValid() && SlotsValid()
      modifies this, slots
      ensures MappingValid() && SlotsValid()
      ensures iters < TWO64 && nextEvictSlot == HandAfter(old(nextEvictSlot), iters)
      ensures victim.None? <==> forall i | 0 <= i < slots.Length :: old(slots[i].locked)
      ensures victim.None? ==> mapping == old(mapping)
      ensures victim.Some? ==>
                && victim.value < slots.Length && !old(slots[victim.value].locked)
                && slots[victim.value].key == None
                && mapping == (match old(slots[victim.value].key)
                               case None => old(mapping)
                               case Some(k) => old(mapping) - {k})
      ensures forall i | 0 <= i < slots.Length && Some(i) != victim :: slots[i].key == old(slots[i].key)
      ensures victim.Some? ==> iters <= 7 * slots.Length
      ensures victim.Some? && SixFullTurns(old(nextEvictSlot), slots.Length) ==> iters <= 6 * slots.Length
    {
      ghost var hand0, before := nextEvictSlot, slots[..];
      victim, iters := Scan();
      SweptKeeps(before, slots[..], hand0, iters, mapping);
      if victim.Some? {
        SearchIsBounded(before, slots[..], hand0, victim, iters);
        EvictSlot(victim.value);
      }
    }
  }
}
