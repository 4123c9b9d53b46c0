/** Vocabulary shared by the models of the pageserver page cache. */
module PageCacheTypes {
  import opened Pages

  const PAGE_SZ: nat := BLCKSZ
  const MAX_USAGE_COUNT: nat := 5

  /** The size of `count` pages. */
  function PageBytes(count: nat): nat { if count == 0 then 0 else PageBytes(count - 1) + PAGE_SZ }

  lemma {:induction false} PageBytesIs(count: nat)
    ensures PageBytes(count) == count * PAGE_SZ
  {
    if count > 0 {
      PageBytesIs(count - 1);
      assert (count - 1) * PAGE_SZ + PAGE_SZ == count * PAGE_SZ;
    }
  }

  datatype PageId = PageId(tenantShard: nat, timeline: nat, key: nat)

  datatype CacheKey =
    | MaterializedPage(page: PageId, lsn: nat)
    | ImmutableFilePage(fileId: nat, blkno: nat)

  /** Does the cached page `k` satisfy a search for `wanted`?  A materialized page may be older than asked for. */
  predicate Satisfies(k: CacheKey, wanted: CacheKey) {
    match wanted
    case MaterializedPage(page, lsn) => k.MaterializedPage? && k.page == page && k.lsn <= lsn
    case ImmutableFilePage(_, _) => k == wanted
  }

  /** `k` is the best cached answer to a search for `wanted`: no cached page that satisfies it is newer. */
  predicate BestMatch(mapping: map<CacheKey, nat>, wanted: CacheKey, k: CacheKey) {
    && k in mapping
    && Satisfies(k, wanted)
    && (wanted.MaterializedPage? ==>
          forall other <- mapping | Satisfies(other, wanted) :: other.lsn <= k.lsn)
  }

  predicate NoMatch(mapping: map<CacheKey, nat>, wanted: CacheKey) {
    forall k <- mapping :: !Satisfies(k, wanted)
  }

  // Counting the mappings of each kind

  function Mats(m: map<CacheKey, nat>): set<CacheKey> { OfKind(m.Keys, true) }

  function Files(m: map<CacheKey, nat>): set<CacheKey> { OfKind(m.Keys, false) }

  function OfKind(keys: set<CacheKey>, materialized: bool): set<CacheKey> {
    set k <- keys | k.MaterializedPage? == materialized
  }

  function One(b: bool): nat { if b then 1 else 0 }

  lemma CountOfKind(keys: set<CacheKey>, k: CacheKey, materialized: bool)
    requires k !in keys
    ensures |OfKind(keys + {k}, materialized)|
        == |OfKind(keys, materialized)| + One(k.MaterializedPage? == materialized)
  {
    if k.MaterializedPage? == materialized {
      assert OfKind(keys + {k}, materialized) == OfKind(keys, materialized) + {k};
    } else {
      assert OfKind(keys + {k}, materialized) == OfKind(keys, materialized);
    }
  }

  lemma CountInsert(m: map<CacheKey, nat>, k: CacheKey, i: nat)
    requires k !in m
    ensures |Mats(m[k := i])| == |Mats(m)| + One(k.MaterializedPage?)
    ensures |Files(m[k := i])| == |Files(m)| + One(k.ImmutableFilePage?)
  {
    assert m[k := i].Keys == m.Keys + {k};
    CountOfKind(m.Keys, k, true);
    CountOfKind(m.Keys, k, false);
  }

  lemma CountRemove(m: map<CacheKey, nat>, k: CacheKey)
    ensures |Mats(m - {k})| == |Mats(m)| - One(k in m && k.MaterializedPage?)
    ensures |Files(m - {k})| == |Files(m)| - One(k in m && k.ImmutableFilePage?)
  {
    if k in m {
      CountInsert(m - {k}, k, m[k]);
      assert (m - {k})[k := m[k]] == m;
    } else {
      assert m - {k} == m;
    }
  }
}
