/** The two mappings of the page cache: LSN-sorted version lists per page, and slots per file block. */
module PageCacheMapping {
  import opened PageCacheTypes

  datatype Version = Version(lsn: nat, slot: nat)

  type VersionMap = map<PageId, seq<Version>>
  type BlockMap = map<(nat, nat), nat>

  ghost predicate Sorted(versions: seq<Version>) {
    forall i, j | 0 <= i < j < |versions| :: versions[i].lsn < versions[j].lsn
  }

  /** No page has an empty version list, and every list is strictly sorted by LSN. */
  ghost predicate WellFormed(m: VersionMap) {
    forall page <- m :: m[page] != [] && Sorted(m[page])
  }

  /** The version lists and the block map together stand for the mapping `all` from cache keys to slots. */
  ghost predicate Represents(versions: VersionMap, blocks: BlockMap, all: map<CacheKey, nat>) {
    && (forall page <- versions, v <- versions[page] :: Has(all, MaterializedPage(page, v.lsn), v.slot))
    && (forall block <- blocks :: Has(all, ImmutableFilePage(block.0, block.1), blocks[block]))
    && (forall k <- all :: Stored(versions, blocks, k, all[k]))
  }

  ghost predicate Has(all: map<CacheKey, nat>, k: CacheKey, slot: nat) { k in all && all[k] == slot }

  ghost predicate Stored(versions: VersionMap, blocks: BlockMap, k: CacheKey, slot: nat) {
    match k
    case MaterializedPage(page, lsn) => page in versions && Version(lsn, slot) in versions[page]
    case ImmutableFilePage(fileId, blkno) => (fileId, blkno) in blocks && blocks[(fileId, blkno)] == slot
  }

  /** `binary_search_by_key`: the index of `lsn`, or where it would have to be inserted. */
  method BinarySearch(versions: seq<Version>, lsn: nat) returns (found: bool, idx: nat)
    requires Sorted(versions)
    ensures found ==> idx < |versions| && versions[idx].lsn == lsn
    ensures !found ==> idx <= |versions| && (forall i | 0 <= i < idx :: versions[i].lsn < lsn)
                       && (forall i | idx <= i < |versions| :: lsn < versions[i].lsn)
  {
    var lo, hi := 0, |versions|;
    while lo < hi
      invariant 0 <= lo <= hi <= |versions|
      invariant forall i | 0 <= i < lo :: versions[i].lsn < lsn
      invariant forall i | hi <= i < |versions| :: lsn < versions[i].lsn
    {
      var mid := (lo + hi) / 2;
      if versions[mid].lsn < lsn {
        lo := mid + 1;
      } else if lsn < versions[mid].lsn {
        hi := mid;
      } else {
        return true, mid;
      }
    }
    return false, lo;
  }

  // Effect of editing one version list on the mappings it stands for

  lemma DropOne(versions: seq<Version>, idx: nat)
    requires Sorted(versions) && idx < |versions|
    ensures var rest := versions[..idx] + versions[idx + 1..];
            Sorted(rest) && forall v :: v in rest <==> v in versions && v.lsn != versions[idx].lsn
  {
    var rest := versions[..idx] + versions[idx + 1..];
    forall v | v in versions && v.lsn != versions[idx].lsn
      ensures v in rest
    {
      var i :| 0 <= i < |versions| && versions[i] == v;
      assert rest[if i < idx then i else i - 1] == v;
    }
  }

  lemma AddOne(versions: seq<Version>, idx: nat, v: Version)
    requires Sorted(versions) && idx <= |versions|
    requires forall i | 0 <= i < idx :: versions[i].lsn < v.lsn
    requires forall i | idx <= i < |versions| :: v.lsn < versions[i].lsn
    ensures var more := versions[..idx] + [v] + versions[idx..];
            Sorted(more) && forall w :: w in more <==> w == v || w in versions
    ensures forall w <- versions :: w.lsn != v.lsn
  {
    var more := versions[..idx] + [v] + versions[idx..];
    assert more[idx] == v;
    forall w | w in versions
      ensures w in more
    {
      var i :| 0 <= i < |versions| && versions[i] == w;
      assert more[if i < idx then i else i + 1] == w;
    }
  }

  /** `remove_mapping` on a version list; a list that becomes empty goes away. */
  function RemoveAt(m: VersionMap, page: PageId, idx: nat): VersionMap
    requires page in m && idx < |m[page]|
  {
    if |m[page]| == 1 then m - {page} else m[page := m[page][..idx] + m[page][idx + 1..]]
  }

  lemma RemoveVersion(m: VersionMap, blocks: BlockMap, all: map<CacheKey, nat>, page: PageId, idx: nat)
    requires WellFormed(m) && Represents(m, blocks, all) && page in m && idx < |m[page]|
    ensures WellFormed(RemoveAt(m, page, idx))
    ensures Represents(RemoveAt(m, page, idx), blocks, all - {MaterializedPage(page, m[page][idx].lsn)})
  {
    var m' := RemoveAt(m, page, idx);
    var gone := MaterializedPage(page, m[page][idx].lsn);
    DropOne(m[page], idx);
    forall p: PageId, v: Version | p in m' && v in m'[p]
      ensures Has(all - {gone}, MaterializedPage(p, v.lsn), v.slot)
    {
      assert Has(all, MaterializedPage(p, v.lsn), v.slot);
    }
    forall k <- all - {gone}
      ensures Stored(m', blocks, k, all[k])
    {
      assert Stored(m, blocks, k, all[k]);
    }
  }

  /** `try_insert_mapping` on a version list. */
  function InsertAt(m: VersionMap, page: PageId, idx: nat, v: Version): VersionMap
    requires page in m ==> idx <= |m[page]|
  {
    if page !in m then m[page := [v]] else m[page := m[page][..idx] + [v] + m[page][idx..]]
  }

  lemma InsertVersion(m: VersionMap, blocks: BlockMap, all: map<CacheKey, nat>, page: PageId, idx: nat, v: Version)
    requires WellFormed(m) && Represents(m, blocks, all)
    requires page in m ==> idx <= |m[page]|
    requires page in m ==> forall i | 0 <= i < idx :: m[page][i].lsn < v.lsn
    requires page in m ==> forall i | idx <= i < |m[page]| :: v.lsn < m[page][i].lsn
    ensures MaterializedPage(page, v.lsn) !in all
    ensures WellFormed(InsertAt(m, page, idx, v))
    ensures Represents(InsertAt(m, page, idx, v), blocks, all[MaterializedPage(page, v.lsn) := v.slot])
  {
    var m', k0 := InsertAt(m, page, idx, v), MaterializedPage(page, v.lsn);
    var all' := all[k0 := v.slot];
    if page in m {
      AddOne(m[page], idx, v);
    }
    assert k0 in all ==> Stored(m, blocks, k0, all[k0]);
    forall p: PageId, w: Version | p in m' && w in m'[p]
      ensures Has(all', MaterializedPage(p, w.lsn), w.slot)
    {
      if p in m && w in m[p] {
        assert Has(all, MaterializedPage(p, w.lsn), w.slot);
      }
    }
    forall k <- all'
      ensures Stored(m', blocks, k, all'[k])
    {
      if k != k0 {
        assert Stored(m, blocks, k, all[k]);
      }
    }
  }

  lemma RemoveBlock(m: VersionMap, blocks: BlockMap, all: map<CacheKey, nat>, fileId: nat, blkno: nat)
    requires Represents(m, blocks, all) && (fileId, blkno) in blocks
    ensures Represents(m, blocks - {(fileId, blkno)}, all - {ImmutableFilePage(fileId, blkno)})
  {
    forall k <- all - {ImmutableFilePage(fileId, blkno)}
      ensures Stored(m, blocks - {(fileId, blkno)}, k, all[k])
    {
      assert Stored(m, blocks, k, all[k]);
    }
  }

  lemma InsertBlock(m: VersionMap, blocks: BlockMap, all: map<CacheKey, nat>, fileId: nat, blkno: nat, slot: nat)
    requires Represents(m, blocks, all) && (fileId, blkno) !in blocks
    ensures Represents(m, blocks[(fileId, blkno) := slot], all[ImmutableFilePage(fileId, blkno) := slot])
  {
    var k0 := ImmutableFilePage(fileId, blkno);
    var all' := all[k0 := slot];
    forall k <- all'
      ensures Stored(m, blocks[(fileId, blkno) := slot], k, all'[k])
    {
      if k != k0 {
        assert Stored(m, blocks, k, all[k]);
      }
    }
  }
}
