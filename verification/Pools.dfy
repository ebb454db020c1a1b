/** The list of pools: one for each network, counted, in the order of their keys. */
module Pools {
  import opened Ledgers
  import opened Allocate

  datatype Pool = Pool(key: string, info: PoolInfo)

  /** `a < b` on Go strings. */
  predicate Before(a: string, b: string) {
    if b == "" then false
    else if a == "" then true
    else if a[0] != b[0] then a[0] < b[0]
    else Before(a[1..], b[1..])
  }

  lemma {:induction false} BeforeTotal(a: string, b: string)
    ensures Before(a, b) || Before(b, a) || a == b
    ensures !(Before(a, b) && Before(b, a)) && !Before(a, a)
  {
    if a == "" {
    } else {
      BeforeTotal(a[1..], a[1..]);
      if b == "" {
      } else {
        BeforeTotal(a[1..], b[1..]);
        assert a == [a[0]] + a[1..] && b == [b[0]] + b[1..];
      }
    }
  }

  lemma {:induction false} BeforeTransitive(a: string, b: string, c: string)
    requires Before(a, b) && Before(b, c)
    ensures Before(a, c)
  {
    if a == "" {
    } else if a[0] == b[0] == c[0] {
      BeforeTransitive(a[1..], b[1..], c[1..]);
    }
  }

  /** The texts first differ at `i`, and `a` has the smaller character there. */
  predicate SmallerAt(a: string, b: string, i: int) {
    0 <= i < |a| && i < |b| && a[..i] == b[..i] && a[i] < b[i]
  }

  lemma SmallerShift(a: string, b: string, i: int)
    requires a != "" && b != "" && a[0] == b[0]
    ensures SmallerAt(a, b, i + 1) <==> SmallerAt(a[1..], b[1..], i)
  {
    if 0 <= i < |a| - 1 && i < |b| - 1 {
      assert a[..i + 1] == [a[0]] + a[1..][..i] && b[..i + 1] == [b[0]] + b[1..][..i];
      assert a[..i + 1][1..] == a[1..][..i] && b[..i + 1][1..] == b[1..][..i];
    }
  }

  /** A key comes before another exactly when it is a proper beginning of it, or has the smaller character
      where they first differ. */
  lemma {:induction false} BeforeExactly(a: string, b: string)
    ensures Before(a, b) <==> a < b || exists i :: SmallerAt(a, b, i)
  {
    if a == "" || b == "" {
      assert forall i :: !SmallerAt(a, b, i);
    } else if a[0] != b[0] {
      assert a[0] < b[0] ==> SmallerAt(a, b, 0);
      assert forall i :: 0 < i < |a| && i < |b| ==> a[..i][0] != b[..i][0];
    } else {
      BeforeExactly(a[1..], b[1..]);
      assert a[1..] < b[1..] <==> a < b;
      forall i ensures SmallerAt(a, b, i + 1) <==> SmallerAt(a[1..], b[1..], i) {
        SmallerShift(a, b, i);
      }
      forall i | SmallerAt(a, b, i) ensures SmallerAt(a[1..], b[1..], i - 1) {
        assert SmallerAt(a, b, (i - 1) + 1);
      }
      if exists i :: SmallerAt(a[1..], b[1..], i) {
        var i :| SmallerAt(a[1..], b[1..], i);
        assert SmallerAt(a, b, i + 1);
      }
    }
  }

  ghost predicate Sorted(pools: seq<Pool>) {
    forall i, j :: 0 <= i < j < |pools| ==> Before(pools[i].key, pools[j].key)
  }

  ghost predicate DistinctKeys(pools: seq<Pool>) {
    forall i, j :: 0 <= i < j < |pools| ==> pools[i].key != pools[j].key
  }

  ghost predicate HasPool(pools: seq<Pool>, key: string) {
    exists i :: 0 <= i < |pools| && pools[i].key == key
  }

  lemma PoolAdded(pools: seq<Pool>, pool: Pool)
    ensures forall key :: HasPool(pools, key) || key == pool.key ==> HasPool(pools + [pool], key)
  {
    var more := pools + [pool];
    forall key | HasPool(pools, key) || key == pool.key ensures HasPool(more, key) {
      if key == pool.key {
        assert more[|pools|].key == key;
      } else {
        var i :| 0 <= i < |pools| && pools[i].key == key;
        assert more[i].key == key;
      }
    }
  }

  /** The pools with one more, in its place. */
  method Insert(sorted: seq<Pool>, pool: Pool) returns (pools: seq<Pool>)
    requires Sorted(sorted) && forall i :: 0 <= i < |sorted| ==> sorted[i].key != pool.key
    ensures Sorted(pools) && forall p :: p in pools <==> p in sorted || p == pool
  {
    var n := 0;
    while n < |sorted| && Before(sorted[n].key, pool.key)
      invariant 0 <= n <= |sorted|
      invariant forall i :: 0 <= i < n ==> Before(sorted[i].key, pool.key)
    {
      n := n + 1;
    }
    forall i | n <= i < |sorted| ensures Before(pool.key, sorted[i].key) {
      BeforeTotal(pool.key, sorted[n].key);
      if n < i {
        BeforeTransitive(pool.key, sorted[n].key, sorted[i].key);
      }
    }
    pools := sorted[..n] + [pool] + sorted[n..];
    assert sorted == sorted[..n] + sorted[n..];
    InsertedSorted(sorted[..n], pool, sorted[n..]);
  }

  lemma InsertedSorted(front: seq<Pool>, pool: Pool, back: seq<Pool>)
    requires Sorted(front + back)
    requires forall i :: 0 <= i < |front| ==> Before(front[i].key, pool.key)
    requires forall i :: 0 <= i < |back| ==> Before(pool.key, back[i].key)
    ensures Sorted(front + [pool] + back)
  {
    var all, n := front + [pool] + back, |front|;
    forall i, j | 0 <= i < j < |all| ensures Before(all[i].key, all[j].key) {
      var a := if i < n then i else i - 1;
      var b := if j < n then j else j - 1;
      if i != n && j != n {
        assert all[i] == (front + back)[a] && all[j] == (front + back)[b];
      }
    }
  }

  /** `sort.Slice` by key, as any sort of distinct keys leaves it. */
  method SortPools(pools: seq<Pool>) returns (sorted: seq<Pool>)
    requires DistinctKeys(pools)
    ensures Sorted(sorted) && forall p :: p in sorted <==> p in pools
  {
    sorted := [];
    for i := 0 to |pools|
      invariant Sorted(sorted) && forall p :: p in sorted <==> p in pools[..i]
    {
      forall j | 0 <= j < |sorted| ensures sorted[j].key != pools[i].key {
        assert sorted[j] in pools[..i];
      }
      sorted := Insert(sorted, pools[i]);
      assert pools[..i + 1] == pools[..i] + [pools[i]];
    }
    assert pools[..|pools|] == pools;
  }

  /** One pool for each network and no other, counted exactly, in ascending order of their keys. */
  method GetPoolInfos(ipList: Ledger) returns (pools: seq<Pool>)
    ensures Sorted(pools)
    ensures forall p :: p in pools ==> p.key in ipList && Counts(p.info, ipList[p.key])
    ensures forall key :: key in ipList ==> HasPool(pools, key)
  {
    var listed: seq<Pool> := [];
    var keys := ipList.Keys;
    while keys != {}
      invariant keys <= ipList.Keys && DistinctKeys(listed)
      invariant forall i :: 0 <= i < |listed| ==>
          listed[i].key in ipList && listed[i].key !in keys && Counts(listed[i].info, ipList[listed[i].key])
      invariant forall key :: key in ipList && key !in keys ==> HasPool(listed, key)
    {
      var key :| key in keys;
      var info := GetPoolInfo(ipList[key]);
      PoolAdded(listed, Pool(key, info));
      listed := listed + [Pool(key, info)];
      keys := keys - {key};
    }
    pools := SortPools(listed);
    forall key | key in ipList ensures HasPool(pools, key) {
      assert HasPool(listed, key);
      var i :| 0 <= i < |listed| && listed[i].key == key;
      assert listed[i] in pools;
    }
  }
}
