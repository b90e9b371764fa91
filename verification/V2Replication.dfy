/** Replication of the Uniswap V2 views: the differ compares reserves only. */
module V2Replication {
  import opened KeyedDiff

  datatype PoolData = PoolData(token0: nat, token1: nat, reserve0: int, reserve1: int, kind: nat, feeBps: nat)
  type PoolView = Keyed<PoolData>

  /** All the differ looks at. */
  predicate SameReserves(x: PoolData, y: PoolData) {
    x.reserve0 == y.reserve0 && x.reserve1 == y.reserve1
  }

  ghost predicate SameStatic(x: PoolData, y: PoolData) {
    x == y.(reserve0 := x.reserve0, reserve1 := x.reserve1)
  }

  ghost predicate IsPoolDiff(a: map<nat, PoolData>, b: map<nat, PoolData>, d: Diff<PoolData>) {
    IsDiff(a, b, Agreeing(a, b, SameReserves), d)
  }

  method Differ(old_: seq<PoolView>, new_: seq<PoolView>) returns (d: Diff<PoolData>)
    ensures IsPoolDiff(ToMap(old_), ToMap(new_), d)
  {
    d := DiffBy(old_, new_, SameReserves);
  }

  /** The diff is minimal: a pool is sent as an update exactly when a reserve moved. */
  lemma DiffExactly(a: map<nat, PoolData>, b: map<nat, PoolData>, d: Diff<PoolData>, id: nat)
    requires IsPoolDiff(a, b, d)
    ensures id in ToMap(d.updates) <==>
            id in a && id in b && (a[id].reserve0 != b[id].reserve0 || a[id].reserve1 != b[id].reserve1)
    ensures id in ToMap(d.additions) <==> id in b && id !in a
    ensures id in d.deletions <==> id in a && id !in b
  {
    DiffListsExactly(a, b, Agreeing(a, b, SameReserves), d, id);
  }

  /** Tokens, type and fee agree wherever the reserves do. */
  ghost predicate StaticKept(a: map<nat, PoolData>, b: map<nat, PoolData>) {
    forall id :: id in a && id in b && SameReserves(a[id], b[id]) ==> SameStatic(a[id], b[id])
  }

  /** The round trip succeeds if and only if the pools whose reserves agree agree in everything else. */
  lemma RoundTripExact(a: map<nat, PoolData>, b: map<nat, PoolData>, d: Diff<PoolData>)
    requires IsPoolDiff(a, b, d)
    ensures Patched(a, d) == b <==> StaticKept(a, b)
  {
    var same := Agreeing(a, b, SameReserves);
    RoundTripExactly(a, b, same, d);
    forall id | id in same ensures a[id] == b[id] <==> SameStatic(a[id], b[id]) {
    }
  }
}
