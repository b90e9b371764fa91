/** Replication of Uniswap V3 pool views: change detection over the dynamic fields and, order aside, the tick lists. */
module V3Replication {
  import opened Indexing
  import opened KeyedDiff
  import T = TickLists

  type Tick = T.Tick

  datatype PoolData = PoolData(token0: nat, token1: nat, fee: nat, spacing: nat, tick: int, liquidity: int,
                               sqrtPrice: int, ticks: seq<Tick>)
  type PoolView = Keyed<PoolData>

  /** The dynamic fields agree and both lists hold the same ticks, in any order. */
  ghost predicate SameDynamic(a: PoolData, b: PoolData) {
    && a.tick == b.tick && a.fee == b.fee && a.sqrtPrice == b.sqrtPrice && a.liquidity == b.liquidity
    && multiset(a.ticks) == multiset(b.ticks)
  }

  /** Equal but for the order of ticks. */
  ghost predicate Like(a: PoolData, b: PoolData) {
    a.(ticks := b.ticks) == b && multiset(a.ticks) == multiset(b.ticks)
  }

  /** poolChanged never misses a change; it is exact when tick indexes do not repeat. */
  method PoolChanged(a: PoolData, b: PoolData) returns (changed: bool)
    ensures !changed ==> SameDynamic(a, b)
    ensures T.DistinctIndexes(a.ticks) ==> (changed <==> !SameDynamic(a, b))
  {
    if a.tick != b.tick || a.fee != b.fee {
      return true;
    }
    if a.sqrtPrice != b.sqrtPrice {
      return true;
    }
    if a.liquidity != b.liquidity {
      return true;
    }
    if |a.ticks| != |b.ticks| {
      assert |multiset(a.ticks)| != |multiset(b.ticks)|;
      return true;
    }
    T.SortedDecides(a.ticks, b.ticks);
    var same := T.SameTicks(T.SortTicks(a.ticks), T.SortTicks(b.ticks));
    return !same;
  }

  /** Which shared pools a comparison took as unchanged: only such as really are, and all of them
      among the pools without repeated tick indexes. */
  ghost predicate Detected(a: map<nat, PoolData>, b: map<nat, PoolData>, same: set<nat>) {
    && (forall id :: id in same ==> id in a && id in b && SameDynamic(a[id], b[id]))
    && (forall id :: id in a && id in b && T.DistinctIndexes(a[id].ticks) && SameDynamic(a[id], b[id]) ==> id in same)
  }

  ghost predicate IsPoolDiff(a: map<nat, PoolData>, b: map<nat, PoolData>, d: Diff<PoolData>) {
    exists same :: Detected(a, b, same) && IsDiff(a, b, same, d)
  }

  method Differ(old_: seq<PoolView>, new_: seq<PoolView>) returns (d: Diff<PoolData>)
    ensures IsPoolDiff(ToMap(old_), ToMap(new_), d)
  {
    var oldPools := BuildMap(old_);
    var newPools := BuildMap(new_);
    var additions: seq<PoolView>, updates: seq<PoolView> := [], [];
    var rest := newPools.Keys;
    ghost var seen: set<nat> := {};
    ghost var changed: set<nat> := {};
    ghost var added := newPools - oldPools.Keys;
    while rest != {}
      invariant rest <= newPools.Keys && seen == newPools.Keys - rest
      invariant changed <= seen * oldPools.Keys
      invariant Lists(additions, Only(added, seen))
      invariant Lists(updates, Only(newPools, changed))
      invariant forall id :: id in seen * oldPools.Keys - changed ==> SameDynamic(oldPools[id], newPools[id])
      invariant forall id :: id in changed && T.DistinctIndexes(oldPools[id].ticks) ==>
        !SameDynamic(oldPools[id], newPools[id])
    {
      var id := Draw(rest);
      OnlyGrows(added, seen, id);
      if id !in oldPools {
        ListsAppend(additions, Only(added, seen), Keyed(id, newPools[id]));
        additions := additions + [Keyed(id, newPools[id])];
      } else {
        var differs := PoolChanged(oldPools[id], newPools[id]);
        if differs {
          OnlyGrows(newPools, changed, id);
          ListsAppend(updates, Only(newPools, changed), Keyed(id, newPools[id]));
          updates := updates + [Keyed(id, newPools[id])];
          changed := changed + {id};
        }
      }
      rest, seen := rest - {id}, seen + {id};
    }
    OnlyAll(added, seen);
    ghost var same := oldPools.Keys * newPools.Keys - changed;
    assert Only(newPools, changed) == Only(newPools, oldPools.Keys - same);
    var deletions := Vanished(oldPools, newPools);
    d := Diff(additions, updates, deletions);
    assert Detected(oldPools, newPools, same) && IsDiff(oldPools, newPools, same, d);
  }

  /** The diff is minimal: without repeated tick indexes a pool is sent as an update exactly when fee, tick, price,
      liquidity or the set of ticks moved. */
  lemma DiffExactly(a: map<nat, PoolData>, b: map<nat, PoolData>, d: Diff<PoolData>, id: nat)
    requires IsPoolDiff(a, b, d) && (id in a ==> T.DistinctIndexes(a[id].ticks))
    ensures id in ToMap(d.updates) <==>
            && id in a && id in b
            && !(&& a[id].fee == b[id].fee && a[id].tick == b[id].tick && a[id].sqrtPrice == b[id].sqrtPrice
                 && a[id].liquidity == b[id].liquidity && multiset(a[id].ticks) == multiset(b[id].ticks))
    ensures id in ToMap(d.additions) <==> id in b && id !in a
    ensures id in d.deletions <==> id in a && id !in b
  {
    var same :| Detected(a, b, same) && IsDiff(a, b, same, d);
    DiffListsExactly(a, b, same, d, id);
  }

  ghost predicate MapsLike(a: map<nat, PoolData>, b: map<nat, PoolData>) {
    a.Keys == b.Keys && forall id :: id in a ==> Like(a[id], b[id])
  }

  ghost predicate SameStatic(x: PoolData, y: PoolData) {
    x.token0 == y.token0 && x.token1 == y.token1 && x.spacing == y.spacing
  }

  /** Tokens and spacing agree wherever the dynamic fields do. */
  ghost predicate StaticKept(a: map<nat, PoolData>, b: map<nat, PoolData>) {
    forall id :: id in a && id in b && SameDynamic(a[id], b[id]) ==> SameStatic(a[id], b[id])
  }

  lemma LikeExactly(x: PoolData, y: PoolData)
    ensures Like(x, y) <==> SameDynamic(x, y) && SameStatic(x, y)
  {
  }

  /** Patching a replica of the old view gives the new view, up to tick order, if and only if the pools taken as
      unchanged agree in their static fields too. */
  lemma RoundTripExactly(a: map<nat, PoolData>, b: map<nat, PoolData>, same: set<nat>, d: Diff<PoolData>,
                         replica: map<nat, PoolData>)
    requires Detected(a, b, same) && IsDiff(a, b, same, d) && MapsLike(replica, a)
    ensures MapsLike(Patched(replica, d), b) <==> forall id :: id in same ==> SameStatic(a[id], b[id])
  {
    hide IsDiff, Patched, Like, SameDynamic, SameStatic;
    PatchedDiff(a, b, same, d, replica);
    var r := Patched(replica, d);
    forall id | id in b ensures Like(r[id], b[id]) <==> (id in same ==> SameStatic(a[id], b[id])) {
      if id in same {
        LikeTwice(replica[id], a[id], b[id]);
      } else {
        LikeSelf(b[id]);
      }
    }
  }

  lemma LikeSelf(x: PoolData)
    ensures Like(x, x)
  {
  }

  lemma LikeTwice(r: PoolData, x: PoolData, y: PoolData)
    requires Like(r, x) && SameDynamic(x, y)
    ensures Like(r, y) <==> SameStatic(x, y)
  {
    LikeExactly(r, x);
    LikeExactly(r, y);
  }

  /** Without repeated tick indexes the condition is one on the two views alone. */
  lemma RoundTripExact(a: map<nat, PoolData>, b: map<nat, PoolData>, d: Diff<PoolData>, replica: map<nat, PoolData>)
    requires IsPoolDiff(a, b, d) && MapsLike(replica, a)
    requires forall id :: id in a ==> T.DistinctIndexes(a[id].ticks)
    ensures MapsLike(Patched(replica, d), b) <==> StaticKept(a, b)
  {
    var same :| Detected(a, b, same) && IsDiff(a, b, same, d);
    RoundTripExactly(a, b, same, d, replica);
  }

  /** With tokens and spacing fixed per ID, patching a replica of the old view gives the new view, up to tick order. */
  lemma RoundTrip(a: map<nat, PoolData>, b: map<nat, PoolData>, d: Diff<PoolData>, replica: map<nat, PoolData>)
    requires StaticKept(a, b) && IsPoolDiff(a, b, d) && MapsLike(replica, a)
    ensures MapsLike(Patched(replica, d), b)
  {
    var same :| Detected(a, b, same) && IsDiff(a, b, same, d);
    RoundTripExactly(a, b, same, d, replica);
  }
}
