/** Sorted per-pool tick lists: binary search, insert, replace, remove and sort, and the finite map they stand for. */
module TickLists {
  import opened Indexing

  datatype Tick = Tick(index: int, gross: int, net: int)

  ghost predicate Ascending(s: seq<Tick>) {
    forall i, j :: 0 <= i < j < |s| ==> s[i].index < s[j].index
  }

  ghost predicate Positive(s: seq<Tick>) {
    forall i :: 0 <= i < |s| ==> s[i].gross > 0
  }

  /** What a list means: tick index to tick. */
  ghost function ToMap(s: seq<Tick>): (m: map<int, Tick>) {
    if s == [] then map[] else ToMap(s[1..])[s[0].index := s[0]]
  }

  /** sort.Search: the least position whose predicate holds, for a predicate that stays true once true. */
  method Search(n: nat, f: nat --> bool) returns (k: nat)
    requires forall i: nat :: i < n ==> f.requires(i)
    requires forall i: nat, j: nat :: i < j < n && f(i) ==> f(j)
    ensures k <= n
    ensures forall i: nat :: i < k ==> !f(i)
    ensures forall i: nat :: k <= i < n ==> f(i)
  {
    var lo, hi := 0, n;
    while lo < hi
      invariant 0 <= lo <= hi <= n
      invariant forall i: nat :: i < lo ==> !f(i)
      invariant forall i: nat :: hi <= i < n ==> f(i)
    {
      var h := (lo + hi) / 2;
      if !f(h) {
        lo := h + 1;
      } else {
        hi := h;
      }
    }
    k := lo;
  }

  /** How many leading ticks lie below `x`. */
  function Position(s: seq<Tick>, x: int): (k: nat)
    ensures k <= |s|
    ensures forall i :: 0 <= i < k ==> s[i].index < x
    ensures k < |s| ==> s[k].index >= x
  {
    if s == [] || s[0].index >= x then 0 else 1 + Position(s[1..], x)
  }

  /** One fetched tick: zero gross removes, non-zero replaces, positive inserts. */
  function ApplyTick(s: seq<Tick>, u: Tick): seq<Tick> {
    var k := Position(s, u.index);
    if k < |s| && s[k].index == u.index then
      if u.gross == 0 then s[..k] + s[k + 1..] else s[k := u]
    else if u.gross > 0 then s[..k] + [u] + s[k..]
    else s
  }

  function ApplyAll(s: seq<Tick>, us: seq<Tick>): seq<Tick> {
    if us == [] then s else ApplyTick(ApplyAll(s, us[..|us| - 1]), us[|us| - 1])
  }

  /** The same update on the map. */
  ghost function MapApply(m: map<int, Tick>, u: Tick): map<int, Tick> {
    if u.gross == 0 then m - {u.index}
    else if u.gross > 0 || u.index in m then m[u.index := u]
    else m
  }

  ghost function MapApplyAll(m: map<int, Tick>, us: seq<Tick>): map<int, Tick> {
    if us == [] then m else MapApply(MapApplyAll(m, us[..|us| - 1]), us[|us| - 1])
  }

  lemma {:induction false} KeyIsIndex(s: seq<Tick>, x: int)
    requires x in ToMap(s)
    ensures exists i :: 0 <= i < |s| && s[i].index == x
  {
    if s[0].index != x {
      KeyIsIndex(s[1..], x);
      var i :| 0 <= i < |s[1..]| && s[1..][i].index == x;
      assert s[i + 1].index == x;
    }
  }

  lemma {:induction false} ToMapAt(s: seq<Tick>, i: nat)
    requires Ascending(s) && i < |s|
    ensures s[i].index in ToMap(s) && ToMap(s)[s[i].index] == s[i]
  {
    if i > 0 { ToMapAt(s[1..], i - 1); }
  }

  lemma {:induction false} RemoveAt(s: seq<Tick>, k: nat)
    requires Ascending(s) && k < |s|
    ensures ToMap(s[..k] + s[k + 1..]) == ToMap(s) - {s[k].index}
  {
    var r := s[..k] + s[k + 1..];
    if k == 0 {
      assert r == s[1..];
      if s[0].index in ToMap(s[1..]) { KeyIsIndex(s[1..], s[0].index); }
    } else {
      RemoveAt(s[1..], k - 1);
      assert r[1..] == s[1..][..k - 1] + s[1..][k..];
    }
  }

  lemma {:induction false} ReplaceAt(s: seq<Tick>, k: nat, u: Tick)
    requires Ascending(s) && k < |s| && s[k].index == u.index
    ensures ToMap(s[k := u]) == ToMap(s)[u.index := u]
  {
    var r := s[k := u];
    if k == 0 {
      assert r[1..] == s[1..];
    } else {
      ReplaceAt(s[1..], k - 1, u);
      assert r[1..] == s[1..][k - 1 := u];
    }
  }

  lemma {:induction false} InsertAt(s: seq<Tick>, k: nat, u: Tick)
    requires k <= |s| && forall i :: 0 <= i < k ==> s[i].index != u.index
    ensures ToMap(s[..k] + [u] + s[k..]) == ToMap(s)[u.index := u]
  {
    var r := s[..k] + [u] + s[k..];
    if k == 0 {
      assert r[1..] == s;
    } else {
      InsertAt(s[1..], k - 1, u);
      assert r[1..] == s[1..][..k - 1] + [u] + s[1..][k - 1..];
    }
  }

  lemma RemoveSorted(s: seq<Tick>, k: nat)
    requires Ascending(s) && k < |s|
    ensures var r := s[..k] + s[k + 1..]; Ascending(r) && (Positive(s) ==> Positive(r))
  {
    var r := s[..k] + s[k + 1..];
    assert forall i :: 0 <= i < |r| ==> r[i] == s[if i < k then i else i + 1];
  }

  lemma ReplaceSorted(s: seq<Tick>, k: nat, u: Tick)
    requires Ascending(s) && k < |s| && s[k].index == u.index
    ensures var r := s[k := u]; Ascending(r) && (Positive(s) && u.gross > 0 ==> Positive(r))
  {
    var r := s[k := u];
    assert forall i :: 0 <= i < |s| ==> r[i].index == s[i].index;
  }

  lemma InsertSorted(s: seq<Tick>, k: nat, u: Tick)
    requires Ascending(s) && k <= |s|
    requires forall i :: 0 <= i < |s| ==> if i < k then s[i].index < u.index else u.index < s[i].index
    ensures var r := s[..k] + [u] + s[k..]; Ascending(r) && (Positive(s) && u.gross > 0 ==> Positive(r))
  {
    var r := s[..k] + [u] + s[k..];
    assert forall i :: 0 <= i < |r| && i != k ==> r[i] == s[if i < k then i else i - 1];
    assert r[k] == u;
  }

  lemma ApplyTickSorted(s: seq<Tick>, u: Tick)
    requires Ascending(s)
    ensures Ascending(ApplyTick(s, u))
    ensures Positive(s) && u.gross >= 0 ==> Positive(ApplyTick(s, u))
  {
    hide Position, Positive;
    var k := Position(s, u.index);
    if k < |s| && s[k].index == u.index {
      if u.gross == 0 { RemoveSorted(s, k); } else { ReplaceSorted(s, k, u); }
    } else if u.gross > 0 {
      assert forall i :: k < i < |s| ==> s[k].index < s[i].index;
      InsertSorted(s, k, u);
    }
  }

  lemma ApplyTickRefines(s: seq<Tick>, u: Tick)
    requires Ascending(s)
    ensures ToMap(ApplyTick(s, u)) == MapApply(ToMap(s), u)
  {
    var k := Position(s, u.index);
    if k < |s| && s[k].index == u.index {
      ToMapAt(s, k);
      if u.gross == 0 { RemoveAt(s, k); } else { ReplaceAt(s, k, u); }
    } else {
      if u.index in ToMap(s) {
        KeyIsIndex(s, u.index);
        assert false;
      }
      if u.gross > 0 { InsertAt(s, k, u); }
    }
  }

  /** What one update does to each index: its own is removed, set or left alone, and no other changes. */
  lemma ApplyTickExactly(s: seq<Tick>, u: Tick, x: int)
    requires Ascending(s)
    ensures var before, after := ToMap(s), ToMap(ApplyTick(s, u));
            && (x != u.index ==> (x in after <==> x in before) && (x in before ==> after[x] == before[x]))
            && (u.gross == 0 ==> u.index !in after)
            && (u.gross > 0 ==> u.index in after && after[u.index] == u)
            && (u.gross < 0 ==> (u.index in after <==> u.index in before) && (u.index in after ==> after[u.index] == u))
  {
    ApplyTickRefines(s, u);
  }

  /** Any batch, repeats included: the list stays sorted and equals the map with each update applied in order. */
  lemma {:induction false} ApplyAllRefines(s: seq<Tick>, us: seq<Tick>)
    requires Ascending(s)
    ensures Ascending(ApplyAll(s, us))
    ensures ToMap(ApplyAll(s, us)) == MapApplyAll(ToMap(s), us)
    ensures Positive(s) && (forall i :: 0 <= i < |us| ==> us[i].gross >= 0) ==> Positive(ApplyAll(s, us))
  {
    if us != [] {
      var n := |us| - 1;
      ApplyAllRefines(s, us[..n]);
      ApplyTickSorted(ApplyAll(s, us[..n]), us[n]);
      ApplyTickRefines(ApplyAll(s, us[..n]), us[n]);
    }
  }

  lemma {:induction false} ApplyAllConcat(s: seq<Tick>, us: seq<Tick>, vs: seq<Tick>)
    ensures ApplyAll(s, us + vs) == ApplyAll(ApplyAll(s, us), vs)
  {
    if vs == [] {
      assert us + vs == us;
    } else {
      var n := |vs| - 1;
      assert (us + vs)[..|us + vs| - 1] == us + vs[..n];
      ApplyAllConcat(s, us, vs[..n]);
    }
  }

  /** The first position whose index is at least `bound`. */
  method SearchIndex(s: seq<Tick>, bound: int) returns (k: nat)
    requires Ordered(s)
    ensures k == Position(s, bound)
  {
    var f := (k: nat) requires k < |s| => s[k].index >= bound;
    k := Search(|s|, f);
    forall i: nat | i < k ensures s[i].index < bound { assert !f(i); }
    forall i: nat | k <= i < |s| ensures s[i].index >= bound { assert f(i); }
    var p := Position(s, bound);
    assert p < |s| ==> s[p].index >= bound;
    assert k < |s| ==> s[k].index >= bound;
  }

  /** The edit of one list as the indexer does it: search, then splice in place. */
  method UpsertTick(s: seq<Tick>, u: Tick) returns (r: seq<Tick>)
    requires Ascending(s)
    ensures r == ApplyTick(s, u)
  {
    var found := SearchIndex(s, u.index);
    if found < |s| && s[found].index == u.index {
      if u.gross == 0 {
        r := s[..found] + s[found + 1..];
      } else {
        r := s[found := u];
      }
    } else {
      r := s;
      if u.gross > 0 {
        r := s[..found] + [u] + s[found..];
      }
    }
  }

  /** A pool's fetched ticks, applied in order. */
  method UpsertAll(s: seq<Tick>, us: seq<Tick>) returns (r: seq<Tick>)
    requires Ascending(s)
    ensures r == ApplyAll(s, us)
  {
    r := s;
    for j := 0 to |us|
      invariant Ascending(r) && r == ApplyAll(s, us[..j])
    {
      assert us[..j + 1][..j] == us[..j];
      ApplyTickSorted(r, us[j]);
      r := UpsertTick(r, us[j]);
    }
    assert us[..|us|] == us;
  }

  // ----- Sorting by index -----

  ghost predicate DistinctIndexes(s: seq<Tick>) {
    forall i, j :: 0 <= i < j < |s| ==> s[i].index != s[j].index
  }

  ghost predicate Ordered(s: seq<Tick>) {
    forall i, j :: 0 <= i < j < |s| ==> s[i].index <= s[j].index
  }

  /** sort.Slice by index. */
  function SortTicks(s: seq<Tick>): (r: seq<Tick>)
    ensures Ordered(r) && multiset(r) == multiset(s)
  {
    if s == [] then []
    else
      assert s == s[..|s| - 1] + [s[|s| - 1]];
      Insert(SortTicks(s[..|s| - 1]), s[|s| - 1])
  }

  function Insert(s: seq<Tick>, t: Tick): (r: seq<Tick>)
    requires Ordered(s)
    ensures Ordered(r) && multiset(r) == multiset(s) + multiset{t}
  {
    var k := Position(s, t.index);
    SpliceMultiset(s, k, t);
    SpliceOrdered(s, k, t);
    s[..k] + [t] + s[k..]
  }

  lemma SpliceOrdered(s: seq<Tick>, k: nat, t: Tick)
    requires Ordered(s) && k == Position(s, t.index)
    ensures Ordered(s[..k] + [t] + s[k..])
  {
    forall i | k <= i < |s| ensures s[i].index >= t.index {
      assert s[k].index <= s[i].index;
    }
  }

  /** With distinct indexes the sorted order is strict and unique, so any sorting algorithm agrees. */
  lemma SortedIsUnique(s: seq<Tick>, r: seq<Tick>)
    requires DistinctIndexes(s) && Ordered(r) && multiset(r) == multiset(s)
    ensures r == SortTicks(s) && Ascending(r)
  {
    DistinctSurvives(s, r);
    DistinctSurvives(s, SortTicks(s));
    AscendingUnique(r, SortTicks(s));
  }

  lemma DistinctSurvives(s: seq<Tick>, r: seq<Tick>)
    requires DistinctIndexes(s) && multiset(r) == multiset(s)
    ensures DistinctIndexes(r)
  {
    DistinctPermutation(s, r);
    forall i, j | 0 <= i < j < |r| ensures r[i].index != r[j].index {
      assert r[i] in multiset(s) && r[j] in multiset(s);
    }
  }

  lemma LastOut(a: seq<Tick>)
    requires a != []
    ensures multiset(a[..|a| - 1]) == multiset(a) - multiset{a[|a| - 1]}
  {
    assert a == a[..|a| - 1] + [a[|a| - 1]];
  }

  lemma FrontKeeps(a: seq<Tick>)
    requires a != []
    ensures Ordered(a) ==> Ordered(a[..|a| - 1])
    ensures DistinctIndexes(a) ==> DistinctIndexes(a[..|a| - 1])
  {
  }

  lemma LastAgrees(a: seq<Tick>, b: seq<Tick>)
    requires DistinctIndexes(b) && Ordered(a) && Ordered(b) && |a| == |b| > 0 && multiset(a) == multiset(b)
    ensures a[|a| - 1] == b[|a| - 1]
  {
    var n := |a| - 1;
    assert a[n] in multiset(b) && b[n] in multiset(a);
    var k :| 0 <= k < |b| && b[k] == a[n];
    var l :| 0 <= l < |a| && a[l] == b[n];
    assert a[n].index <= b[n].index <= a[n].index;
  }

  lemma {:induction false} AscendingUnique(a: seq<Tick>, b: seq<Tick>)
    requires DistinctIndexes(b) && Ordered(a) && Ordered(b) && multiset(a) == multiset(b)
    ensures a == b
  {
    hide DistinctIndexes, Ordered;
    assert |a| == |multiset(a)| == |b|;
    if a != [] {
      var n := |a| - 1;
      LastAgrees(a, b);
      LastOut(a);
      LastOut(b);
      FrontKeeps(a);
      FrontKeeps(b);
      assert b[..|b| - 1] == b[..n];
      AscendingUnique(a[..n], b[..n]);
    }
  }

  /** Field-by-field comparison of two lists. */
  method SameTicks(a: seq<Tick>, b: seq<Tick>) returns (same: bool)
    ensures same == (a == b)
  {
    if |a| != |b| {
      return false;
    }
    for i := 0 to |a|
      invariant a[..i] == b[..i]
    {
      if a[i].index != b[i].index || a[i].gross != b[i].gross || a[i].net != b[i].net {
        return false;
      }
    }
    assert a == a[..|a|] && b == b[..|b|];
    return true;
  }

  /** Comparing sorted copies compares contents: always safely, and exactly when indexes do not repeat. */
  lemma SortedDecides(a: seq<Tick>, b: seq<Tick>)
    ensures SortTicks(a) == SortTicks(b) ==> multiset(a) == multiset(b)
    ensures DistinctIndexes(a) && multiset(a) == multiset(b) ==> SortTicks(a) == SortTicks(b)
  {
    if DistinctIndexes(a) && multiset(a) == multiset(b) { SortedIsUnique(a, SortTicks(b)); }
  }
}
