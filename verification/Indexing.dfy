/** Sequences paired with lookup maps: the struct-of-arrays layout that every registry
    of the system shares, and the renumbering used when entries are dropped. */
module Indexing {

  ghost predicate Distinct<T>(s: seq<T>) {
    forall i, j :: 0 <= i < j < |s| ==> s[i] != s[j]
  }

  /** `index` is the exact inverse of `s`: it holds every element's position and nothing else. */
  ghost predicate Inverse<T>(index: map<T, nat>, s: seq<T>) {
    && (forall x :: x in index ==> index[x] < |s| && s[index[x]] == x)
    && (forall i :: 0 <= i < |s| ==> s[i] in index && index[s[i]] == i)
  }

  /** The first position of `x`. */
  function IndexOf<T(==)>(s: seq<T>, x: T): (k: nat)
    requires x in s
    ensures k < |s| && s[k] == x
  {
    if s[0] == x then 0 else 1 + IndexOf(s[1..], x)
  }

  lemma InverseIsIndexOf<T>(index: map<T, nat>, s: seq<T>, x: T)
    requires Inverse(index, s)
    ensures x in index <==> x in s
    ensures x in s ==> index[x] == IndexOf(s, x)
  {
  }

  lemma InverseAppend<T>(index: map<T, nat>, s: seq<T>, x: T)
    requires Inverse(index, s) && x !in s
    ensures Inverse(index[x := |s|], s + [x])
  {
  }

  /** The members of `keep` below `n`, ascending: what a compaction pass retains. */
  ghost function Kept(n: nat, keep: set<nat>): (r: seq<nat>)
    ensures |r| <= n
    ensures forall k :: 0 <= k < |r| ==> r[k] < n && r[k] in keep
    ensures forall j, k :: 0 <= j < k < |r| ==> r[j] < r[k]
  {
    if n == 0 then [] else Kept(n - 1, keep) + (if n - 1 in keep then [n - 1] else [])
  }

  lemma {:induction false} KeptComplete(n: nat, keep: set<nat>, x: nat)
    requires x < n && x in keep
    ensures x in Kept(n, keep)
  {
    if x < n - 1 { KeptComplete(n - 1, keep, x); }
    var r := Kept(n - 1, keep);
    if x == n - 1 { assert Kept(n, keep)[|r|] == x; }
  }

  ghost function Pick<T>(s: seq<T>, at: seq<nat>): (r: seq<T>)
    requires forall k :: 0 <= k < |at| ==> at[k] < |s|
    ensures |r| == |at|
    ensures forall k :: 0 <= k < |at| ==> r[k] == s[at[k]]
  {
    seq(|at|, k requires 0 <= k < |at| => s[at[k]])
  }

  /** The new position of `x` among the kept ones; a missing map key reads as zero. */
  ghost function Rank(kept: seq<nat>, x: nat): (k: nat)
    ensures x in kept ==> k < |kept| && kept[k] == x
  {
    if x in kept then IndexOf(kept, x) else 0
  }

  /** The kept members of `s`, in order, under their new numbers. */
  ghost function Renumber(kept: seq<nat>, s: seq<nat>): seq<nat> {
    if s == [] then []
    else
      var n := |s| - 1;
      Renumber(kept, s[..n]) + if s[n] in kept then [Rank(kept, s[n])] else []
  }

  lemma {:induction false} RenumberMembers(kept: seq<nat>, s: seq<nat>)
    requires Distinct(kept)
    ensures forall y: nat :: y in Renumber(kept, s) <==> y < |kept| && kept[y] in s
    ensures forall k :: 0 <= k < |Renumber(kept, s)| ==> Renumber(kept, s)[k] < |kept|
    ensures Distinct(s) ==> Distinct(Renumber(kept, s))
  {
    hide Rank;
    if s != [] {
      var n := |s| - 1;
      RenumberMembers(kept, s[..n]);
      var r := Renumber(kept, s[..n]);
      assert s == s[..n] + [s[n]];
      if s[n] in kept {
        var y := Rank(kept, s[n]);
        assert forall z: nat :: z in r + [y] <==> z in r || z == y;
        if Distinct(s) { assert s[n] !in s[..n]; assert y !in r; }
      }
    }
  }

  lemma {:induction false} DistinctCountsOnce<T>(s: seq<T>, x: T)
    requires Distinct(s)
    ensures multiset(s)[x] <= 1
  {
    if s != [] {
      var n := |s| - 1;
      assert s == s[..n] + [s[n]];
      DistinctCountsOnce(s[..n], x);
      assert s[n] !in s[..n];
    }
  }

  /** Reordering keeps elements distinct. */
  lemma DistinctPermutation<T>(s: seq<T>, r: seq<T>)
    requires Distinct(s) && multiset(r) == multiset(s)
    ensures Distinct(r)
  {
    forall i, j | 0 <= i < j < |r| ensures r[i] != r[j] {
      assert r == r[..i] + [r[i]] + r[i + 1..j] + [r[j]] + r[j + 1..];
      assert r[i] == r[j] ==> multiset(r)[r[i]] >= 2;
      DistinctCountsOnce(s, r[i]);
    }
  }

  /** One step of ranging over a Go map: some element not yet visited. */
  method Draw<T(==)>(s: set<T>) returns (x: T)
    requires s != {}
    ensures x in s
  {
    x :| x in s;
  }

  ghost function Elements<T>(s: seq<T>): set<T> {
    set x | x in s
  }

  lemma SpliceMultiset<T>(s: seq<T>, k: nat, x: T)
    requires k <= |s|
    ensures multiset(s[..k] + [x] + s[k..]) == multiset(s) + multiset{x}
  {
    assert s == s[..k] + s[k..];
  }

  /** Swap-and-pop: the last element moves into slot `k`. */
  function Pop<T>(s: seq<T>, k: nat): (r: seq<T>)
    requires k < |s|
    ensures |r| == |s| - 1
    ensures forall i :: 0 <= i < |r| ==> r[i] == if i == k then s[|s| - 1] else s[i]
  {
    s[k := s[|s| - 1]][..|s| - 1]
  }

  lemma InversePop<T>(index: map<T, nat>, s: seq<T>, k: nat)
    requires Inverse(index, s) && k < |s|
    ensures Inverse(index[s[|s| - 1] := k] - {s[k]}, Pop(s, k))
  {
  }

  /** A surviving key finds, in every popped column, the value it had. */
  lemma PopLookup<T, V>(index: map<T, nat>, s: seq<T>, k: nat, x: T, column: seq<V>)
    requires Inverse(index, s) && k < |s| == |column| && x in index[s[|s| - 1] := k] - {s[k]}
    ensures var popped := index[s[|s| - 1] := k] - {s[k]};
            x in index && x != s[k] && popped[x] < |s| - 1 && Pop(column, k)[popped[x]] == column[index[x]]
  {
    assert s[index[x]] == x;
  }
}
