/** Views keyed by a permanent ID, the additions/updates/deletions diff between two of them, and how it is applied.
    Go ranges over maps in no fixed order, so a diff is characterised by what its lists hold. */
module KeyedDiff {
  import opened Indexing

  datatype Keyed<V> = Keyed(id: nat, data: V)

  datatype Diff<V> = Diff(additions: seq<Keyed<V>>, updates: seq<Keyed<V>>, deletions: seq<nat>)

  /** A view as an ID-keyed map; a repeated ID keeps its last entry. */
  ghost function ToMap<V>(s: seq<Keyed<V>>): map<nat, V> {
    if s == [] then map[] else ToMap(s[..|s| - 1])[s[|s| - 1].id := s[|s| - 1].data]
  }

  ghost predicate DistinctIds<V>(s: seq<Keyed<V>>) {
    forall i, j :: 0 <= i < j < |s| ==> s[i].id != s[j].id
  }

  method BuildMap<V>(s: seq<Keyed<V>>) returns (m: map<nat, V>)
    ensures m == ToMap(s)
  {
    m := map[];
    for i := 0 to |s|
      invariant m == ToMap(s[..i])
    {
      assert s[..i + 1][..i] == s[..i];
      m := m[s[i].id := s[i].data];
    }
    assert s[..|s|] == s;
  }

  /** The list holds exactly the entries of `m`, each once. */
  ghost predicate Lists<V>(s: seq<Keyed<V>>, m: map<nat, V>) {
    DistinctIds(s) && ToMap(s) == m
  }

  lemma {:induction false} ToMapKeys<V>(s: seq<Keyed<V>>, id: nat)
    ensures id in ToMap(s) <==> exists i :: 0 <= i < |s| && s[i].id == id
  {
    if s != [] {
      var n := |s| - 1;
      ToMapKeys(s[..n], id);
      if id in ToMap(s) && s[n].id != id {
        var i :| 0 <= i < n && s[..n][i].id == id;
        assert s[i].id == id;
      }
    }
  }

  lemma ListsAppend<V>(s: seq<Keyed<V>>, m: map<nat, V>, x: Keyed<V>)
    requires Lists(s, m) && x.id !in m
    ensures Lists(s + [x], m[x.id := x.data])
  {
    ToMapKeys(s, x.id);
    assert (s + [x])[..|s|] == s;
  }

  method FlattenMap<V>(m: map<nat, V>) returns (s: seq<Keyed<V>>)
    ensures Lists(s, m)
  {
    s := [];
    var rest := m.Keys;
    ghost var seen: map<nat, V> := map[];
    while rest != {}
      invariant rest <= m.Keys && seen == m - rest
      invariant Lists(s, seen)
    {
      var id := Draw(rest);
      ListsAppend(s, seen, Keyed(id, m[id]));
      s := s + [Keyed(id, m[id])];
      rest, seen := rest - {id}, seen[id := m[id]];
    }
  }

  /** IDs of the old view that the new one lacks. */
  method Vanished<V, W>(oldMap: map<nat, V>, newMap: map<nat, W>) returns (deletions: seq<nat>)
    ensures Elements(deletions) == oldMap.Keys - newMap.Keys && Distinct(deletions)
  {
    deletions := [];
    var rest := oldMap.Keys;
    while rest != {}
      invariant rest <= oldMap.Keys
      invariant Elements(deletions) == oldMap.Keys - newMap.Keys - rest && Distinct(deletions)
    {
      var id := Draw(rest);
      if id !in newMap {
        assert id !in Elements(deletions);
        ElementsAppend(deletions, id);
        deletions := deletions + [id];
      }
      rest := rest - {id};
    }
  }

  lemma ElementsAppend<T>(s: seq<T>, x: T)
    ensures Elements(s + [x]) == Elements(s) + {x}
    ensures Distinct(s) && x !in Elements(s) ==> Distinct(s + [x])
  {
    assert (s + [x])[|s|] == x;
  }

  ghost function Only<V>(m: map<nat, V>, ids: set<nat>): map<nat, V> {
    map id | id in m && id in ids :: m[id]
  }

  /** `d` is a diff from `a` to `b` that leaves the IDs in `same` alone: additions are the new IDs,
      updates the shared IDs not in `same`, deletions the vanished IDs. */
  ghost predicate IsDiff<V>(a: map<nat, V>, b: map<nat, V>, same: set<nat>, d: Diff<V>) {
    && Lists(d.additions, b - a.Keys)
    && Lists(d.updates, Only(b, a.Keys - same))
    && Elements(d.deletions) == a.Keys - b.Keys
  }

  /** Deletions, then updates, then additions. */
  ghost function Patched<V>(prev: map<nat, V>, d: Diff<V>): map<nat, V> {
    prev - Elements(d.deletions) + ToMap(d.updates) + ToMap(d.additions)
  }

  method Delete<V>(m: map<nat, V>, ids: seq<nat>) returns (r: map<nat, V>)
    ensures r == m - Elements(ids)
  {
    r := m;
    for i := 0 to |ids|
      invariant r == m - Elements(ids[..i])
    {
      assert ids[..i + 1] == ids[..i] + [ids[i]];
      ElementsAppend(ids[..i], ids[i]);
      r := r - {ids[i]};
    }
    assert ids[..|ids|] == ids;
  }

  method Overwrite<V>(m: map<nat, V>, s: seq<Keyed<V>>) returns (r: map<nat, V>)
    ensures r == m + ToMap(s)
  {
    r := m;
    for i := 0 to |s|
      invariant r == m + ToMap(s[..i])
    {
      assert s[..i + 1][..i] == s[..i];
      r := r[s[i].id := s[i].data];
    }
    assert s[..|s|] == s;
  }

  /** Applying a diff of (a, b) to anything with the IDs of `a` gives `b`, except that the IDs in `same` keep their
      old data. */
  lemma PatchedDiff<V>(a: map<nat, V>, b: map<nat, V>, same: set<nat>, d: Diff<V>, prev: map<nat, V>)
    requires IsDiff(a, b, same, d) && prev.Keys == a.Keys
    ensures var r := Patched(prev, d);
            && r.Keys == b.Keys
            && forall id :: id in b ==> r[id] == if id in a && id in same then prev[id] else b[id]
  {
  }

  /** For any diff: an addition wins over an update, an update over a deletion, and the rest stays. */
  lemma PatchPrecedence<V>(prev: map<nat, V>, d: Diff<V>, id: nat)
    ensures var r := Patched(prev, d);
            && (id in ToMap(d.additions) ==> id in r && r[id] == ToMap(d.additions)[id])
            && (id !in ToMap(d.additions) && id in ToMap(d.updates) ==> id in r && r[id] == ToMap(d.updates)[id])
            && (id !in ToMap(d.additions) && id !in ToMap(d.updates) ==>
                  (id in r <==> id in prev && id !in d.deletions) && (id in r ==> r[id] == prev[id]))
  {
    assert id in d.deletions <==> id in Elements(d.deletions);
  }

  /** Exactly when the round trip succeeds: the IDs left alone hold equal data in both maps. */
  lemma RoundTripExactly<V>(a: map<nat, V>, b: map<nat, V>, same: set<nat>, d: Diff<V>)
    requires IsDiff(a, b, same, d)
    ensures Patched(a, d) == b <==> forall id :: id in same && id in a && id in b ==> a[id] == b[id]
  {
    PatchedDiff(a, b, same, d, a);
    var r := Patched(a, d);
    if forall id :: id in same && id in a && id in b ==> a[id] == b[id] {
      assert forall id :: id in b ==> r[id] == b[id];
    }
  }

  /** A diff lists each ID at most once, exactly where it belongs, and with its new data. */
  lemma DiffListsExactly<V>(a: map<nat, V>, b: map<nat, V>, same: set<nat>, d: Diff<V>, id: nat)
    requires IsDiff(a, b, same, d)
    ensures DistinctIds(d.additions) && DistinctIds(d.updates)
    ensures id in ToMap(d.additions) <==> id in b && id !in a
    ensures id in ToMap(d.updates) <==> id in b && id in a && id !in same
    ensures id in d.deletions <==> id in a && id !in b
    ensures id in ToMap(d.additions) ==> ToMap(d.additions)[id] == b[id]
    ensures id in ToMap(d.updates) ==> ToMap(d.updates)[id] == b[id]
  {
    assert id in d.deletions <==> id in Elements(d.deletions);
  }

  /** The shared IDs that a comparison of entries takes as unchanged. */
  ghost function Agreeing<V>(a: map<nat, V>, b: map<nat, V>, same: (V, V) -> bool): set<nat> {
    set id | id in a && id in b && same(a[id], b[id])
  }

  /** The differ that the token and Uniswap V2 systems share but for the fields they compare. */
  method DiffBy<V>(old_: seq<Keyed<V>>, new_: seq<Keyed<V>>, same: (V, V) -> bool) returns (d: Diff<V>)
    ensures IsDiff(ToMap(old_), ToMap(new_), Agreeing(ToMap(old_), ToMap(new_), same), d)
  {
    hide Lists, ToMap, Elements;
    var oldMap := BuildMap(old_);
    var newMap := BuildMap(new_);
    ghost var added, changed := newMap - oldMap.Keys, Only(newMap, oldMap.Keys - Agreeing(oldMap, newMap, same));
    var additions: seq<Keyed<V>>, updates: seq<Keyed<V>> := [], [];
    var rest := newMap.Keys;
    ghost var seen: set<nat> := {};
    OnlyNone(added);
    OnlyNone(changed);
    while rest != {}
      invariant rest <= newMap.Keys && seen == newMap.Keys - rest
      invariant Lists(additions, Only(added, seen))
      invariant Lists(updates, Only(changed, seen))
    {
      var id := Draw(rest);
      OnlyGrows(added, seen, id);
      OnlyGrows(changed, seen, id);
      if id !in oldMap {
        ListsAppend(additions, Only(added, seen), Keyed(id, newMap[id]));
        additions := additions + [Keyed(id, newMap[id])];
      } else if !same(oldMap[id], newMap[id]) {
        ListsAppend(updates, Only(changed, seen), Keyed(id, newMap[id]));
        updates := updates + [Keyed(id, newMap[id])];
      }
      rest, seen := rest - {id}, seen + {id};
    }
    OnlyAll(added, seen);
    OnlyAll(changed, seen);
    var deletions := Vanished(oldMap, newMap);
    d := Diff(additions, updates, deletions);
  }

  /** The patcher of the token, Uniswap V2 and Uniswap V3 systems; on values the deep copies are the values. */
  method Patch<V>(prev: seq<Keyed<V>>, d: Diff<V>) returns (r: seq<Keyed<V>>)
    ensures Lists(r, Patched(ToMap(prev), d))
  {
    var state := BuildMap(prev);
    state := Delete(state, d.deletions);
    state := Overwrite(state, d.updates);
    state := Overwrite(state, d.additions);
    r := FlattenMap(state);
  }

  lemma OnlyNone<V>(m: map<nat, V>)
    ensures Lists([], Only(m, {}))
  {
  }

  lemma OnlyGrows<V>(m: map<nat, V>, ids: set<nat>, id: nat)
    ensures Only(m, ids + {id}) == if id in m then Only(m, ids)[id := m[id]] else Only(m, ids)
    ensures id !in ids ==> id !in Only(m, ids)
  {
  }

  lemma OnlyAll<V>(m: map<nat, V>, ids: set<nat>)
    requires m.Keys <= ids
    ensures Only(m, ids) == m
  {
  }

  lemma {:induction false} ToMapAt<V>(s: seq<Keyed<V>>, i: nat)
    requires DistinctIds(s) && i < |s|
    ensures s[i].id in ToMap(s) && ToMap(s)[s[i].id] == s[i].data
  {
    if i < |s| - 1 { ToMapAt(s[..|s| - 1], i); }
  }

  /** A list without repeated IDs whose entries are those of `m` lists `m`. */
  lemma ListsExactly<V>(s: seq<Keyed<V>>, m: map<nat, V>)
    requires DistinctIds(s)
    requires forall i :: 0 <= i < |s| ==> s[i].id in m && m[s[i].id] == s[i].data
    requires forall id :: id in m ==> exists i :: 0 <= i < |s| && s[i].id == id
    ensures Lists(s, m)
  {
    forall id ensures id in ToMap(s) <==> id in m {
      ToMapKeys(s, id);
    }
    forall id | id in m ensures ToMap(s)[id] == m[id] {
      var i :| 0 <= i < |s| && s[i].id == id;
      ToMapAt(s, i);
    }
  }
}
