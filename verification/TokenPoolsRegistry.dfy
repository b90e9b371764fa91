/** The mutable registry: slices and index maps edited in place, each method proved to take
    the step that the state machine of `TokenPoolsRuns` defines. */
module TokenPoolsRegistry {
  import opened Indexing
  import opened TokenPoolGraph
  import opened GraphCompaction
  import Runs = TokenPoolsRuns

  // ----- The steps of compaction, on local slices -----

  /** Step 1: the live edges, in order, and the map from old to new edge numbers. */
  method CompactEdges(targets: seq<nat>, pools: seq<seq<nat>>, ghost live: set<nat>)
    returns (newTargets: seq<nat>, newPools: seq<seq<nat>>, oldToNew: map<nat, nat>)
    requires |targets| == |pools|
    requires live == set e | 0 <= e < |pools| && pools[e] != []
    ensures newTargets == Pick(targets, Kept(|pools|, live))
    ensures newPools == Pick(pools, Kept(|pools|, live))
    ensures Inverse(oldToNew, Kept(|pools|, live))
  {
    newTargets, newPools, oldToNew := [], [], map[];
    for readIdx := 0 to |pools|
      invariant newTargets == Pick(targets, Kept(readIdx, live))
      invariant newPools == Pick(pools, Kept(readIdx, live))
      invariant Inverse(oldToNew, Kept(readIdx, live))
    {
      if |pools[readIdx]| > 0 {
        InverseAppend(oldToNew, Kept(readIdx, live), readIdx);
        oldToNew := oldToNew[readIdx := |newTargets|];
        newTargets := newTargets + [targets[readIdx]];
        newPools := newPools + [pools[readIdx]];
      }
    }
  }

  /** Step 2, tokens: targets of live edges and tokens that list a live edge. */
  method CollectUsedTokens(newTargets: seq<nat>, adjacency: seq<seq<nat>>, oldToNew: map<nat, nat>)
    returns (used: set<nat>)
    ensures forall i: nat :: i in used <==>
      i in newTargets || (i < |adjacency| && exists e :: e in adjacency[i] && e in oldToNew)
  {
    used := set i | i in newTargets;
    for i := 0 to |adjacency|
      invariant forall j: nat :: j in used <==>
        j in newTargets || (j < i && exists e :: e in adjacency[j] && e in oldToNew)
    {
      for k := 0 to |adjacency[i]|
        invariant forall j: nat :: j in used <==>
          j in newTargets || (j < i && exists e :: e in adjacency[j] && e in oldToNew)
        invariant forall l :: 0 <= l < k ==> adjacency[i][l] !in oldToNew
      {
        if adjacency[i][k] in oldToNew {
          used := used + {i};
          break;
        }
      }
    }
  }

  /** Step 2, pools: every pool on a live edge. */
  method CollectUsedPools(newPools: seq<seq<nat>>) returns (used: set<nat>)
    ensures forall q: nat :: q in used <==> exists e :: 0 <= e < |newPools| && q in newPools[e]
  {
    used := {};
    for e := 0 to |newPools|
      invariant forall q: nat :: q in used <==> exists f :: 0 <= f < e && q in newPools[f]
    {
      ghost var before := used;
      for k := 0 to |newPools[e]|
        invariant forall q: nat :: q in used <==> q in before || q in newPools[e][..k]
      {
        used := used + {newPools[e][k]};
      }
      assert newPools[e][..|newPools[e]|] == newPools[e];
    }
  }

  /** Steps 3 and 4: keep the used names, in order, with both lookup maps. */
  method CompactNames(names: seq<nat>, used: set<nat>)
    returns (kept: seq<nat>, nameToIndex: map<nat, nat>, oldToNew: map<nat, nat>)
    requires Distinct(names)
    ensures kept == Pick(names, Kept(|names|, used))
    ensures Inverse(nameToIndex, kept)
    ensures Inverse(oldToNew, Kept(|names|, used))
  {
    kept, nameToIndex, oldToNew := [], map[], map[];
    for i := 0 to |names|
      invariant kept == Pick(names, Kept(i, used))
      invariant Inverse(nameToIndex, kept)
      invariant Inverse(oldToNew, Kept(i, used))
    {
      if i in used {
        InverseAppend(oldToNew, Kept(i, used), i);
        InverseAppend(nameToIndex, kept, names[i]);
        oldToNew := oldToNew[i := |kept|];
        nameToIndex := nameToIndex[names[i] := |kept|];
        kept := kept + [names[i]];
      }
    }
  }

  /** The members of a set as a list, in whatever order they are drawn. */
  method Flatten(unique: set<nat>) returns (ids: seq<nat>)
    ensures Distinct(ids)
    ensures forall p: nat :: p in ids <==> p in unique
  {
    ids := [];
    var rest := unique;
    while rest != {}
      invariant Distinct(ids)
      invariant rest <= unique
      invariant forall p: nat :: p in ids <==> p in unique && p !in rest
    {
      var p :| p in rest;
      ids := ids + [p];
      rest := rest - {p};
    }
  }

  /** Reading a Go map: a missing key yields zero. */
  function Lookup(m: map<nat, nat>, x: nat): nat {
    if x in m then m[x] else 0
  }

  lemma LookupIsRank(m: map<nat, nat>, kept: seq<nat>, x: nat)
    requires Inverse(m, kept)
    ensures Lookup(m, x) == Rank(kept, x) && (x in m <==> x in kept)
  {
    InverseIsIndexOf(m, kept, x);
  }

  lemma {:induction false} RenumberAll(kept: seq<nat>, s: seq<nat>)
    requires forall k :: 0 <= k < |s| ==> s[k] in kept
    ensures |Renumber(kept, s)| == |s|
    ensures forall k :: 0 <= k < |s| ==> Renumber(kept, s)[k] == Rank(kept, s[k])
  {
    hide Rank;
    if s != [] {
      var n := |s| - 1;
      var front := s[..n];
      forall k | 0 <= k < n ensures front[k] in kept { assert s[k] in kept; }
      RenumberAll(kept, front);
      var r := Renumber(kept, front);
      assert Renumber(kept, s) == r + [Rank(kept, s[n])];
      forall k | 0 <= k < |s| ensures (r + [Rank(kept, s[n])])[k] == Rank(kept, s[k]) {
        if k < n { assert front[k] == s[k]; }
      }
    }
  }

  /** Step 5 for one slice: overwrite every number by its new one. */
  method Remap(s: seq<nat>, oldToNew: map<nat, nat>, ghost kept: seq<nat>) returns (r: seq<nat>)
    requires Inverse(oldToNew, kept)
    ensures |r| == |s|
    ensures forall k :: 0 <= k < |s| ==> r[k] == Rank(kept, s[k])
    ensures (forall k :: 0 <= k < |s| ==> s[k] in kept) ==> r == Renumber(kept, s)
  {
    r := s;
    for i := 0 to |s|
      invariant |r| == |s|
      invariant forall k :: 0 <= k < i ==> r[k] == Rank(kept, s[k])
      invariant forall k :: i <= k < |s| ==> r[k] == s[k]
    {
      LookupIsRank(oldToNew, kept, r[i]);
      r := r[i := Lookup(oldToNew, r[i])];
    }
    if forall k :: 0 <= k < |s| ==> s[k] in kept { RenumberAll(kept, s); }
  }

  method RemapPools(lists: seq<seq<nat>>, oldToNew: map<nat, nat>, ghost kept: seq<nat>) returns (r: seq<seq<nat>>)
    requires Inverse(oldToNew, kept)
    requires forall e, k :: 0 <= e < |lists| && 0 <= k < |lists[e]| ==> lists[e][k] in kept
    ensures |r| == |lists|
    ensures forall e :: 0 <= e < |lists| ==> r[e] == Renumber(kept, lists[e])
  {
    r := lists;
    for i := 0 to |lists|
      invariant |r| == |lists|
      invariant forall e :: 0 <= e < i ==> r[e] == Renumber(kept, lists[e])
      invariant forall e :: i <= e < |lists| ==> r[e] == lists[e]
    {
      var list := Remap(r[i], oldToNew, kept);
      r := r[i := list];
    }
  }

  /** Step 6 for one token: its live edges under their new numbers. */
  method RemapAdjacent(adj: seq<nat>, oldToNew: map<nat, nat>, ghost kept: seq<nat>) returns (r: seq<nat>)
    requires Inverse(oldToNew, kept)
    ensures r == Renumber(kept, adj)
  {
    r := [];
    for k := 0 to |adj|
      invariant r == Renumber(kept, adj[..k])
    {
      assert adj[..k + 1][..k] == adj[..k];
      LookupIsRank(oldToNew, kept, adj[k]);
      if adj[k] in oldToNew {
        r := r + [oldToNew[adj[k]]];
      }
    }
    assert adj[..|adj|] == adj;
  }

  /** Step 6: the adjacency of every kept token. */
  method RebuildAdjacency(adjacency: seq<seq<nat>>, tokenMap: map<nat, nat>, edgeMap: map<nat, nat>,
                          ghost tokens: seq<nat>, ghost edges: seq<nat>, count: nat)
    returns (r: seq<seq<nat>>)
    requires Inverse(tokenMap, tokens) && Inverse(edgeMap, edges)
    requires AllBelow(tokens, |adjacency|) && count == |tokens|
    ensures |r| == |tokens|
    ensures forall k :: 0 <= k < |tokens| ==> r[k] == Renumber(edges, adjacency[tokens[k]])
  {
    r := seq(count, k => []);
    for i := 0 to |adjacency|
      invariant |r| == |tokens|
      invariant forall k :: 0 <= k < |tokens| && tokens[k] < i ==> r[k] == Renumber(edges, adjacency[tokens[k]])
    {
      if i in tokenMap {
        var newAdj := RemapAdjacent(adjacency[i], edgeMap, edges);
        r := r[tokenMap[i] := newAdj];
      }
    }
  }

  lemma WithoutNone(q: nat)
    ensures Without([], q) == []
  {
  }

  lemma WithoutExtend(s: seq<nat>, k: nat, q: nat)
    requires k < |s|
    ensures Without(s[..k + 1], q) == Without(s[..k], q) + if s[k] == q then [] else [s[k]]
    ensures q in s[..k + 1] <==> q in s[..k] || s[k] == q
  {
    assert s[..k + 1][..k] == s[..k] && s[..k + 1] == s[..k] + [s[k]];
  }

  /** The inner loop of a pool removal: filter one edge's list and note whether anything went. */
  method FilterPool(poolList: seq<nat>, q: nat) returns (newPoolList: seq<nat>, wasRemoved: bool)
    ensures newPoolList == Without(poolList, q)
    ensures wasRemoved == (q in poolList)
  {
    hide Without;
    WithoutNone(q);
    newPoolList, wasRemoved := [], false;
    for k := 0 to |poolList|
      invariant newPoolList == Without(poolList[..k], q)
      invariant wasRemoved == (q in poolList[..k])
    {
      WithoutExtend(poolList, k, q);
      if poolList[k] != q {
        newPoolList := newPoolList + [poolList[k]];
      } else {
        wasRemoved := true;
      }
    }
    assert poolList[..|poolList|] == poolList;
  }

  /** Steps 1 and 2 together: what survives, in the graph's own terms. */
  method CollectLive(g: Graph)
    returns (newTargets: seq<nat>, newPools: seq<seq<nat>>, edgeMap: map<nat, nat>, usedTokens: set<nat>,
             usedPools: set<nat>)
    requires WellFormed(g)
    ensures newTargets == Pick(g.edgeTargets, Kept(|g.edgePools|, LiveEdges(g)))
    ensures newPools == Pick(g.edgePools, Kept(|g.edgePools|, LiveEdges(g)))
    ensures Inverse(edgeMap, Kept(|g.edgePools|, LiveEdges(g)))
    ensures usedTokens == UsedTokens(g) && usedPools == UsedPools(g)
    ensures forall e, k :: 0 <= e < |newPools| && 0 <= k < |newPools[e]| ==>
      newPools[e][k] in Kept(|g.pools|, UsedPools(g))
  {
    newTargets, newPools, edgeMap := CompactEdges(g.edgeTargets, g.edgePools, LiveEdges(g));
    usedTokens := CollectUsedTokens(newTargets, g.adjacency, edgeMap);
    usedPools := CollectUsedPools(newPools);
    UsedTokensCollected(g, newTargets, edgeMap, usedTokens);
    UsedPoolsCollected(g, newPools, usedPools);
  }

  /** Steps 5 and 6 together: the edge slices and the adjacency under the new numbers. */
  method RemapEdges(targets: seq<nat>, pools: seq<seq<nat>>, adjacency: seq<seq<nat>>, count: nat,
                    tokenMap: map<nat, nat>, poolMap: map<nat, nat>, edgeMap: map<nat, nat>,
                    ghost tokens: seq<nat>, ghost kept: seq<nat>, ghost edges: seq<nat>)
    returns (newTargets: seq<nat>, newPools: seq<seq<nat>>, newAdjacency: seq<seq<nat>>)
    requires Inverse(tokenMap, tokens) && Inverse(poolMap, kept) && Inverse(edgeMap, edges)
    requires AllBelow(tokens, |adjacency|) && count == |tokens|
    requires forall e, k :: 0 <= e < |pools| && 0 <= k < |pools[e]| ==> pools[e][k] in kept
    ensures |newTargets| == |targets| && forall e :: 0 <= e < |targets| ==> newTargets[e] == Rank(tokens, targets[e])
    ensures |newPools| == |pools| && forall e :: 0 <= e < |pools| ==> newPools[e] == Renumber(kept, pools[e])
    ensures |newAdjacency| == |tokens|
    ensures forall k :: 0 <= k < |tokens| ==> newAdjacency[k] == Renumber(edges, adjacency[tokens[k]])
  {
    newTargets := Remap(targets, tokenMap, tokens);
    newPools := RemapPools(pools, poolMap, kept);
    newAdjacency := RebuildAdjacency(adjacency, tokenMap, edgeMap, tokens, edges, count);
  }

  /** All the steps over local slices: the renumbered graph and its two lookup maps. */
  method CompactSlices(g: Graph) returns (h: Graph, tokenToIndex: map<nat, nat>, poolToIndex: map<nat, nat>)
    requires WellFormed(g)
    ensures h == Compact(g)
    ensures Inverse(tokenToIndex, h.tokens) && Inverse(poolToIndex, h.pools)
  {
    hide Kept, LiveEdges, UsedTokens, UsedPools, Inverse, Renumber, Rank;
    var newTargets, newPools, edgeMap, usedTokens, usedPools := CollectLive(g);
    var finalTokens, finalTokenToIndex, tokenMap := CompactNames(g.tokens, usedTokens);
    var finalPools, finalPoolToIndex, poolMap := CompactNames(g.pools, usedPools);
    var targets, pools, adjacency := RemapEdges(
      newTargets, newPools, g.adjacency, |finalTokens|, tokenMap, poolMap, edgeMap,
      Kept(|g.tokens|, UsedTokens(g)), Kept(|g.pools|, UsedPools(g)), Kept(|g.edgePools|, LiveEdges(g)));
    h := Graph(finalTokens, finalPools, adjacency, targets, pools);
    tokenToIndex, poolToIndex := finalTokenToIndex, finalPoolToIndex;
  }

  class TokenPoolsRegistry {
    var tokenToIndex: map<nat, nat>
    var poolToIndex: map<nat, nat>
    var tokens: seq<nat>
    var pools: seq<nat>
    var adjacency: seq<seq<nat>>
    var edgeTargets: seq<nat>
    var edgePools: seq<seq<nat>>
    var danglingEdgeCount: nat
    var compactionThreshold: nat

    ghost function Snapshot(): Runs.Registry
      reads this
    {
      Runs.Registry(View(), danglingEdgeCount, compactionThreshold)
    }

    /** `view`: a copy of the five core slices. */
    function View(): Graph
      reads this
    {
      Graph(tokens, pools, adjacency, edgeTargets, edgePools)
    }

    ghost predicate Indexed()
      reads this
    {
      Inverse(tokenToIndex, tokens) && Inverse(poolToIndex, pools)
    }

    ghost predicate Valid()
      reads this
    {
      Indexed() && Runs.Settled(Snapshot())
    }

    constructor (threshold: int)
      ensures Valid() && Snapshot() == Runs.New(threshold)
      ensures compactionThreshold == if threshold <= 0 then 1000 else threshold
      ensures View() == Graph([], [], [], [], []) && danglingEdgeCount == 0
    {
      tokenToIndex, poolToIndex := map[], map[];
      tokens, pools, adjacency, edgeTargets, edgePools := [], [], [], [], [];
      danglingEdgeCount := 0;
      compactionThreshold := if threshold <= 0 then 1000 else threshold;
      new;
      assert Snapshot() == Runs.New(threshold);
    }

    method InternToken(id: nat) returns (index: nat)
      requires Indexed() && |adjacency| == |tokens|
      modifies this
      ensures Indexed() && View() == WithToken(old(View()), id)
      ensures id in tokens && index == IndexOf(tokens, id)
      ensures danglingEdgeCount == old(danglingEdgeCount) && compactionThreshold == old(compactionThreshold)
    {
      InverseIsIndexOf(tokenToIndex, tokens, id);
      if id in tokenToIndex {
        index := tokenToIndex[id];
      } else {
        InverseAppend(tokenToIndex, tokens, id);
        index := |tokens|;
        tokens := tokens + [id];
        tokenToIndex := tokenToIndex[id := index];
        adjacency := adjacency + [[]];
        InverseIsIndexOf(tokenToIndex, tokens, id);
      }
    }

    method InternPool(id: nat) returns (index: nat)
      requires Indexed()
      modifies this
      ensures Indexed() && View() == WithPool(old(View()), id)
      ensures id in pools && index == IndexOf(pools, id)
      ensures danglingEdgeCount == old(danglingEdgeCount) && compactionThreshold == old(compactionThreshold)
    {
      InverseIsIndexOf(poolToIndex, pools, id);
      if id in poolToIndex {
        index := poolToIndex[id];
      } else {
        InverseAppend(poolToIndex, pools, id);
        index := |pools|;
        pools := pools + [id];
        poolToIndex := poolToIndex[id := index];
        InverseIsIndexOf(poolToIndex, pools, id);
      }
    }

    method InternNames(from: nat, to: nat, pool: nat) returns (i: nat, j: nat, q: nat)
      requires Indexed() && |adjacency| == |tokens|
      modifies this
      ensures Indexed() && View() == WithNames(old(View()), from, to, pool)
      ensures from in tokens && to in tokens && pool in pools
      ensures i == IndexOf(tokens, from) && j == IndexOf(tokens, to) && q == IndexOf(pools, pool)
      ensures danglingEdgeCount == old(danglingEdgeCount) && compactionThreshold == old(compactionThreshold)
    {
      i := InternToken(from);
      InternedIndex(View(), from, to);
      j := InternToken(to);
      q := InternPool(pool);
    }

    method LinkIndexes(i: nat, j: nat, q: nat)
      requires i < |adjacency| && |edgePools| == |edgeTargets| && AllBelow(adjacency[i], |edgeTargets|)
      modifies this`edgePools, this`edgeTargets, this`adjacency
      ensures View() == Link(old(View()), i, j, q)
    {
      for k := 0 to |adjacency[i]|
        invariant View() == old(View())
        invariant forall l :: 0 <= l < k ==> edgeTargets[adjacency[i][l]] != j
      {
        var e := adjacency[i][k];
        if edgeTargets[e] == j {
          for m := 0 to |edgePools[e]|
            invariant View() == old(View())
            invariant forall l :: 0 <= l < m ==> edgePools[e][l] != q
          {
            if edgePools[e][m] == q {
              return;
            }
          }
          edgePools := edgePools[e := edgePools[e] + [q]];
          return;
        }
      }
      var newEdge := |edgeTargets|;
      edgeTargets := edgeTargets + [j];
      edgePools := edgePools + [[q]];
      adjacency := adjacency[i := adjacency[i] + [newEdge]];
    }

    method AddEdge(from: nat, to: nat, pool: nat)
      requires Indexed() && WellFormed(View())
      modifies this
      ensures Indexed() && View() == TokenPoolGraph.AddEdge(old(View()), from, to, pool)
      ensures danglingEdgeCount == old(danglingEdgeCount) && compactionThreshold == old(compactionThreshold)
    {
      LinkNamesRefines(View(), from, to, pool);
      var i, j, q := InternNames(from, to, pool);
      LinkIndexes(i, j, q);
    }

    method Add(tokenIDs: seq<nat>, pool: nat)
      requires Valid()
      modifies this
      ensures Valid() && Snapshot() == Runs.Apply(old(Snapshot()), Runs.AddPool(tokenIDs, pool))
    {
      Runs.ApplyRefines(Snapshot(), Runs.AddPool(tokenIDs, pool));
      AddPairs(tokenIDs, pool);
    }

    /** The outer loop. */
    method AddPairs(tokenIDs: seq<nat>, pool: nat)
      requires Indexed() && WellFormed(View())
      modifies this
      ensures Indexed() && View() == TokenPoolGraph.Add(old(View()), tokenIDs, pool)
      ensures danglingEdgeCount == old(danglingEdgeCount) && compactionThreshold == old(compactionThreshold)
    {
      hide WellFormed, Triples, RowTriples, RowsTriples, AddRow, Inverse;
      for i := 0 to |tokenIDs|
        invariant Indexed() && View() == AddRows(old(View()), tokenIDs, i, pool)
        invariant danglingEdgeCount == old(danglingEdgeCount) && compactionThreshold == old(compactionThreshold)
      {
        AddPairsOf(tokenIDs, i, pool);
      }
    }

    /** The inner loop: token `i` with every later one, both ways. */
    method AddPairsOf(tokenIDs: seq<nat>, i: nat, pool: nat)
      requires Indexed() && WellFormed(View()) && i < |tokenIDs|
      modifies this
      ensures Indexed() && View() == AddRow(old(View()), tokenIDs, i, |tokenIDs|, pool)
      ensures danglingEdgeCount == old(danglingEdgeCount) && compactionThreshold == old(compactionThreshold)
    {
      hide WellFormed, Triples, RowTriples, RowsTriples, TokenPoolGraph.AddEdge, Inverse;
      for j := i + 1 to |tokenIDs|
        invariant Indexed() && View() == AddRow(old(View()), tokenIDs, i, j, pool)
        invariant danglingEdgeCount == old(danglingEdgeCount) && compactionThreshold == old(compactionThreshold)
      {
        AddEdge(tokenIDs[i], tokenIDs[j], pool);
        AddEdge(tokenIDs[j], tokenIDs[i], pool);
      }
    }

    method RemovePool(pool: nat)
      requires Valid()
      modifies this
      ensures Valid() && Snapshot() == Runs.Apply(old(Snapshot()), Runs.RemovePool(pool))
    {
      hide Triples, CountEmpty, NewlyEmpty, Compact, DropPool;
      Runs.ApplyRefines(Snapshot(), Runs.RemovePool(pool));
      RemovePoolRefines(View(), pool);
      InverseIsIndexOf(poolToIndex, pools, pool);
      if pool !in poolToIndex {
        return;
      }
      DropPoolLists(poolToIndex[pool]);
      assert View() == TokenPoolGraph.RemovePool(old(View()), pool);
      if danglingEdgeCount > compactionThreshold {
        CompactInPlace();
      }
    }

    method DropPoolLists(q: nat)
      modifies this`edgePools, this`danglingEdgeCount
      ensures edgePools == DropPool(old(edgePools), q)
      ensures danglingEdgeCount == old(danglingEdgeCount) + NewlyEmpty(old(edgePools), edgePools)
    {
      ghost var lists := edgePools;
      NewlyEmptySame(lists);
      for e := 0 to |edgePools|
        invariant |edgePools| == |lists|
        invariant forall f :: 0 <= f < e ==> edgePools[f] == Without(lists[f], q)
        invariant forall f :: e <= f < |lists| ==> edgePools[f] == lists[f]
        invariant danglingEdgeCount == old(danglingEdgeCount) + NewlyEmpty(lists, edgePools)
      {
        var poolList := edgePools[e];
        if |poolList| != 0 {
          var newPoolList, wasRemoved := FilterPool(poolList, q);
          if wasRemoved {
            NewlyEmptyUpdate(lists, edgePools, e, newPoolList);
            edgePools := edgePools[e := newPoolList];
            if |newPoolList| == 0 {
              danglingEdgeCount := danglingEdgeCount + 1;
            }
          }
        }
      }
    }

    method RemoveToken(token: nat)
      requires Valid()
      modifies this
      ensures Valid() && Snapshot() == Runs.Apply(old(Snapshot()), Runs.RemoveToken(token))
    {
      hide Triples, CountEmpty, NewlyEmpty, Compact, DropToken;
      Runs.ApplyRefines(Snapshot(), Runs.RemoveToken(token));
      RemoveTokenRefines(View(), token);
      InverseIsIndexOf(tokenToIndex, tokens, token);
      if token !in tokenToIndex {
        return;
      }
      DropTokenLists(tokenToIndex[token]);
      assert View() == TokenPoolGraph.RemoveToken(old(View()), token);
      if danglingEdgeCount > compactionThreshold {
        CompactInPlace();
      }
    }

    method DropTokenLists(i: nat)
      requires InBounds(View()) && i < |adjacency|
      modifies this`edgePools, this`danglingEdgeCount, this`adjacency
      ensures edgePools == DropToken(old(View()), i) && adjacency == old(adjacency)[i := []]
      ensures danglingEdgeCount == old(danglingEdgeCount) + NewlyEmpty(old(edgePools), edgePools)
    {
      NewlyEmptySame(edgePools);
      ClearOutgoing(i, edgePools);
      adjacency := adjacency[i := []];
      ClearIncoming(i, old(adjacency)[i], old(edgePools));
    }

    method ClearOutgoing(i: nat, ghost lists: seq<seq<nat>>)
      requires InBounds(View()) && i < |adjacency| && lists == edgePools
      modifies this`edgePools, this`danglingEdgeCount
      ensures |edgePools| == |lists|
      ensures forall e: nat :: e < |lists| ==> edgePools[e] == if e in adjacency[i] then [] else lists[e]
      ensures danglingEdgeCount == old(danglingEdgeCount) + NewlyEmpty(lists, edgePools)
    {
      NewlyEmptySame(lists);
      for k := 0 to |adjacency[i]|
        invariant |edgePools| == |lists|
        invariant forall e: nat :: e < |lists| ==> edgePools[e] == if e in adjacency[i][..k] then [] else lists[e]
        invariant danglingEdgeCount == old(danglingEdgeCount) + NewlyEmpty(lists, edgePools)
      {
        var e := adjacency[i][k];
        assert adjacency[i][..k + 1] == adjacency[i][..k] + [e];
        if |edgePools[e]| > 0 {
          NewlyEmptyUpdate(lists, edgePools, e, []);
          edgePools := edgePools[e := []];
          danglingEdgeCount := danglingEdgeCount + 1;
        }
      }
      assert adjacency[i][..|adjacency[i]|] == adjacency[i];
    }

    method ClearIncoming(i: nat, ghost out: seq<nat>, ghost lists: seq<seq<nat>>)
      requires |edgePools| == |edgeTargets| == |lists|
      requires forall e: nat :: e < |lists| ==> edgePools[e] == if e in out then [] else lists[e]
      modifies this`edgePools, this`danglingEdgeCount
      ensures |edgePools| == |lists|
      ensures forall e: nat :: e < |lists| ==> edgePools[e] == if e in out || edgeTargets[e] == i then [] else lists[e]
      ensures danglingEdgeCount ==
                  old(danglingEdgeCount) + NewlyEmpty(lists, edgePools) - NewlyEmpty(lists, old(edgePools))
    {
      for e := 0 to |edgeTargets|
        invariant |edgePools| == |lists|
        invariant forall f: nat :: f < |lists| ==>
          edgePools[f] == if f in out || (f < e && edgeTargets[f] == i) then [] else lists[f]
        invariant danglingEdgeCount ==
                  old(danglingEdgeCount) + NewlyEmpty(lists, edgePools) - NewlyEmpty(lists, old(edgePools))
      {
        if edgeTargets[e] == i {
          if |edgePools[e]| > 0 {
            NewlyEmptyUpdate(lists, edgePools, e, []);
            edgePools := edgePools[e := []];
            danglingEdgeCount := danglingEdgeCount + 1;
          }
        }
      }
    }

    method CompactInPlace()
      requires Indexed() && WellFormed(View())
      modifies this
      ensures Indexed() && Snapshot() == Runs.CompactAll(old(Snapshot()))
    {
      if danglingEdgeCount == 0 {
        return;
      }
      var h, finalTokenToIndex, finalPoolToIndex := CompactSlices(View());
      Install(h, finalTokenToIndex, finalPoolToIndex);
    }

    /** Step 7: replace every slice and map at once. */
    method Install(h: Graph, newTokenToIndex: map<nat, nat>, newPoolToIndex: map<nat, nat>)
      requires Inverse(newTokenToIndex, h.tokens) && Inverse(newPoolToIndex, h.pools)
      modifies this
      ensures Indexed() && View() == h && danglingEdgeCount == 0
      ensures compactionThreshold == old(compactionThreshold)
    {
      tokens, tokenToIndex := h.tokens, newTokenToIndex;
      pools, poolToIndex := h.pools, newPoolToIndex;
      edgeTargets, edgePools, adjacency := h.edgeTargets, h.edgePools, h.adjacency;
      danglingEdgeCount := 0;
    }

    /** The pools on edges out of a token, each once, in no particular order. */
    method PoolsForToken(token: nat) returns (ids: seq<nat>)
      requires Valid()
      ensures Distinct(ids)
      ensures forall p: nat :: p in ids <==> exists t :: t in Triples(View()) && t.from == token && t.pool == p
    {
      ids := [];
      InverseIsIndexOf(tokenToIndex, tokens, token);
      if token !in tokenToIndex {
        NoOutgoing(View(), token);
        return;
      }
      var unique := CollectPools(tokenToIndex[token]);
      OutgoingPools(View(), tokenToIndex[token], unique);
      ids := Flatten(unique);
    }

    method CollectPools(i: nat) returns (unique: set<nat>)
      requires InBounds(View()) && i < |adjacency|
      ensures forall p: nat :: p in unique <==> exists e: nat, q: nat :: OnEdge(View(), i, e, q) && pools[q] == p
    {
      unique := {};
      for k := 0 to |adjacency[i]|
        invariant forall p: nat :: p in unique <==>
          exists e: nat, q: nat :: OnEdge(View(), i, e, q) && e in adjacency[i][..k] && pools[q] == p
      {
        var e := adjacency[i][k];
        ghost var before := unique;
        for m := 0 to |edgePools[e]|
          invariant forall p: nat :: p in unique <==>
            p in before || exists l :: 0 <= l < m && pools[edgePools[e][l]] == p
        {
          if edgePools[e][m] < |pools| {
            unique := unique + {pools[edgePools[e][m]]};
          }
        }
        ExtendCollected(View(), i, k, before, unique);
      }
    }
  }

  lemma InternedIndex(g: Graph, from: nat, to: nat)
    requires from in g.tokens
    ensures from in WithToken(g, to).tokens && IndexOf(WithToken(g, to).tokens, from) == IndexOf(g.tokens, from)
  {
    IndexOfPrefix(g.tokens, [to], from);
  }

  lemma {:induction false} IndexOfPrefix(s: seq<nat>, rest: seq<nat>, x: nat)
    requires x in s
    ensures x in s + rest && IndexOf(s + rest, x) == IndexOf(s, x)
  {
    assert (s + rest)[0] == s[0];
    if s[0] != x {
      assert (s + rest)[1..] == s[1..] + rest;
      IndexOfPrefix(s[1..], rest, x);
    }
    assert (s + rest)[IndexOf(s, x)] == x;
  }

  /** The tokens gathered from the compacted slices are the ones used in the graph. */
  lemma UsedTokensCollected(g: Graph, newTargets: seq<nat>, edgeMap: map<nat, nat>, used: set<nat>)
    requires WellFormed(g)
    requires newTargets == Pick(g.edgeTargets, Kept(|g.edgePools|, LiveEdges(g)))
    requires Inverse(edgeMap, Kept(|g.edgePools|, LiveEdges(g)))
    requires forall i: nat :: i in used <==>
      i in newTargets || (i < |g.adjacency| && exists e :: e in g.adjacency[i] && e in edgeMap)
    ensures used == UsedTokens(g)
  {
    hide Kept, LiveEdges, Inverse, UsedTokens;
    forall i: nat ensures i in used <==> i in UsedTokens(g) {
      TokenUsedExactly(g, newTargets, edgeMap, i);
    }
  }

  lemma EdgesKept(g: Graph, edgeMap: map<nat, nat>, e: nat)
    requires Inverse(edgeMap, Kept(|g.edgePools|, LiveEdges(g)))
    ensures e in edgeMap <==> e in LiveEdges(g)
  {
    hide Kept, LiveEdges, Inverse;
    if e in LiveEdges(g) {
      assert e < |g.edgePools| by { LiveBelow(g, e); }
      KeptComplete(|g.edgePools|, LiveEdges(g), e);
    }
    InverseIsIndexOf(edgeMap, Kept(|g.edgePools|, LiveEdges(g)), e);
  }

  lemma LiveBelow(g: Graph, e: nat)
    requires e in LiveEdges(g)
    ensures e < |g.edgePools|
  {
  }

  lemma TokenUsedExactly(g: Graph, newTargets: seq<nat>, edgeMap: map<nat, nat>, i: nat)
    requires WellFormed(g)
    requires newTargets == Pick(g.edgeTargets, Kept(|g.edgePools|, LiveEdges(g)))
    requires Inverse(edgeMap, Kept(|g.edgePools|, LiveEdges(g)))
    ensures i in UsedTokens(g) <==>
      i in newTargets || (i < |g.adjacency| && exists e :: e in g.adjacency[i] && e in edgeMap)
  {
    hide Kept, LiveEdges;
    var edges := Kept(|g.edgePools|, LiveEdges(g));
    forall e: nat ensures e in edgeMap <==> e in LiveEdges(g) { EdgesKept(g, edgeMap, e); }
    if i in UsedTokens(g) {
      var e: nat :| e in LiveEdges(g) && (g.edgeTargets[e] == i || Owns(g, i, e));
      assert newTargets[edgeMap[e]] == g.edgeTargets[e];
    }
    if i in newTargets {
      var k :| 0 <= k < |newTargets| && newTargets[k] == i;
      assert edges[k] in LiveEdges(g);
      assert TokenUsed(g, i);
    }
  }

  lemma PoolUsedExactly(g: Graph, newPools: seq<seq<nat>>, q: nat)
    requires WellFormed(g) && newPools == Pick(g.edgePools, Kept(|g.edgePools|, LiveEdges(g)))
    ensures q in UsedPools(g) <==> exists e :: 0 <= e < |newPools| && q in newPools[e]
  {
    hide Kept;
    var edges := Kept(|g.edgePools|, LiveEdges(g));
    if q in UsedPools(g) {
      var e: nat :| e in LiveEdges(g) && q in g.edgePools[e];
      KeptComplete(|g.edgePools|, LiveEdges(g), e);
      assert newPools[IndexOf(edges, e)] == g.edgePools[e];
    }
    if k :| 0 <= k < |newPools| && q in newPools[k] {
      assert edges[k] in LiveEdges(g) && q in g.edgePools[edges[k]];
    }
  }

  lemma UsedPoolsCollected(g: Graph, newPools: seq<seq<nat>>, used: set<nat>)
    requires WellFormed(g)
    requires newPools == Pick(g.edgePools, Kept(|g.edgePools|, LiveEdges(g)))
    requires forall q: nat :: q in used <==> exists e :: 0 <= e < |newPools| && q in newPools[e]
    ensures used == UsedPools(g)
    ensures forall e, k :: 0 <= e < |newPools| && 0 <= k < |newPools[e]| ==>
      newPools[e][k] in Kept(|g.pools|, UsedPools(g))
  {
    hide Kept, LiveEdges, WellFormed;
    forall q: nat ensures q in used <==> q in UsedPools(g) {
      PoolUsedExactly(g, newPools, q);
    }
    forall e, k | 0 <= e < |newPools| && 0 <= k < |newPools[e]|
      ensures newPools[e][k] in Kept(|g.pools|, UsedPools(g))
    {
      assert newPools[e][k] in newPools[e];
      assert newPools[e][k] in used;
      KeptComplete(|g.pools|, UsedPools(g), newPools[e][k]);
    }
  }

  lemma OutgoingPools(g: Graph, i: nat, unique: set<nat>)
    requires WellFormed(g) && i < |g.tokens|
    requires forall p: nat :: p in unique <==> exists e: nat, q: nat :: OnEdge(g, i, e, q) && g.pools[q] == p
    ensures forall p: nat :: p in unique <==> exists t :: t in Triples(g) && t.from == g.tokens[i] && t.pool == p
  {
    forall p: nat
      ensures p in unique <==> exists t :: t in Triples(g) && t.from == g.tokens[i] && t.pool == p
    {
      if p in unique {
        var e: nat, q: nat :| OnEdge(g, i, e, q) && g.pools[q] == p;
        var t := Triple(g.tokens[i], g.tokens[g.edgeTargets[e]], p);
        assert Carries(g, i, e, q, t);
        assert t in Triples(g);
      }
      if exists t :: t in Triples(g) && t.from == g.tokens[i] && t.pool == p {
        var t :| t in Triples(g) && t.from == g.tokens[i] && t.pool == p;
        var j: nat, e: nat, q: nat :| Carries(g, j, e, q, t);
        assert OnEdge(g, i, e, q);
      }
    }
  }

  lemma NoOutgoing(g: Graph, token: nat)
    requires InBounds(g) && token !in g.tokens
    ensures !exists t :: t in Triples(g) && t.from == token
  {
    forall t | t in Triples(g) ensures t.from != token {
      var i: nat, e: nat, q: nat :| Carries(g, i, e, q, t);
    }
  }

  lemma ExtendCollected(g: Graph, i: nat, k: nat, before: set<nat>, after: set<nat>)
    requires InBounds(g) && i < |g.adjacency| && k < |g.adjacency[i]|
    requires forall p: nat :: p in before <==>
      exists e: nat, q: nat :: OnEdge(g, i, e, q) && e in g.adjacency[i][..k] && g.pools[q] == p
    requires var list := g.edgePools[g.adjacency[i][k]];
      forall p: nat :: p in after <==> p in before || exists l :: 0 <= l < |list| && g.pools[list[l]] == p
    ensures forall p: nat :: p in after <==>
      exists e: nat, q: nat :: OnEdge(g, i, e, q) && e in g.adjacency[i][..k + 1] && g.pools[q] == p
  {
    var e := g.adjacency[i][k];
    assert Owns(g, i, e);
    forall p: nat
      ensures p in after <==>
        exists f: nat, q: nat :: OnEdge(g, i, f, q) && f in g.adjacency[i][..k + 1] && g.pools[q] == p
    {
      if p in after && p !in before {
        var l :| 0 <= l < |g.edgePools[e]| && g.pools[g.edgePools[e][l]] == p;
        assert OnEdge(g, i, e, g.edgePools[e][l]);
        assert g.adjacency[i][..k + 1][k] == e;
      }
      if p in before {
        var f: nat, q: nat :| OnEdge(g, i, f, q) && f in g.adjacency[i][..k] && g.pools[q] == p;
        assert f in g.adjacency[i][..k + 1];
      }
      if exists f: nat, q: nat :: OnEdge(g, i, f, q) && f in g.adjacency[i][..k + 1] && g.pools[q] == p {
        var f: nat, q: nat :| OnEdge(g, i, f, q) && f in g.adjacency[i][..k + 1] && g.pools[q] == p;
        if f !in g.adjacency[i][..k] { assert f == e; }
      }
    }
  }
}
