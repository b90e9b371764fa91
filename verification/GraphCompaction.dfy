/** Compaction of the token-pool graph as one renumbering, and why it preserves meaning. */
module GraphCompaction {
  import opened Indexing
  import opened TokenPoolGraph

  ghost function LiveEdges(g: Graph): set<nat> {
    set e | 0 <= e < |g.edgePools| && g.edgePools[e] != []
  }

  ghost predicate TokenUsed(g: Graph, i: nat)
    requires InBounds(g)
  {
    || (exists e: nat :: e in LiveEdges(g) && g.edgeTargets[e] == i)
    || (exists e: nat :: e in LiveEdges(g) && Owns(g, i, e))
  }

  ghost predicate PoolUsed(g: Graph, q: nat) {
    exists e: nat :: e in LiveEdges(g) && q in g.edgePools[e]
  }

  ghost function UsedTokens(g: Graph): set<nat>
    requires InBounds(g)
  {
    set i | 0 <= i < |g.tokens| && TokenUsed(g, i)
  }

  ghost function UsedPools(g: Graph): set<nat> {
    set q | 0 <= q < |g.pools| && PoolUsed(g, q)
  }

  /** Renumbers `g` down to the listed edges, tokens and pools. */
  ghost function Restrict(g: Graph, edges: seq<nat>, tokens: seq<nat>, pools: seq<nat>): (h: Graph)
    requires InBounds(g)
    requires AllBelow(edges, |g.edgePools|) && AllBelow(tokens, |g.tokens|) && AllBelow(pools, |g.pools|)
  {
    Graph(
      Pick(g.tokens, tokens),
      Pick(g.pools, pools),
      seq(|tokens|, k requires 0 <= k < |tokens| => Renumber(edges, g.adjacency[tokens[k]])),
      seq(|edges|, k requires 0 <= k < |edges| => Rank(tokens, g.edgeTargets[edges[k]])),
      seq(|edges|, k requires 0 <= k < |edges| => Renumber(pools, g.edgePools[edges[k]])))
  }

  ghost function Compact(g: Graph): Graph
    requires InBounds(g)
  {
    Restrict(g, Kept(|g.edgePools|, LiveEdges(g)), Kept(|g.tokens|, UsedTokens(g)), Kept(|g.pools|, UsedPools(g)))
  }

  /** The kept lists hold whatever a live edge refers to, and only that. */
  ghost predicate Exact(g: Graph, edges: seq<nat>, tokens: seq<nat>, pools: seq<nat>)
    requires InBounds(g)
  {
    && Distinct(edges) && Distinct(tokens) && Distinct(pools)
    && (forall e: nat :: e in edges <==> e in LiveEdges(g))
    && (forall i: nat :: i in tokens <==> i < |g.tokens| && TokenUsed(g, i))
    && (forall q: nat :: q in pools <==> q < |g.pools| && PoolUsed(g, q))
  }

  lemma KeptExact(g: Graph)
    requires InBounds(g)
    ensures Exact(g, Kept(|g.edgePools|, LiveEdges(g)), Kept(|g.tokens|, UsedTokens(g)), Kept(|g.pools|, UsedPools(g)))
  {
    forall e | e in LiveEdges(g) ensures e in Kept(|g.edgePools|, LiveEdges(g)) {
      KeptComplete(|g.edgePools|, LiveEdges(g), e);
    }
    forall i: nat | i < |g.tokens| && TokenUsed(g, i) ensures i in Kept(|g.tokens|, UsedTokens(g)) {
      KeptComplete(|g.tokens|, UsedTokens(g), i);
    }
    forall q: nat | q < |g.pools| && PoolUsed(g, q) ensures q in Kept(|g.pools|, UsedPools(g)) {
      KeptComplete(|g.pools|, UsedPools(g), q);
    }
  }

  /** `h` is `g` among the kept numbers: same names, and exactly the incidences of `g`. */
  ghost predicate Renumbered(g: Graph, h: Graph, edges: seq<nat>, tokens: seq<nat>, pools: seq<nat>)
    requires InBounds(g)
    requires AllBelow(edges, |g.edgePools|) && AllBelow(tokens, |g.tokens|) && AllBelow(pools, |g.pools|)
  {
    && InBounds(h)
    && h.tokens == Pick(g.tokens, tokens) && h.pools == Pick(g.pools, pools) && |h.edgePools| == |edges|
    && (forall i: nat, e: nat :: Owns(h, i, e) <==> i < |tokens| && e < |edges| && Owns(g, tokens[i], edges[e]))
    && (forall e: nat, q: nat :: e < |edges| ==>
          (q in h.edgePools[e] <==> q < |pools| && pools[q] in g.edgePools[edges[e]]))
    && (forall e: nat :: e < |edges| ==>
          h.edgeTargets[e] < |tokens| && tokens[h.edgeTargets[e]] == g.edgeTargets[edges[e]])
    && (forall i :: 0 <= i < |tokens| ==> Distinct(g.adjacency[tokens[i]]) ==> Distinct(h.adjacency[i]))
    && (forall e :: 0 <= e < |edges| ==> Distinct(g.edgePools[edges[e]]) ==> Distinct(h.edgePools[e]))
  }

  lemma RestrictAdjacency(g: Graph, edges: seq<nat>, tokens: seq<nat>, pools: seq<nat>)
    requires InBounds(g) && Distinct(edges)
    requires AllBelow(edges, |g.edgePools|) && AllBelow(tokens, |g.tokens|) && AllBelow(pools, |g.pools|)
    ensures var h := Restrict(g, edges, tokens, pools);
            && (forall i :: 0 <= i < |tokens| ==> AllBelow(h.adjacency[i], |edges|))
            && (forall i :: 0 <= i < |tokens| ==> Distinct(g.adjacency[tokens[i]]) ==> Distinct(h.adjacency[i]))
            && (forall i: nat, e: nat :: Owns(h, i, e) <==> i < |tokens| && e < |edges| && Owns(g, tokens[i], edges[e]))
  {
    forall i | 0 <= i < |tokens| {
      RenumberMembers(edges, g.adjacency[tokens[i]]);
    }
  }

  lemma RestrictEdge(g: Graph, edges: seq<nat>, tokens: seq<nat>, pools: seq<nat>, e: nat)
    requires InBounds(g) && Exact(g, edges, tokens, pools) && e < |edges|
    requires AllBelow(edges, |g.edgePools|) && AllBelow(tokens, |g.tokens|) && AllBelow(pools, |g.pools|)
    ensures var h := Restrict(g, edges, tokens, pools);
            && (forall q: nat :: q in h.edgePools[e] <==> q < |pools| && pools[q] in g.edgePools[edges[e]])
            && AllBelow(h.edgePools[e], |pools|)
            && (Distinct(g.edgePools[edges[e]]) ==> Distinct(h.edgePools[e]))
            && h.edgeTargets[e] < |tokens| && tokens[h.edgeTargets[e]] == g.edgeTargets[edges[e]]
  {
    RenumberMembers(pools, g.edgePools[edges[e]]);
    assert edges[e] in edges;
    assert TokenUsed(g, g.edgeTargets[edges[e]]);
  }

  lemma RestrictRenumbers(g: Graph, edges: seq<nat>, tokens: seq<nat>, pools: seq<nat>)
    requires InBounds(g)
    requires AllBelow(edges, |g.edgePools|) && AllBelow(tokens, |g.tokens|) && AllBelow(pools, |g.pools|)
    requires Exact(g, edges, tokens, pools)
    ensures Renumbered(g, Restrict(g, edges, tokens, pools), edges, tokens, pools)
  {
    RestrictAdjacency(g, edges, tokens, pools);
    forall e: nat | e < |edges| {
      RestrictEdge(g, edges, tokens, pools, e);
    }
  }

  lemma RenumberedWellFormed(g: Graph, h: Graph, edges: seq<nat>, tokens: seq<nat>, pools: seq<nat>)
    requires WellFormed(g)
    requires AllBelow(edges, |g.edgePools|) && AllBelow(tokens, |g.tokens|) && AllBelow(pools, |g.pools|)
    requires Exact(g, edges, tokens, pools) && Renumbered(g, h, edges, tokens, pools)
    ensures WellFormed(h)
  {
    forall e: nat | e < |h.edgePools| && h.edgePools[e] != []
      ensures exists i: nat :: Owns(h, i, e)
    {
      assert edges[e] in edges;
      var i: nat :| Owns(g, i, edges[e]);
      assert TokenUsed(g, i);
      assert Owns(h, Rank(tokens, i), e);
    }
  }

  lemma RenumberedTriples(g: Graph, h: Graph, edges: seq<nat>, tokens: seq<nat>, pools: seq<nat>)
    requires WellFormed(g)
    requires AllBelow(edges, |g.edgePools|) && AllBelow(tokens, |g.tokens|) && AllBelow(pools, |g.pools|)
    requires Exact(g, edges, tokens, pools) && Renumbered(g, h, edges, tokens, pools)
    ensures Triples(h) == Triples(g)
  {
    forall t: Triple
      ensures t in Triples(h) <==> t in Triples(g)
    {
      if t in Triples(h) {
        var i: nat, e: nat, q: nat :| Carries(h, i, e, q, t);
        assert Carries(g, tokens[i], edges[e], pools[q], t);
      }
      if t in Triples(g) {
        var i: nat, e: nat, q: nat :| Carries(g, i, e, q, t);
        assert e in LiveEdges(g);
        assert TokenUsed(g, i) && PoolUsed(g, q);
        assert Carries(h, Rank(tokens, i), Rank(edges, e), Rank(pools, q), t);
      }
    }
  }

  /** Nothing is left over: no dead edge, and every token and pool occurs in some triple. */
  ghost predicate Tight(g: Graph)
    requires InBounds(g)
  {
    && (forall e :: 0 <= e < |g.edgePools| ==> g.edgePools[e] != [])
    && (forall id :: id in g.tokens ==> exists t :: t in Triples(g) && (t.from == id || t.to == id))
    && (forall id :: id in g.pools ==> exists t :: t in Triples(g) && t.pool == id)
  }

  lemma RenumberedTight(g: Graph, h: Graph, edges: seq<nat>, tokens: seq<nat>, pools: seq<nat>)
    requires WellFormed(g)
    requires AllBelow(edges, |g.edgePools|) && AllBelow(tokens, |g.tokens|) && AllBelow(pools, |g.pools|)
    requires Exact(g, edges, tokens, pools) && Renumbered(g, h, edges, tokens, pools)
    requires Triples(h) == Triples(g)
    ensures Tight(h)
  {
    forall e | 0 <= e < |edges|
      ensures h.edgePools[e] != []
    {
      assert edges[e] in edges;
      var q := g.edgePools[edges[e]][0];
      assert PoolUsed(g, q);
      assert Rank(pools, q) in h.edgePools[e];
    }
    forall id | id in h.tokens
      ensures exists t :: t in Triples(h) && (t.from == id || t.to == id)
    {
      var k :| 0 <= k < |tokens| && h.tokens[k] == id;
      assert tokens[k] in tokens;
      var e :| e in LiveEdges(g) && (g.edgeTargets[e] == tokens[k] || Owns(g, tokens[k], e));
      var t := SomeTripleOn(g, e);
      if Owns(g, tokens[k], e) { assert t.from == id; } else { assert t.to == id; }
    }
    forall id | id in h.pools
      ensures exists t :: t in Triples(h) && t.pool == id
    {
      var k :| 0 <= k < |pools| && h.pools[k] == id;
      assert pools[k] in pools;
      var e :| e in LiveEdges(g) && pools[k] in g.edgePools[e];
      var i: nat :| Owns(g, i, e);
      assert Carries(g, i, e, pools[k], Triple(g.tokens[i], g.tokens[g.edgeTargets[e]], id));
    }
  }

  lemma SomeTripleOn(g: Graph, e: nat) returns (t: Triple)
    requires WellFormed(g) && e in LiveEdges(g)
    ensures t in Triples(g)
    ensures t.to == g.tokens[g.edgeTargets[e]]
    ensures forall i: nat :: Owns(g, i, e) ==> t.from == g.tokens[i]
  {
    var i: nat :| Owns(g, i, e);
    t := Triple(g.tokens[i], g.tokens[g.edgeTargets[e]], g.pools[g.edgePools[e][0]]);
    assert Carries(g, i, e, g.edgePools[e][0], t);
  }

  /** Compaction renumbers everything and changes no triple; afterwards nothing is left over. */
  lemma CompactRefines(g: Graph)
    requires WellFormed(g)
    ensures var h := Compact(g);
            && WellFormed(h)
            && Triples(h) == Triples(g)
            && Tight(h)
            && CountEmpty(h.edgePools) == 0
  {
    KeptExact(g);
    var edges, tokens, pools :=
      Kept(|g.edgePools|, LiveEdges(g)), Kept(|g.tokens|, UsedTokens(g)), Kept(|g.pools|, UsedPools(g));
    RestrictRenumbers(g, edges, tokens, pools);
    RenumberedWellFormed(g, Compact(g), edges, tokens, pools);
    RenumberedTriples(g, Compact(g), edges, tokens, pools);
    RenumberedTight(g, Compact(g), edges, tokens, pools);
    CountEmptyZero(Compact(g).edgePools);
  }
}
