/** The token-pool graph as a value: its well-formedness, its meaning as a plain set of
    triples, and every mutation short of compaction. */
module TokenPoolGraph {
  import opened Indexing

  datatype Graph = Graph(
    tokens: seq<nat>,
    pools: seq<nat>,
    adjacency: seq<seq<nat>>,
    edgeTargets: seq<nat>,
    edgePools: seq<seq<nat>>)

  datatype Triple = Triple(from: nat, to: nat, pool: nat)

  const EMPTY := Graph([], [], [], [], [])

  // ----- Well-formedness -----

  ghost predicate AllBelow(s: seq<nat>, n: nat) {
    forall k :: 0 <= k < |s| ==> s[k] < n
  }

  ghost predicate InBounds(g: Graph) {
    && |g.adjacency| == |g.tokens|
    && |g.edgePools| == |g.edgeTargets|
    && (forall i :: 0 <= i < |g.adjacency| ==> AllBelow(g.adjacency[i], |g.edgeTargets|))
    && AllBelow(g.edgeTargets, |g.tokens|)
    && (forall e :: 0 <= e < |g.edgePools| ==> AllBelow(g.edgePools[e], |g.pools|))
  }

  ghost predicate Owns(g: Graph, i: nat, e: nat) {
    i < |g.adjacency| && e in g.adjacency[i]
  }

  /** No edge is listed under two source tokens. */
  ghost predicate SingleOwner(g: Graph) {
    forall i: nat, j: nat, e: nat :: Owns(g, i, e) && Owns(g, j, e) ==> i == j
  }

  /** An edge that carries pools is listed under some source token; only dead edges are orphans. */
  ghost predicate LiveOwned(g: Graph) {
    forall e :: 0 <= e < |g.edgePools| && g.edgePools[e] != [] ==> exists i: nat :: Owns(g, i, e)
  }

  /** There is at most one edge for each ordered pair of tokens. */
  ghost predicate OneEdgePerPair(g: Graph)
    requires InBounds(g)
  {
    && (forall i :: 0 <= i < |g.adjacency| ==> Distinct(g.adjacency[i]))
    && (forall i: nat, e: nat, f: nat :: Owns(g, i, e) && Owns(g, i, f) && g.edgeTargets[e] == g.edgeTargets[f] ==>
          e == f)
  }

  ghost predicate WellFormed(g: Graph) {
    && InBounds(g)
    && Distinct(g.tokens)
    && Distinct(g.pools)
    && SingleOwner(g)
    && LiveOwned(g)
    && OneEdgePerPair(g)
    && (forall e :: 0 <= e < |g.edgePools| ==> Distinct(g.edgePools[e]))
  }

  // ----- Meaning -----

  ghost predicate OnEdge(g: Graph, i: nat, e: nat, q: nat) {
    Owns(g, i, e) && e < |g.edgePools| && q in g.edgePools[e]
  }

  /** Edge `e` of token index `i` carries, at pool index `q`, exactly the triple `t`. */
  ghost predicate Carries(g: Graph, i: nat, e: nat, q: nat, t: Triple)
    requires InBounds(g)
  {
    OnEdge(g, i, e, q) && t == Triple(g.tokens[i], g.tokens[g.edgeTargets[e]], g.pools[q])
  }

  ghost predicate InGraph(g: Graph, t: Triple)
    requires InBounds(g)
  {
    exists i: nat, e: nat, q: nat :: Carries(g, i, e, q, t)
  }

  ghost function Triples(g: Graph): iset<Triple>
    requires InBounds(g)
  {
    iset t: Triple | InGraph(g, t)
  }

  // ----- Adding edges -----

  function WithToken(g: Graph, id: nat): Graph {
    if id in g.tokens then g else g.(tokens := g.tokens + [id], adjacency := g.adjacency + [[]])
  }

  function WithPool(g: Graph, id: nat): Graph {
    if id in g.pools then g else g.(pools := g.pools + [id])
  }

  /** The first edge of an adjacency list that points at token index `to`, or |edges| if none does. */
  function FindEdge(edges: seq<nat>, targets: seq<nat>, to: nat): (k: nat)
    requires AllBelow(edges, |targets|)
    ensures k <= |edges|
    ensures k < |edges| ==> targets[edges[k]] == to
    ensures forall l :: 0 <= l < k ==> targets[edges[l]] != to
  {
    if edges == [] || targets[edges[0]] == to then 0 else 1 + FindEdge(edges[1..], targets, to)
  }

  /** Puts pool index `q` on the edge from token index `i` to `j`, creating or reviving the edge. */
  function Link(g: Graph, i: nat, j: nat, q: nat): Graph
    requires i < |g.adjacency|
    requires |g.edgePools| == |g.edgeTargets|
    requires AllBelow(g.adjacency[i], |g.edgeTargets|)
  {
    var k := FindEdge(g.adjacency[i], g.edgeTargets, j);
    if k < |g.adjacency[i]| then
      var e := g.adjacency[i][k];
      if q in g.edgePools[e] then g else g.(edgePools := g.edgePools[e := g.edgePools[e] + [q]])
    else
      g.(edgeTargets := g.edgeTargets + [j],
         edgePools := g.edgePools + [[q]],
         adjacency := g.adjacency[i := g.adjacency[i] + [|g.edgeTargets|]])
  }

  function WithNames(g: Graph, from: nat, to: nat, pool: nat): Graph {
    WithPool(WithToken(WithToken(g, from), to), pool)
  }

  function AddEdge(g: Graph, from: nat, to: nat, pool: nat): (h: Graph)
    requires WellFormed(g)
    ensures Extends(g, h, iset{Triple(from, to, pool)})
  {
    LinkNamesRefines(g, from, to, pool);
    LinkNames(WithNames(g, from, to, pool), from, to, pool)
  }

  function LinkNames(g: Graph, from: nat, to: nat, pool: nat): Graph
    requires InBounds(g) && from in g.tokens && to in g.tokens && pool in g.pools
  {
    Link(g, IndexOf(g.tokens, from), IndexOf(g.tokens, to), IndexOf(g.pools, pool))
  }

  lemma WithTokenRefines(g: Graph, id: nat)
    requires InBounds(g)
    ensures var h := WithToken(g, id);
            && InBounds(h) && id in h.tokens && g.tokens <= h.tokens && h.pools == g.pools
            && h.edgePools == g.edgePools && h.edgeTargets == g.edgeTargets
            && (forall i: nat, e: nat :: Owns(h, i, e) <==> Owns(g, i, e))
            && Triples(h) == Triples(g)
            && (WellFormed(g) ==> WellFormed(h))
  {
    var h := WithToken(g, id);
    assert forall i: nat, e: nat :: Owns(h, i, e) <==> Owns(g, i, e);
    assert id !in g.tokens ==> h.tokens[|g.tokens|] == id;
    SameTriples(g, h);
  }

  lemma WithPoolRefines(g: Graph, id: nat)
    requires InBounds(g)
    ensures var h := WithPool(g, id);
            && InBounds(h) && id in h.pools && g.pools <= h.pools && h.tokens == g.tokens
            && h.edgePools == g.edgePools
            && Triples(h) == Triples(g)
            && (WellFormed(g) ==> WellFormed(h))
  {
    var h := WithPool(g, id);
    assert forall i: nat, e: nat :: Owns(h, i, e) <==> Owns(g, i, e);
    assert id !in g.pools ==> h.pools[|g.pools|] == id;
    SameTriples(g, h);
  }

  /** Growing the name tables without touching edges changes no triple. */
  lemma SameTriples(g: Graph, h: Graph)
    requires InBounds(g) && InBounds(h)
    requires g.tokens <= h.tokens && g.pools <= h.pools
    requires g.edgePools == h.edgePools && g.edgeTargets == h.edgeTargets
    requires forall i: nat, e: nat :: Owns(h, i, e) <==> Owns(g, i, e)
    ensures Triples(g) == Triples(h)
  {
    forall t: Triple
      ensures t in Triples(g) <==> t in Triples(h)
    {
      if t in Triples(g) {
        var i: nat, e: nat, q: nat :| Carries(g, i, e, q, t);
        assert Carries(h, i, e, q, t);
      }
      if t in Triples(h) {
        var i: nat, e: nat, q: nat :| Carries(h, i, e, q, t);
        assert Carries(g, i, e, q, t);
      }
    }
  }

  /** One more (source, edge, pool) incidence adds exactly one triple. */
  lemma OneMoreTriple(g: Graph, h: Graph, i: nat, e: nat, q: nat, t: Triple)
    requires InBounds(g) && InBounds(h)
    requires g.tokens == h.tokens && g.pools == h.pools && g.edgeTargets <= h.edgeTargets
    requires forall i': nat, e': nat, q': nat :: OnEdge(h, i', e', q') <==>
      OnEdge(g, i', e', q') || (i' == i && e' == e && q' == q)
    requires Carries(h, i, e, q, t)
    ensures Triples(h) == Triples(g) + iset{t}
  {
    forall u: Triple
      ensures u in Triples(h) <==> u in Triples(g) || u == t
    {
      if u in Triples(h) {
        var i': nat, e': nat, q': nat :| Carries(h, i', e', q', u);
        assert OnEdge(h, i', e', q');
        if !(i' == i && e' == e && q' == q) { assert Carries(g, i', e', q', u); }
      }
      if u in Triples(g) {
        var i': nat, e': nat, q': nat :| Carries(g, i', e', q', u);
        assert OnEdge(h, i', e', q');
        assert Carries(h, i', e', q', u);
      }
    }
  }

  lemma LinkRefines(g: Graph, i: nat, j: nat, q: nat)
    requires WellFormed(g) && i < |g.tokens| && j < |g.tokens| && q < |g.pools|
    ensures var h := Link(g, i, j, q);
            && WellFormed(h)
            && Triples(h) == Triples(g) + iset{Triple(g.tokens[i], g.tokens[j], g.pools[q])}
            && CountEmpty(h.edgePools) <= CountEmpty(g.edgePools)
  {
    var k := FindEdge(g.adjacency[i], g.edgeTargets, j);
    if k < |g.adjacency[i]| {
      LinkExisting(g, i, j, q);
    } else {
      LinkNew(g, i, j, q);
    }
  }

  lemma LinkExisting(g: Graph, i: nat, j: nat, q: nat)
    requires WellFormed(g) && i < |g.tokens| && j < |g.tokens| && q < |g.pools|
    requires FindEdge(g.adjacency[i], g.edgeTargets, j) < |g.adjacency[i]|
    ensures var h := Link(g, i, j, q);
            && WellFormed(h)
            && Triples(h) == Triples(g) + iset{Triple(g.tokens[i], g.tokens[j], g.pools[q])}
            && CountEmpty(h.edgePools) <= CountEmpty(g.edgePools)
  {
    var e := g.adjacency[i][FindEdge(g.adjacency[i], g.edgeTargets, j)];
    var h := Link(g, i, j, q);
    assert Owns(g, i, e);
    AppendPool(g, e, q);
    assert OnEdge(h, i, e, q);
    OneMoreTriple(g, h, i, e, q, Triple(g.tokens[i], g.tokens[j], g.pools[q]));
  }

  /** Growing one owned edge's pool list, dead or alive. */
  lemma AppendPool(g: Graph, e: nat, q: nat)
    requires WellFormed(g) && e < |g.edgePools| && q < |g.pools|
    requires exists i: nat :: Owns(g, i, e)
    ensures var h := if q in g.edgePools[e] then g else g.(edgePools := g.edgePools[e := g.edgePools[e] + [q]]);
            && WellFormed(h)
            && (forall i: nat, e': nat :: Owns(h, i, e') <==> Owns(g, i, e'))
            && (forall i: nat, e': nat, q': nat :: OnEdge(h, i, e', q') <==>
                  OnEdge(g, i, e', q') || (Owns(g, i, e') && e' == e && q' == q))
            && CountEmpty(h.edgePools) <= CountEmpty(g.edgePools)
  {
    if q !in g.edgePools[e] {
      var l := g.edgePools[e] + [q];
      var h := g.(edgePools := g.edgePools[e := l]);
      assert forall i: nat, e': nat :: Owns(h, i, e') <==> Owns(g, i, e');
      assert l[|g.edgePools[e]|] == q;
      assert forall q' :: q' in l <==> q' in g.edgePools[e] || q' == q;
      assert LiveOwned(h) by {
        forall e' | 0 <= e' < |h.edgePools| && h.edgePools[e'] != []
          ensures exists i: nat :: Owns(h, i, e')
        {
          var i: nat :| Owns(g, i, e');
          assert Owns(h, i, e');
        }
      }
      forall i: nat, e': nat, q': nat
        ensures OnEdge(h, i, e', q') <==> OnEdge(g, i, e', q') || (Owns(g, i, e') && e' == e && q' == q)
      {
        assert e' == e ==> (q' in h.edgePools[e'] <==> q' in l);
      }
      CountEmptyUpdate(g.edgePools, e, l);
    }
  }

  lemma LinkNew(g: Graph, i: nat, j: nat, q: nat)
    requires WellFormed(g) && i < |g.tokens| && j < |g.tokens| && q < |g.pools|
    requires FindEdge(g.adjacency[i], g.edgeTargets, j) == |g.adjacency[i]|
    ensures var h := Link(g, i, j, q);
            && WellFormed(h)
            && Triples(h) == Triples(g) + iset{Triple(g.tokens[i], g.tokens[j], g.pools[q])}
            && CountEmpty(h.edgePools) <= CountEmpty(g.edgePools)
  {
    var e := |g.edgeTargets|;
    var h := Link(g, i, j, q);
    assert h.adjacency[i][|g.adjacency[i]|] == e;
    assert forall i': nat, e': nat :: Owns(h, i', e') <==> Owns(g, i', e') || (i' == i && e' == e);
    assert InBounds(h);
    LinkNewStructure(g, i, j, q);
    OneMoreTriple(g, h, i, e, q, Triple(g.tokens[i], g.tokens[j], g.pools[q]));
    assert h.edgePools[..|g.edgePools|] == g.edgePools;
  }

  lemma LinkNewStructure(g: Graph, i: nat, j: nat, q: nat)
    requires WellFormed(g) && i < |g.tokens| && j < |g.tokens| && q < |g.pools|
    requires FindEdge(g.adjacency[i], g.edgeTargets, j) == |g.adjacency[i]|
    requires InBounds(Link(g, i, j, q))
    requires forall i': nat, e': nat :: Owns(Link(g, i, j, q), i', e') <==>
      Owns(g, i', e') || (i' == i && e' == |g.edgeTargets|)
    ensures WellFormed(Link(g, i, j, q))
  {
    var h := Link(g, i, j, q);
    var e := |g.edgeTargets|;
    assert forall e' :: e' in g.adjacency[i] ==> g.edgeTargets[e'] != j;
    forall e' | 0 <= e' < |h.edgePools| && h.edgePools[e'] != []
      ensures exists i': nat :: Owns(h, i', e')
    {
      if e' < e {
        var i': nat :| Owns(g, i', e');
        assert Owns(h, i', e');
      } else {
        assert Owns(h, i, e');
      }
    }
  }

  /** `addEdge` unions one triple, whether it creates, extends or revives the edge. */
  lemma LinkNamesRefines(g: Graph, from: nat, to: nat, pool: nat)
    requires WellFormed(g)
    ensures var h := WithNames(g, from, to, pool);
            && InBounds(h) && from in h.tokens && to in h.tokens && pool in h.pools
            && Extends(g, LinkNames(h, from, to, pool), iset{Triple(from, to, pool)})
  {
    var g1 := WithToken(g, from);
    var g2 := WithToken(g1, to);
    WithTokenRefines(g, from);
    WithTokenRefines(g1, to);
    WithPoolRefines(g2, pool);
    var h := WithPool(g2, pool);
    LinkRefines(h, IndexOf(h.tokens, from), IndexOf(h.tokens, to), IndexOf(h.pools, pool));
  }

  // ----- Adding a pool: the clique over its tokens -----

  ghost predicate Extends(g: Graph, h: Graph, added: iset<Triple>)
    requires InBounds(g)
  {
    WellFormed(h) && Triples(h) == Triples(g) + added && CountEmpty(h.edgePools) <= CountEmpty(g.edgePools)
  }

  lemma ExtendsTrans(g: Graph, h: Graph, k: Graph, first: iset<Triple>, second: iset<Triple>, both: iset<Triple>)
    requires InBounds(g) && Extends(g, h, first) && Extends(h, k, second) && both == first + second
    ensures Extends(g, k, both)
  {
  }

  function AddBoth(g: Graph, a: nat, b: nat, pool: nat): (h: Graph)
    requires WellFormed(g)
    ensures Extends(g, h, iset{Triple(a, b, pool), Triple(b, a, pool)})
  {
    var g1 := AddEdge(g, a, b, pool);
    var h := AddEdge(g1, b, a, pool);
    ExtendsTrans(g, g1, h, iset{Triple(a, b, pool)}, iset{Triple(b, a, pool)},
                 iset{Triple(a, b, pool), Triple(b, a, pool)});
    h
  }

  /** After the inner loop has paired position `i` with every position in (i, n). */
  function AddRow(g: Graph, ids: seq<nat>, i: nat, n: nat, pool: nat): (h: Graph)
    requires WellFormed(g) && i < |ids| && n <= |ids|
    ensures Extends(g, h, RowTriples(ids, i, n, pool))
    decreases n
  {
    if n <= i + 1 then
      assert RowTriples(ids, i, n, pool) == iset{};
      g
    else
      var r := AddRow(g, ids, i, n - 1, pool);
      var h := AddBoth(r, ids[i], ids[n - 1], pool);
      RowGrows(ids, i, n, pool);
      ExtendsTrans(g, r, h, RowTriples(ids, i, n - 1, pool),
                   iset{Triple(ids[i], ids[n - 1], pool), Triple(ids[n - 1], ids[i], pool)},
                   RowTriples(ids, i, n, pool));
      h
  }

  /** After `m` rounds of the outer loop. */
  function AddRows(g: Graph, ids: seq<nat>, m: nat, pool: nat): (h: Graph)
    requires WellFormed(g) && m <= |ids|
    ensures Extends(g, h, RowsTriples(ids, m, pool))
  {
    if m == 0 then
      assert RowsTriples(ids, m, pool) == iset{};
      g
    else
      var r := AddRows(g, ids, m - 1, pool);
      var h := AddRow(r, ids, m - 1, |ids|, pool);
      RowsGrow(ids, m, pool);
      ExtendsTrans(g, r, h, RowsTriples(ids, m - 1, pool), RowTriples(ids, m - 1, |ids|, pool),
        RowsTriples(ids, m, pool));
      h
  }

  function Add(g: Graph, ids: seq<nat>, pool: nat): (h: Graph)
    requires WellFormed(g)
  {
    AddRows(g, ids, |ids|, pool)
  }

  ghost predicate Paired(ids: seq<nat>, i: nat, k: nat, pool: nat, t: Triple)
    requires i < |ids| && k < |ids|
  {
    t == Triple(ids[i], ids[k], pool) || t == Triple(ids[k], ids[i], pool)
  }

  ghost predicate InRow(ids: seq<nat>, i: nat, n: nat, pool: nat, t: Triple)
    requires i < |ids| && n <= |ids|
  {
    exists k :: i < k < n && Paired(ids, i, k, pool, t)
  }

  ghost function RowTriples(ids: seq<nat>, i: nat, n: nat, pool: nat): iset<Triple>
    requires i < |ids| && n <= |ids|
  {
    iset t: Triple | InRow(ids, i, n, pool, t)
  }

  ghost predicate InRows(ids: seq<nat>, m: nat, pool: nat, t: Triple)
    requires m <= |ids|
  {
    exists i :: 0 <= i < m && InRow(ids, i, |ids|, pool, t)
  }

  ghost function RowsTriples(ids: seq<nat>, m: nat, pool: nat): iset<Triple>
    requires m <= |ids|
  {
    iset t: Triple | InRows(ids, m, pool, t)
  }

  /** Every ordered pair of two different positions of the pool's token list. */
  ghost predicate InClique(ids: seq<nat>, pool: nat, t: Triple) {
    t.pool == pool && exists i, k :: 0 <= i < |ids| && 0 <= k < |ids| && i != k && ids[i] == t.from && ids[k] == t.to
  }

  ghost function Clique(ids: seq<nat>, pool: nat): iset<Triple> {
    iset t: Triple | InClique(ids, pool, t)
  }

  lemma RowGrows(ids: seq<nat>, i: nat, n: nat, pool: nat)
    requires i + 1 < n <= |ids|
    ensures RowTriples(ids, i, n, pool) == RowTriples(ids, i, n - 1, pool)
              + iset{Triple(ids[i], ids[n - 1], pool), Triple(ids[n - 1], ids[i], pool)}
  {
    assert forall t: Triple :: InRow(ids, i, n, pool, t) <==>
      InRow(ids, i, n - 1, pool, t) || Paired(ids, i, n - 1, pool, t);
  }

  lemma RowsGrow(ids: seq<nat>, m: nat, pool: nat)
    requires 0 < m <= |ids|
    ensures RowsTriples(ids, m, pool) == RowsTriples(ids, m - 1, pool) + RowTriples(ids, m - 1, |ids|, pool)
  {
    assert forall t: Triple :: InRows(ids, m, pool, t) <==>
      InRows(ids, m - 1, pool, t) || InRow(ids, m - 1, |ids|, pool, t);
  }

  /** `add` unions the clique over the pool's tokens, in both directions. */
  lemma AddRefines(g: Graph, ids: seq<nat>, pool: nat)
    requires WellFormed(g)
    ensures Extends(g, Add(g, ids, pool), Clique(ids, pool))
  {
    forall t: Triple
      ensures t in RowsTriples(ids, |ids|, pool) <==> t in Clique(ids, pool)
    {
      if t in Clique(ids, pool) {
        var i, k :| 0 <= i < |ids| && 0 <= k < |ids| && i != k && ids[i] == t.from && ids[k] == t.to;
        var lo, hi := if i < k then i else k, if i < k then k else i;
        assert Paired(ids, lo, hi, pool, t);
        assert InRow(ids, lo, |ids|, pool, t);
      }
      if t in RowsTriples(ids, |ids|, pool) {
        var i :| 0 <= i < |ids| && InRow(ids, i, |ids|, pool, t);
        var k :| i < k < |ids| && Paired(ids, i, k, pool, t);
      }
    }
    assert RowsTriples(ids, |ids|, pool) == Clique(ids, pool);
  }

  // ----- Counting dead edges -----

  ghost function CountEmpty(lists: seq<seq<nat>>): nat {
    if lists == [] then 0
    else CountEmpty(lists[..|lists| - 1]) + if lists[|lists| - 1] == [] then 1 else 0
  }

  lemma {:induction false} CountEmptyIs(lists: seq<seq<nat>>)
    ensures CountEmpty(lists) == |set e | 0 <= e < |lists| && lists[e] == []|
  {
    if lists != [] {
      var n := |lists| - 1;
      CountEmptyIs(lists[..n]);
      var before, after := set e | 0 <= e < n && lists[..n][e] == [], set e | 0 <= e < |lists| && lists[e] == [];
      assert after == before + if lists[n] == [] then {n} else {};
    }
  }

  /** How many positions went from non-empty to empty. */
  ghost function NewlyEmpty(before: seq<seq<nat>>, after: seq<seq<nat>>): nat
    requires |before| == |after|
  {
    if before == [] then 0
    else
      var n := |before| - 1;
      NewlyEmpty(before[..n], after[..n]) + if before[n] != [] && after[n] == [] then 1 else 0
  }

  lemma {:induction false} CountEmptyUpdate(lists: seq<seq<nat>>, e: nat, l: seq<nat>)
    requires e < |lists|
    ensures CountEmpty(lists[e := l]) ==
            CountEmpty(lists) - (if lists[e] == [] then 1 else 0) + (if l == [] then 1 else 0)
  {
    var n := |lists| - 1;
    if e < n {
      CountEmptyUpdate(lists[..n], e, l);
      assert lists[e := l][..n] == lists[..n][e := l];
    } else {
      assert lists[e := l][..n] == lists[..n];
    }
  }

  lemma {:induction false} NewlyEmptySame(lists: seq<seq<nat>>)
    ensures NewlyEmpty(lists, lists) == 0
  {
    if lists != [] { NewlyEmptySame(lists[..|lists| - 1]); }
  }

  lemma {:induction false} NewlyEmptyUpdate(before: seq<seq<nat>>, after: seq<seq<nat>>, e: nat, l: seq<nat>)
    requires |before| == |after| && e < |before| && after[e] == before[e]
    ensures NewlyEmpty(before, after[e := l]) ==
            NewlyEmpty(before, after) + (if before[e] != [] && l == [] then 1 else 0)
  {
    var n := |before| - 1;
    if e < n {
      NewlyEmptyUpdate(before[..n], after[..n], e, l);
      assert after[e := l][..n] == after[..n][e := l];
    } else {
      assert after[e := l][..n] == after[..n];
    }
  }

  /** If no list is refilled, the dead-edge count grows by exactly the newly emptied ones. */
  lemma {:induction false} CountEmptyGrows(before: seq<seq<nat>>, after: seq<seq<nat>>)
    requires |before| == |after|
    requires forall e :: 0 <= e < |before| && before[e] == [] ==> after[e] == []
    ensures CountEmpty(after) == CountEmpty(before) + NewlyEmpty(before, after)
  {
    if before != [] {
      var n := |before| - 1;
      CountEmptyGrows(before[..n], after[..n]);
    }
  }

  lemma {:induction false} CountEmptyZero(lists: seq<seq<nat>>)
    requires forall e :: 0 <= e < |lists| ==> lists[e] != []
    ensures CountEmpty(lists) == 0
  {
    if lists != [] { CountEmptyZero(lists[..|lists| - 1]); }
  }

  // ----- Removing -----

  function Without(s: seq<nat>, q: nat): (r: seq<nat>)
    ensures forall x :: x in r <==> x in s && x != q
    ensures q !in s ==> r == s
  {
    if s == [] then []
    else Without(s[..|s| - 1], q) + if s[|s| - 1] == q then [] else [s[|s| - 1]]
  }

  lemma {:induction false} WithoutDistinct(s: seq<nat>, q: nat)
    requires Distinct(s)
    ensures Distinct(Without(s, q))
  {
    if s != [] {
      WithoutDistinct(s[..|s| - 1], q);
      assert s[|s| - 1] !in s[..|s| - 1];
    }
  }

  /** The pool lists of every edge with pool index `q` taken out. */
  function DropPool(lists: seq<seq<nat>>, q: nat): (r: seq<seq<nat>>)
    ensures |r| == |lists|
    ensures forall e :: 0 <= e < |lists| ==> r[e] == Without(lists[e], q)
  {
    seq(|lists|, e requires 0 <= e < |lists| => Without(lists[e], q))
  }

  function RemovePool(g: Graph, pool: nat): Graph {
    if pool in g.pools then g.(edgePools := DropPool(g.edgePools, IndexOf(g.pools, pool))) else g
  }

  /** The pool lists with every edge out of or into token index `i` emptied. */
  function DropToken(g: Graph, i: nat): (r: seq<seq<nat>>)
    requires i < |g.adjacency| && |g.edgePools| == |g.edgeTargets|
    ensures |r| == |g.edgePools|
    ensures forall e :: 0 <= e < |r| ==>
      r[e] == if e in g.adjacency[i] || g.edgeTargets[e] == i then [] else g.edgePools[e]
  {
    seq(|g.edgePools|, e requires 0 <= e < |g.edgePools| =>
      if e in g.adjacency[i] || g.edgeTargets[e] == i then [] else g.edgePools[e])
  }

  function RemoveToken(g: Graph, token: nat): Graph
    requires InBounds(g)
  {
    if token in g.tokens then
      var i := IndexOf(g.tokens, token);
      g.(edgePools := DropToken(g, i), adjacency := g.adjacency[i := []])
    else g
  }

  ghost function OfPool(pool: nat): iset<Triple> {
    iset t: Triple | t.pool == pool
  }

  ghost function OfToken(token: nat): iset<Triple> {
    iset t: Triple | t.from == token || t.to == token
  }

  lemma RemovePoolWellFormed(g: Graph, pool: nat)
    requires WellFormed(g) && pool in g.pools
    ensures WellFormed(RemovePool(g, pool))
  {
    var h := RemovePool(g, pool);
    assert forall i: nat, e: nat :: Owns(h, i, e) <==> Owns(g, i, e);
    forall e | 0 <= e < |h.edgePools|
      ensures Distinct(h.edgePools[e]) && AllBelow(h.edgePools[e], |h.pools|)
      ensures h.edgePools[e] != [] ==> exists i: nat :: Owns(h, i, e)
    {
      WithoutDistinct(g.edgePools[e], IndexOf(g.pools, pool));
      forall k | 0 <= k < |h.edgePools[e]| ensures h.edgePools[e][k] < |h.pools| {
        assert h.edgePools[e][k] in g.edgePools[e];
      }
      if h.edgePools[e] != [] {
        assert h.edgePools[e][0] in g.edgePools[e];
        var i: nat :| Owns(g, i, e);
        assert Owns(h, i, e);
      }
    }
  }

  lemma RemovePoolTriples(g: Graph, pool: nat)
    requires WellFormed(g) && pool in g.pools && InBounds(RemovePool(g, pool))
    ensures Triples(RemovePool(g, pool)) == Triples(g) - OfPool(pool)
  {
    var h := RemovePool(g, pool);
    forall t: Triple
      ensures t in Triples(h) <==> t in Triples(g) && t.pool != pool
    {
      if t in Triples(h) {
        var i: nat, e: nat, q: nat :| Carries(h, i, e, q, t);
        assert Carries(g, i, e, q, t);
      }
      if t in Triples(g) && t.pool != pool {
        var i: nat, e: nat, q: nat :| Carries(g, i, e, q, t);
        assert Carries(h, i, e, q, t);
      }
    }
  }

  lemma RemovePoolRefines(g: Graph, pool: nat)
    requires WellFormed(g)
    ensures var h := RemovePool(g, pool);
            && WellFormed(h)
            && Triples(h) == Triples(g) - OfPool(pool)
            && |h.edgePools| == |g.edgePools|
            && CountEmpty(h.edgePools) == CountEmpty(g.edgePools) + NewlyEmpty(g.edgePools, h.edgePools)
  {
    var h := RemovePool(g, pool);
    if pool in g.pools {
      RemovePoolWellFormed(g, pool);
      RemovePoolTriples(g, pool);
    } else {
      forall t | t in Triples(g) ensures t.pool != pool {
        var i: nat, e: nat, q: nat :| Carries(g, i, e, q, t);
      }
    }
    CountEmptyGrows(g.edgePools, h.edgePools);
  }

  lemma RemoveTokenRefines(g: Graph, token: nat)
    requires WellFormed(g)
    ensures var h := RemoveToken(g, token);
            && WellFormed(h)
            && Triples(h) == Triples(g) - OfToken(token)
            && |h.edgePools| == |g.edgePools|
            && CountEmpty(h.edgePools) == CountEmpty(g.edgePools) + NewlyEmpty(g.edgePools, h.edgePools)
  {
    var h := RemoveToken(g, token);
    if token in g.tokens {
      RemoveTokenWellFormed(g, token);
      RemoveTokenTriples(g, token);
    } else {
      forall t | t in Triples(g) ensures t.from != token && t.to != token {
        var i: nat, e: nat, q: nat :| Carries(g, i, e, q, t);
      }
    }
    CountEmptyGrows(g.edgePools, h.edgePools);
  }

  /** Names and targets stay until compaction; only the removed token gives up its edges. */
  lemma RemovalKeepsNames(g: Graph, pool: nat, token: nat)
    requires WellFormed(g)
    ensures var h := RemovePool(g, pool); h == g.(edgePools := h.edgePools)
    ensures var h := RemoveToken(g, token);
            && h == g.(edgePools := h.edgePools, adjacency := h.adjacency) && |h.adjacency| == |g.adjacency|
            && (forall i :: 0 <= i < |g.tokens| ==>
                  h.adjacency[i] == if g.tokens[i] == token then [] else g.adjacency[i])
  {
  }

  lemma RemoveTokenWellFormed(g: Graph, token: nat)
    requires WellFormed(g) && token in g.tokens
    ensures WellFormed(RemoveToken(g, token))
  {
    var h := RemoveToken(g, token);
    var i := IndexOf(g.tokens, token);
    assert forall j: nat, e: nat :: Owns(h, j, e) <==> Owns(g, j, e) && j != i;
    forall e | 0 <= e < |h.edgePools| && h.edgePools[e] != []
      ensures exists j: nat :: Owns(h, j, e)
    {
      var j: nat :| Owns(g, j, e);
      assert Owns(h, j, e);
    }
  }

  lemma RemoveTokenTriples(g: Graph, token: nat)
    requires WellFormed(g) && token in g.tokens
    requires InBounds(RemoveToken(g, token))
    ensures Triples(RemoveToken(g, token)) == Triples(g) - OfToken(token)
  {
    var h := RemoveToken(g, token);
    var i := IndexOf(g.tokens, token);
    assert forall j: nat, e: nat :: Owns(h, j, e) <==> Owns(g, j, e) && j != i;
    forall t: Triple
      ensures t in Triples(h) <==> t in Triples(g) && t.from != token && t.to != token
    {
      if t in Triples(h) {
        var j: nat, e: nat, q: nat :| Carries(h, j, e, q, t);
        assert Carries(g, j, e, q, t);
      }
      if t in Triples(g) && t.from != token && t.to != token {
        var j: nat, e: nat, q: nat :| Carries(g, j, e, q, t);
        assert !Owns(g, i, e);
        assert Carries(h, j, e, q, t);
      }
    }
  }
}
