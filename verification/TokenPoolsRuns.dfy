/** The registry as a state machine over values: the graph with its lazy-deletion counter.
    Every run refines a plain set of triples. */
module TokenPoolsRuns {
  import opened TokenPoolGraph
  import opened GraphCompaction

  datatype Registry = Registry(graph: Graph, dangling: nat, threshold: nat)

  datatype Op = AddPool(tokens: seq<nat>, pool: nat) | RemovePool(pool: nat) | RemoveToken(token: nat)

  /** Holds after every completed operation: dead edges are bounded by the counter, the counter by the threshold. */
  ghost predicate Settled(r: Registry) {
    && WellFormed(r.graph)
    && CountEmpty(r.graph.edgePools) <= r.dangling <= r.threshold
    && r.threshold > 0
  }

  function New(compactionThreshold: int): (r: Registry)
    ensures Settled(r) && Triples(r.graph) == iset{} && r.graph == EMPTY && r.dangling == 0
    ensures r.threshold == if compactionThreshold <= 0 then 1000 else compactionThreshold
  {
    assert Triples(EMPTY) == iset{} by {
      forall t: Triple ensures t !in Triples(EMPTY) {
      }
    }
    Registry(EMPTY, 0, if compactionThreshold <= 0 then 1000 else compactionThreshold)
  }

  ghost function CompactAll(r: Registry): Registry
    requires WellFormed(r.graph)
  {
    if r.dangling == 0 then r else Registry(Compact(r.graph), 0, r.threshold)
  }

  /** The removal's new pool lists, its counter increments, and the compaction it may trigger. */
  ghost function Cleared(r: Registry, g: Graph): Registry
    requires WellFormed(g) && |g.edgePools| == |r.graph.edgePools|
  {
    var s := Registry(g, r.dangling + NewlyEmpty(r.graph.edgePools, g.edgePools), r.threshold);
    if s.dangling > s.threshold then CompactAll(s) else s
  }

  ghost function Apply(r: Registry, op: Op): (s: Registry)
    requires WellFormed(r.graph)
  {
    match op
    case AddPool(tokens, pool) =>
      r.(graph := Add(r.graph, tokens, pool))
    case RemovePool(pool) =>
      RemovePoolRefines(r.graph, pool);
      if pool in r.graph.pools then Cleared(r, TokenPoolGraph.RemovePool(r.graph, pool)) else r
    case RemoveToken(token) =>
      RemoveTokenRefines(r.graph, token);
      if token in r.graph.tokens then Cleared(r, TokenPoolGraph.RemoveToken(r.graph, token)) else r
  }

  /** What an operation means to the set of triples, with no notion of edges or compaction. */
  ghost function Meaning(ts: iset<Triple>, op: Op): iset<Triple> {
    match op
    case AddPool(tokens, pool) => ts + Clique(tokens, pool)
    case RemovePool(pool) => ts - OfPool(pool)
    case RemoveToken(token) => ts - OfToken(token)
  }

  lemma ClearedRefines(r: Registry, g: Graph)
    requires Settled(r) && WellFormed(g) && |g.edgePools| == |r.graph.edgePools|
    requires CountEmpty(g.edgePools) == CountEmpty(r.graph.edgePools) + NewlyEmpty(r.graph.edgePools, g.edgePools)
    ensures var s := Cleared(r, g);
            && Settled(s) && s.threshold == r.threshold
            && Triples(s.graph) == Triples(g)
            && var count := r.dangling + NewlyEmpty(r.graph.edgePools, g.edgePools);
               if count > r.threshold then Tight(s.graph) && s.dangling == 0 else s.graph == g && s.dangling == count
  {
    CompactRefines(g);
  }

  /** One operation, with its hidden compaction, keeps the bound and refines the set of triples. */
  lemma ApplyRefines(r: Registry, op: Op)
    requires Settled(r)
    ensures var s := Apply(r, op);
            Settled(s) && s.threshold == r.threshold && Triples(s.graph) == Meaning(Triples(r.graph), op)
  {
    match op
    case AddPool(tokens, pool) =>
      AddRefines(r.graph, tokens, pool);
    case RemovePool(pool) =>
      RemovePoolRefines(r.graph, pool);
      if pool in r.graph.pools { ClearedRefines(r, TokenPoolGraph.RemovePool(r.graph, pool)); }
    case RemoveToken(token) =>
      RemoveTokenRefines(r.graph, token);
      if token in r.graph.tokens { ClearedRefines(r, TokenPoolGraph.RemoveToken(r.graph, token)); }
  }

  ghost function Run(compactionThreshold: int, ops: seq<Op>): (r: Registry)
    ensures Settled(r) && r.threshold == if compactionThreshold <= 0 then 1000 else compactionThreshold
  {
    if ops == [] then New(compactionThreshold)
    else
      var prev := Run(compactionThreshold, ops[..|ops| - 1]);
      ApplyRefines(prev, ops[|ops| - 1]);
      Apply(prev, ops[|ops| - 1])
  }

  ghost function MeaningOfRun(ops: seq<Op>): iset<Triple> {
    if ops == [] then iset{} else Meaning(MeaningOfRun(ops[..|ops| - 1]), ops[|ops| - 1])
  }

  ghost predicate Symmetric(ts: iset<Triple>) {
    forall t: Triple :: t in ts <==> Triple(t.to, t.from, t.pool) in ts
  }

  lemma MeaningSymmetric(ts: iset<Triple>, op: Op)
    requires Symmetric(ts)
    ensures Symmetric(Meaning(ts, op))
  {
    if op.AddPool? {
      forall t: Triple | InClique(op.tokens, op.pool, t)
        ensures InClique(op.tokens, op.pool, Triple(t.to, t.from, t.pool))
      {
        var i, k :|
          0 <= i < |op.tokens| && 0 <= k < |op.tokens| && i != k && op.tokens[i] == t.from && op.tokens[k] == t.to;
        assert op.tokens[k] == t.to;
      }
      forall t: Triple
        ensures t in Meaning(ts, op) <==> Triple(t.to, t.from, t.pool) in Meaning(ts, op)
      {
        var u := Triple(t.to, t.from, t.pool);
        assert t == Triple(u.to, u.from, u.pool);
        assert t in ts <==> u in ts;
      }
    }
  }

  /** Every run from the empty registry: the graph means exactly the fold of its operations over
      a plain set, that relation is symmetric, and lazy deletion stays bounded. */
  lemma {:induction false} RunRefines(compactionThreshold: int, ops: seq<Op>)
    ensures var r := Run(compactionThreshold, ops);
            && WellFormed(r.graph)
            && Triples(r.graph) == MeaningOfRun(ops)
            && Symmetric(Triples(r.graph))
            && CountEmpty(r.graph.edgePools) <= r.dangling
            && r.dangling <= if compactionThreshold <= 0 then 1000 else compactionThreshold
  {
    if ops != [] {
      var n := |ops| - 1;
      RunRefines(compactionThreshold, ops[..n]);
      ApplyRefines(Run(compactionThreshold, ops[..n]), ops[n]);
      MeaningSymmetric(MeaningOfRun(ops[..n]), ops[n]);
    }
  }
}
