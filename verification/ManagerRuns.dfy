/** The registry manager over values: registering one pool across the three systems, a batch as the fold of
    single registrations, and what every run of the manager keeps. */
module ManagerRuns {
  import opened Indexing
  import opened Outcome
  import opened PoolSystems
  import PR = PoolRegistry
  import Graphs = TokenPoolGraph
  import Runs = TokenPoolsRuns

  type Address = nat

  datatype Request = Request(key: PR.Key, tokens: seq<Address>, name: PR.ProtocolID)

  /** A single registration reports a bare TokenNotFound; a batch names the missing token. */
  datatype Error = TokenNotFound | MissingToken(a: Address) | PoolError(e: PR.Error)

  datatype World = World(pools: PR.Pools, graph: Runs.Registry)

  /** Consistent registries, and every pool on a live edge is registered. */
  ghost predicate Sound(w: World) {
    && PR.Consistent(w.pools)
    && Runs.Settled(w.graph)
    && forall t :: t in Graphs.Triples(w.graph.graph) ==> t.pool in PR.Contents(w.pools)
  }

  // ----- One registration -----

  predicate AllKnown(lookup: map<Address, nat>, tokens: seq<Address>) {
    forall k :: 0 <= k < |tokens| ==> tokens[k] in lookup
  }

  function TokenIDs(lookup: map<Address, nat>, tokens: seq<Address>): (ids: seq<nat>)
    requires AllKnown(lookup, tokens)
    ensures |ids| == |tokens| && forall k :: 0 <= k < |ids| ==> ids[k] == lookup[tokens[k]]
  {
    seq(|tokens|, k requires 0 <= k < |tokens| => lookup[tokens[k]])
  }

  ghost function RegisterOne(w: World, lookup: map<Address, nat>, q: Request): (World, Result<(nat, seq<nat>), Error>)
    requires PR.Consistent(w.pools) && Runs.Settled(w.graph)
  {
    if !AllKnown(lookup, q.tokens) then (w, Err(TokenNotFound))
    else
      var (p, r) := PR.Added(w.pools, q.key, q.name);
      match r
      case Err(e) => (w, Err(PoolError(e)))
      case Ok(id) =>
        var ids := TokenIDs(lookup, q.tokens);
        (World(p, Runs.Apply(w.graph, Runs.AddPool(ids, id))), Ok((id, ids)))
  }

  lemma RegisterOneKeeps(w: World, lookup: map<Address, nat>, q: Request)
    requires PR.Consistent(w.pools) && Runs.Settled(w.graph)
    ensures var v := RegisterOne(w, lookup, q).0;
            PR.Consistent(v.pools) && Runs.Settled(v.graph) && (Sound(w) ==> Sound(v))
  {
    PR.AddedRefines(w.pools, q.key, q.name);
    var (v, r) := RegisterOne(w, lookup, q);
    if r.Ok? {
      Runs.ApplyRefines(w.graph, Runs.AddPool(r.value.1, r.value.0));
    }
  }

  /** What one registration does: an unknown token, a blocked key or an exhausted dictionary changes nothing; otherwise
      the pool is registered under its key and name, and its tokens' clique is linked, also when the key was known. */
  lemma RegisterOneRefines(w: World, lookup: map<Address, nat>, q: Request)
    requires PR.Consistent(w.pools) && Runs.Settled(w.graph)
    ensures var (v, r) := RegisterOne(w, lookup, q);
            && (r.Err? ==> v == w)
            && (r == Err(TokenNotFound) <==> exists k :: 0 <= k < |q.tokens| && q.tokens[k] !in lookup)
            && (r == Err(PoolError(PR.PoolBlocked)) <==>
                  q.key in w.pools.blockList && forall k :: 0 <= k < |q.tokens| ==> q.tokens[k] in lookup)
            && (r.Ok? ==>
                  var (id, ids) := r.value;
                  && PR.Consistent(v.pools) && Runs.Settled(v.graph)
                  && id in PR.Contents(v.pools) && PR.Contents(v.pools)[id].key == q.key
                  && PR.Contents(v.pools) - {id} == PR.Contents(w.pools) - {id}
                  && |ids| == |q.tokens|
                  && (forall k :: 0 <= k < |ids| ==> q.tokens[k] in lookup && ids[k] == lookup[q.tokens[k]])
                  && Graphs.Triples(v.graph.graph) == Graphs.Triples(w.graph.graph) + Graphs.Clique(ids, id))
  {
    hide PR.Added, PR.Registered;
    PR.AddedRefines(w.pools, q.key, q.name);
    var (v, r) := RegisterOne(w, lookup, q);
    if r.Ok? {
      Runs.ApplyRefines(w.graph, Runs.AddPool(r.value.1, r.value.0));
    }
  }

  ghost function RegisterAll(w: World, lookup: map<Address, nat>,
                             qs: seq<Request>): (r: (World, seq<Result<(nat, seq<nat>), Error>>))
    requires PR.Consistent(w.pools) && Runs.Settled(w.graph)
    ensures PR.Consistent(r.0.pools) && Runs.Settled(r.0.graph) && |r.1| == |qs| && (Sound(w) ==> Sound(r.0))
  {
    if qs == [] then (w, [])
    else
      var n := |qs| - 1;
      var (v, rs) := RegisterAll(w, lookup, qs[..n]);
      RegisterOneKeeps(v, lookup, qs[n]);
      var (u, r) := RegisterOne(v, lookup, qs[n]);
      (u, rs + [r])
  }

  // ----- The batch: filter, add all, link all -----

  /** Positions among the first `n` whose tokens are all known, ascending. */
  ghost function Viable(lookup: map<Address, nat>, qs: seq<Request>, n: nat): (at: seq<nat>)
    requires n <= |qs|
    ensures forall j :: 0 <= j < |at| ==> at[j] < n && AllKnown(lookup, qs[at[j]].tokens)
    ensures forall j, k :: 0 <= j < k < |at| ==> at[j] < at[k]
  {
    if n == 0 then []
    else Viable(lookup, qs, n - 1) + if AllKnown(lookup, qs[n - 1].tokens) then [n - 1] else []
  }

  lemma {:induction false} ViableComplete(lookup: map<Address, nat>, qs: seq<Request>, n: nat, i: nat)
    requires i < n <= |qs|
    ensures AllKnown(lookup, qs[i].tokens) <==> i in Viable(lookup, qs, n)
  {
    var at := Viable(lookup, qs, n - 1);
    if i < n - 1 { ViableComplete(lookup, qs, n - 1, i); }
    if i == n - 1 && AllKnown(lookup, qs[i].tokens) { assert Viable(lookup, qs, n)[|at|] == i; }
  }

  function KeysAt(qs: seq<Request>, at: seq<nat>): (r: seq<PR.Key>)
    requires forall j :: 0 <= j < |at| ==> at[j] < |qs|
    ensures |r| == |at| && forall j :: 0 <= j < |at| ==> r[j] == qs[at[j]].key
  {
    seq(|at|, j requires 0 <= j < |at| => qs[at[j]].key)
  }

  function NamesAt(qs: seq<Request>, at: seq<nat>): (r: seq<PR.ProtocolID>)
    requires forall j :: 0 <= j < |at| ==> at[j] < |qs|
    ensures |r| == |at| && forall j :: 0 <= j < |at| ==> r[j] == qs[at[j]].name
  {
    seq(|at|, j requires 0 <= j < |at| => qs[at[j]].name)
  }

  ghost predicate Positions(lookup: map<Address, nat>, qs: seq<Request>, at: seq<nat>) {
    forall j :: 0 <= j < |at| ==> at[j] < |qs| && AllKnown(lookup, qs[at[j]].tokens)
  }

  /** The pools to link: one entry for each addition that succeeded, in order. */
  ghost function LinksOf(lookup: map<Address, nat>, qs: seq<Request>, at: seq<nat>,
                         rs: seq<Result<nat, PR.Error>>): seq<LinkOp>
    requires Positions(lookup, qs, at) && |at| == |rs|
  {
    if rs == [] then []
    else
      var n := |rs| - 1;
      LinksOf(lookup, qs, at[..n], rs[..n]) +
        if rs[n].Ok? then [LinkOp(TokenIDs(lookup, qs[at[n]].tokens), rs[n].value)] else []
  }

  /** What the fold says about one viable position. */
  ghost function AsResult(lookup: map<Address, nat>, q: Request,
                          r: Result<nat, PR.Error>): Result<(nat, seq<nat>), Error>
    requires AllKnown(lookup, q.tokens)
  {
    match r
    case Ok(id) => Ok((id, TokenIDs(lookup, q.tokens)))
    case Err(e) => Err(PoolError(e))
  }

  /** The state a filtered batch reaches. */
  ghost function BatchWorld(w: World, lookup: map<Address, nat>, qs: seq<Request>, n: nat): World
    requires PR.Consistent(w.pools) && Runs.Settled(w.graph) && n <= |qs|
  {
    var at := Viable(lookup, qs, n);
    var (p, rs) := AddAll(w.pools, KeysAt(qs, at), NamesAt(qs, at));
    World(p, LinkAll(w.graph, LinksOf(lookup, qs, at, rs)))
  }

  ghost predicate BatchResults(w: World, lookup: map<Address, nat>, qs: seq<Request>, n: nat,
                               results: seq<Result<(nat, seq<nat>), Error>>)
    requires PR.Consistent(w.pools) && n <= |qs|
  {
    var at := Viable(lookup, qs, n);
    var rs := AddAll(w.pools, KeysAt(qs, at), NamesAt(qs, at)).1;
    && |results| == n
    && (forall i :: 0 <= i < n && i !in at ==> results[i] == Err(TokenNotFound))
    && (forall j :: 0 <= j < |at| ==> results[at[j]] == AsResult(lookup, qs[at[j]], rs[j]))
  }

  /** Batching is folding: filtering first, adding all keys and then linking all pools reaches the very state, IDs and
      errors of registering one request after another. */
  lemma {:induction false} BatchIsFold(w: World, lookup: map<Address, nat>, qs: seq<Request>, n: nat)
    requires PR.Consistent(w.pools) && Runs.Settled(w.graph) && n <= |qs|
    ensures RegisterAll(w, lookup, qs[..n]).0 == BatchWorld(w, lookup, qs, n)
    ensures BatchResults(w, lookup, qs, n, RegisterAll(w, lookup, qs[..n]).1)
  {
    hide PR.Consistent, Runs.Settled, Sound, RegisterAll, RegisterOne, BatchWorld, BatchResults, AllKnown;
    if n == 0 {
      BatchNone(w, lookup, qs);
    } else {
      BatchIsFold(w, lookup, qs, n - 1);
      RegisterAllStep(w, lookup, qs, n);
      var results := RegisterAll(w, lookup, qs[..n - 1]).1;
      if AllKnown(lookup, qs[n - 1].tokens) {
        ViableStep(w, lookup, qs, n, results);
      } else {
        SkippedStep(w, lookup, qs, n, results);
      }
    }
  }

  lemma BatchNone(w: World, lookup: map<Address, nat>, qs: seq<Request>)
    requires PR.Consistent(w.pools) && Runs.Settled(w.graph)
    ensures RegisterAll(w, lookup, qs[..0]) == (w, [])
    ensures BatchWorld(w, lookup, qs, 0) == w && BatchResults(w, lookup, qs, 0, [])
  {
  }

  lemma RegisterAllStep(w: World, lookup: map<Address, nat>, qs: seq<Request>, n: nat)
    requires PR.Consistent(w.pools) && Runs.Settled(w.graph) && 0 < n <= |qs|
    ensures var (v, rs) := RegisterAll(w, lookup, qs[..n - 1]);
            var (u, r) := RegisterOne(v, lookup, qs[n - 1]);
            RegisterAll(w, lookup, qs[..n]) == (u, rs + [r])
  {
    hide PR.Consistent, Runs.Settled, Sound, RegisterOne;
    assert qs[..n][..n - 1] == qs[..n - 1];
  }

  lemma SkippedStep(w: World, lookup: map<Address, nat>, qs: seq<Request>, n: nat,
                    results: seq<Result<(nat, seq<nat>), Error>>)
    requires PR.Consistent(w.pools) && Runs.Settled(w.graph) && 0 < n <= |qs| && !AllKnown(lookup, qs[n - 1].tokens)
    requires BatchResults(w, lookup, qs, n - 1, results)
    requires PR.Consistent(BatchWorld(w, lookup, qs, n - 1).pools)
    requires Runs.Settled(BatchWorld(w, lookup, qs, n - 1).graph)
    ensures var (v, r) := RegisterOne(BatchWorld(w, lookup, qs, n - 1), lookup, qs[n - 1]);
            && BatchWorld(w, lookup, qs, n) == v
            && BatchResults(w, lookup, qs, n, results + [r])
  {
    hide PR.Consistent, PR.Added, PR.Contents, Runs.Settled, Runs.Apply, AddAll, LinkAll, LinksOf, AllKnown;
    assert Viable(lookup, qs, n) == Viable(lookup, qs, n - 1);
  }

  lemma KeysExtend(lookup: map<Address, nat>, qs: seq<Request>, n: nat)
    requires 0 < n <= |qs| && AllKnown(lookup, qs[n - 1].tokens)
    ensures var at := Viable(lookup, qs, n - 1);
            && Viable(lookup, qs, n) == at + [n - 1]
            && KeysAt(qs, at + [n - 1]) == KeysAt(qs, at) + [qs[n - 1].key]
            && NamesAt(qs, at + [n - 1]) == NamesAt(qs, at) + [qs[n - 1].name]
  {
  }

  lemma LinksExtend(lookup: map<Address, nat>, qs: seq<Request>, at: seq<nat>, rs: seq<Result<nat, PR.Error>>, i: nat,
                    r: Result<nat, PR.Error>)
    requires Positions(lookup, qs, at) && |at| == |rs| && i < |qs| && AllKnown(lookup, qs[i].tokens)
    ensures Positions(lookup, qs, at + [i])
    ensures LinksOf(lookup, qs, at + [i], rs + [r]) ==
            LinksOf(lookup, qs, at, rs) + if r.Ok? then [LinkOp(TokenIDs(lookup, qs[i].tokens), r.value)] else []
  {
    assert (at + [i])[..|at|] == at && (rs + [r])[..|rs|] == rs;
  }

  lemma ViableStep(w: World, lookup: map<Address, nat>, qs: seq<Request>, n: nat,
                   results: seq<Result<(nat, seq<nat>), Error>>)
    requires PR.Consistent(w.pools) && Runs.Settled(w.graph) && 0 < n <= |qs| && AllKnown(lookup, qs[n - 1].tokens)
    requires BatchResults(w, lookup, qs, n - 1, results)
    requires PR.Consistent(BatchWorld(w, lookup, qs, n - 1).pools)
    requires Runs.Settled(BatchWorld(w, lookup, qs, n - 1).graph)
    ensures var (v, r) := RegisterOne(BatchWorld(w, lookup, qs, n - 1), lookup, qs[n - 1]);
            && BatchWorld(w, lookup, qs, n) == v
            && BatchResults(w, lookup, qs, n, results + [r])
  {
    hide PR.Consistent, PR.Added, PR.Contents, Runs.Settled, Runs.Apply, AddAll, LinkAll, LinksOf, Viable;
    var q := qs[n - 1];
    var at := Viable(lookup, qs, n - 1);
    KeysExtend(lookup, qs, n);
    var (p, rs) := AddAll(w.pools, KeysAt(qs, at), NamesAt(qs, at));
    AddAllExtend(w.pools, KeysAt(qs, at), NamesAt(qs, at), q.key, q.name);
    var r := PR.Added(p, q.key, q.name).1;
    LinksExtend(lookup, qs, at, rs, n - 1, r);
    var links := LinksOf(lookup, qs, at, rs);
    if r.Ok? {
      LinkAllExtend(w.graph, links, LinkOp(TokenIDs(lookup, q.tokens), r.value));
    } else {
      assert links + [] == links;
    }
  }

  // ----- Deletions -----

  ghost function DeleteOne(w: World, id: nat): (World, Result<(), PR.Error>)
    requires PR.Consistent(w.pools) && Runs.Settled(w.graph)
  {
    var (p, r) := PR.Deleted(w.pools, id);
    match r
    case Err(e) => (w, Err(e))
    case Ok(_) => (World(p, Runs.Apply(w.graph, Runs.RemovePool(id))), Ok(()))
  }

  ghost function DeleteMany(w: World, ids: seq<nat>): World
    requires PR.Consistent(w.pools) && Runs.Settled(w.graph)
  {
    World(DeleteAll(w.pools, ids).0, UnlinkAll(w.graph, ids))
  }

  lemma DeleteOneKeeps(w: World, id: nat)
    requires Sound(w)
    ensures Sound(DeleteOne(w, id).0)
  {
    PR.DeletedRefines(w.pools, id);
    Runs.ApplyRefines(w.graph, Runs.RemovePool(id));
  }

  /** A deletion takes the pool, if registered, and its edges, and nothing else. */
  lemma DeleteOneRefines(w: World, id: nat)
    requires Sound(w)
    ensures var (v, r) := DeleteOne(w, id);
            && Sound(v)
            && PR.Contents(v.pools) == PR.Contents(w.pools) - {id}
            && Graphs.Triples(v.graph.graph) == Graphs.Triples(w.graph.graph) - Graphs.OfPool(id)
            && v.pools.nextID == w.pools.nextID && v.pools.blockList == w.pools.blockList
            && r == if id in PR.Contents(w.pools) then Ok(()) else Err(PR.PoolNotFound)
  {
    DeleteOneKeeps(w, id);
    PR.DeletedRefines(w.pools, id);
    Runs.ApplyRefines(w.graph, Runs.RemovePool(id));
    if id !in PR.Contents(w.pools) {
      assert forall t :: t in Graphs.Triples(w.graph.graph) ==> t.pool != id;
      assert Graphs.Triples(w.graph.graph) - Graphs.OfPool(id) == Graphs.Triples(w.graph.graph);
    }
  }

  lemma {:induction false} DeleteAllContents(p: PR.Pools, ids: seq<nat>)
    requires PR.Consistent(p)
    ensures var q := DeleteAll(p, ids).0;
            && PR.Contents(q) == PR.Contents(p) - Elements(ids)
            && q.nextID == p.nextID && q.blockList == p.blockList
  {
    hide PR.Consistent, PR.Deleted, PR.Contents;
    if ids != [] {
      var n := |ids| - 1;
      DeleteAllContents(p, ids[..n]);
      PR.DeletedRefines(DeleteAll(p, ids[..n]).0, ids[n]);
      assert ids == ids[..n] + [ids[n]];
    }
  }

  /** A position fails exactly when its pool is unknown or an earlier position has deleted it. */
  lemma {:induction false} DeleteAllResults(p: PR.Pools, ids: seq<nat>, i: nat)
    requires PR.Consistent(p) && i < |ids|
    ensures DeleteAll(p, ids).1[i] ==
            if ids[i] in PR.Contents(p) && ids[i] !in ids[..i] then Ok(()) else Err(PR.PoolNotFound)
  {
    hide PR.Deleted, PR.Contents;
    var n := |ids| - 1;
    if i < n {
      DeleteAllResults(p, ids[..n], i);
      assert ids[..n][..i] == ids[..i];
    } else {
      DeleteAllContents(p, ids[..n]);
      var q := DeleteAll(p, ids[..n]).0;
      PR.DeletedRefines(q, ids[n]);
      assert ids[n] in PR.Contents(q) <==> ids[n] in PR.Contents(p) && ids[n] !in ids[..n];
      var r := PR.Deleted(q, ids[n]).1;
      assert DeleteAll(p, ids).1 == DeleteAll(p, ids[..n]).1 + [r];
      assert r.Ok? ==> r.value == ();
    }
  }

  lemma {:induction false} UnlinkAllTriples(g: Runs.Registry, ids: seq<nat>)
    requires Runs.Settled(g)
    ensures forall t :: t in Graphs.Triples(UnlinkAll(g, ids).graph) <==> t in Graphs.Triples(g.graph) && t.pool !in ids
  {
    hide Runs.Settled, Runs.Apply, Graphs.Triples, Graphs.InBounds;
    if ids != [] {
      var n := |ids| - 1;
      UnlinkAllTriples(g, ids[..n]);
      Runs.ApplyRefines(UnlinkAll(g, ids[..n]), Runs.RemovePool(ids[n]));
      assert ids == ids[..n] + [ids[n]];
    }
  }

  lemma DeleteManyKeeps(w: World, ids: seq<nat>)
    requires Sound(w)
    ensures Sound(DeleteMany(w, ids))
  {
    DeleteAllContents(w.pools, ids);
    UnlinkAllTriples(w.graph, ids);
  }

  /** A batch deletion takes the listed pools and their edges, and nothing else. */
  lemma DeleteManyRefines(w: World, ids: seq<nat>)
    requires Sound(w)
    ensures var v := DeleteMany(w, ids);
            && Sound(v)
            && PR.Contents(v.pools) == PR.Contents(w.pools) - Elements(ids)
            && (forall t :: t in Graphs.Triples(v.graph.graph) <==>
                  t in Graphs.Triples(w.graph.graph) && t.pool !in ids)
            && v.pools.nextID == w.pools.nextID && v.pools.blockList == w.pools.blockList
  {
    DeleteManyKeeps(w, ids);
    DeleteAllContents(w.pools, ids);
    UnlinkAllTriples(w.graph, ids);
  }

  // ----- Runs -----

  /** Each registration comes with the token lookup of its moment. */
  datatype Op =
    | Register(lookup: map<Address, nat>, q: Request)
    | RegisterBatch(lookup: map<Address, nat>, qs: seq<Request>)
    | Delete(id: nat)
    | DeleteBatch(ids: seq<nat>)
    | Block(key: PR.Key)
    | Unblock(key: PR.Key)

  ghost function Apply(w: World, op: Op): (v: World)
    requires Sound(w)
    ensures Sound(v)
  {
    match op
    case Register(lookup, q) =>
      RegisterOneKeeps(w, lookup, q);
      RegisterOne(w, lookup, q).0
    case RegisterBatch(lookup, qs) =>
      BatchIsFold(w, lookup, qs, |qs|);
      assert qs[..|qs|] == qs;
      BatchWorld(w, lookup, qs, |qs|)
    case Delete(id) =>
      DeleteOneKeeps(w, id);
      DeleteOne(w, id).0
    case DeleteBatch(ids) =>
      DeleteManyKeeps(w, ids);
      DeleteMany(w, ids)
    case Block(key) => w.(pools := PR.Apply(w.pools, PR.Block(key)))
    case Unblock(key) => w.(pools := PR.Apply(w.pools, PR.Unblock(key)))
  }

  /** What each operation means to the registered pools, the graph's triples and the block list. */
  lemma ApplyMeans(w: World, op: Op)
    requires Sound(w)
    ensures var v := Apply(w, op);
            && (op.Register? ==> v == RegisterOne(w, op.lookup, op.q).0)
            && (op.RegisterBatch? ==> v == RegisterAll(w, op.lookup, op.qs).0)
            && (op.Delete? ==>
                  && PR.Contents(v.pools) == PR.Contents(w.pools) - {op.id}
                  && Graphs.Triples(v.graph.graph) == Graphs.Triples(w.graph.graph) - Graphs.OfPool(op.id))
            && (op.DeleteBatch? ==>
                  && PR.Contents(v.pools) == PR.Contents(w.pools) - Elements(op.ids)
                  && forall t :: t in Graphs.Triples(v.graph.graph) <==>
                       t in Graphs.Triples(w.graph.graph) && t.pool !in op.ids)
            && (op.Block? ==> v == w.(pools := w.pools.(blockList := w.pools.blockList + {op.key})))
            && (op.Unblock? ==> v == w.(pools := w.pools.(blockList := w.pools.blockList - {op.key})))
  {
    hide RegisterOne, RegisterAll, BatchWorld, BatchResults, DeleteOne, DeleteMany, PR.Contents, Graphs.Triples;
    match op
    case Register(_, _) =>
    case RegisterBatch(lookup, qs) =>
      BatchIsFold(w, lookup, qs, |qs|);
      assert qs[..|qs|] == qs;
    case Delete(id) => DeleteOneRefines(w, id);
    case DeleteBatch(ids) => DeleteManyRefines(w, ids);
    case Block(key) => PR.ApplyMeans(w.pools, PR.Block(key));
    case Unblock(key) => PR.ApplyMeans(w.pools, PR.Unblock(key));
  }

  ghost function Start(compactionThreshold: int): (w: World)
    ensures Sound(w) && PR.Contents(w.pools) == map[] && Graphs.Triples(w.graph.graph) == iset{}
  {
    World(PR.EMPTY, Runs.New(compactionThreshold))
  }

  ghost function Run(compactionThreshold: int, ops: seq<Op>): (w: World)
    ensures Sound(w)
  {
    if ops == [] then Start(compactionThreshold)
    else Apply(Run(compactionThreshold, ops[..|ops| - 1]), ops[|ops| - 1])
  }

  lemma RunStep(compactionThreshold: int, ops: seq<Op>, op: Op)
    ensures Run(compactionThreshold, []) == Start(compactionThreshold)
    ensures Run(compactionThreshold, ops + [op]) == Apply(Run(compactionThreshold, ops), op)
  {
    assert (ops + [op])[..|ops|] == ops;
  }

  /** In every sequential run from empty systems, a pool that any token's edges lead to is in the pool registry. */
  lemma LivePoolsRegistered(compactionThreshold: int, ops: seq<Op>, t: Graphs.Triple)
    requires t in Graphs.Triples(Run(compactionThreshold, ops).graph.graph)
    ensures t.pool in PR.Contents(Run(compactionThreshold, ops).pools)
  {
    assert Sound(Run(compactionThreshold, ops));
  }
}
