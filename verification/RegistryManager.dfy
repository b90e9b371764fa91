/** The manager that keeps the token, pool and graph systems in step: single and batch registration and deletion. */
module RegistryManager {
  import opened Indexing
  import opened Outcome
  import opened PoolSystems
  import opened ManagerRuns
  import PR = PoolRegistry
  import Graphs = TokenPoolGraph
  import Runs = TokenPoolsRuns
  import TR = TokenRegistry

  /** Results as the batch returns them: zero and empty where a request failed, nil errors when none did. */
  datatype BatchReply = BatchReply(ids: seq<nat>, tokenIDs: seq<seq<nat>>, errs: Option<seq<Option<Error>>>)

  /** A slice as `make` leaves it. */
  function Fill<T>(n: nat, x: T): (s: seq<T>)
    ensures |s| == n && forall i :: 0 <= i < n ==> s[i] == x
  {
    seq(n, _ => x)
  }

  function FirstMissing(lookup: map<Address, nat>, tokens: seq<Address>): (a: Address)
    requires !AllKnown(lookup, tokens)
    ensures a in tokens && a !in lookup
  {
    if tokens[0] !in lookup then tokens[0] else FirstMissing(lookup, tokens[1..])
  }

  /** The pre-flight check of one request. */
  ghost function Preflight(lookup: map<Address, nat>, q: Request): Option<Error> {
    if AllKnown(lookup, q.tokens) then None else Some(MissingToken(FirstMissing(lookup, q.tokens)))
  }

  /** The batch's wording of what a single registration reports. */
  ghost function BatchError(lookup: map<Address, nat>, q: Request,
                            r: Result<(nat, seq<nat>), Error>): (e: Option<Error>)
    ensures e.Some? <==> r.Err?
    ensures e.Some? && AllKnown(lookup, q.tokens) ==> e.value == r.error
    ensures e.Some? && !AllKnown(lookup, q.tokens) ==> e.value == MissingToken(FirstMissing(lookup, q.tokens))
  {
    match r
    case Ok(_) => None
    case Err(e) => if AllKnown(lookup, q.tokens) then Some(e) else Some(MissingToken(FirstMissing(lookup, q.tokens)))
  }

  /** Position for position, the reply says what the one-at-a-time results say. */
  ghost predicate Agrees(reply: BatchReply, lookup: map<Address, nat>, qs: seq<Request>,
                         results: seq<Result<(nat, seq<nat>), Error>>)
    requires |qs| == |results|
  {
    && |reply.ids| == |qs| && |reply.tokenIDs| == |qs|
    && (forall i :: 0 <= i < |qs| ==> reply.ids[i] == if results[i].Ok? then results[i].value.0 else 0)
    && (forall i :: 0 <= i < |qs| ==> reply.tokenIDs[i] == if results[i].Ok? then results[i].value.1 else [])
    && (reply.errs.None? ==> forall i :: 0 <= i < |qs| ==> results[i].Ok?)
    && (reply.errs.Some? ==> |reply.errs.value| == |qs|)
    && (reply.errs.Some? ==> exists i :: 0 <= i < |qs| && results[i].Err?)
    && (reply.errs.Some? ==> forall i :: 0 <= i < |qs| ==> reply.errs.value[i] == BatchError(lookup, qs[i], results[i]))
  }

  // ----- The batch's steps over local slices -----

  /** Step 1: the distinct addresses a batch mentions. */
  method UniqueTokens(qs: seq<Request>) returns (unique: set<Address>)
    ensures forall i, k :: 0 <= i < |qs| && 0 <= k < |qs[i].tokens| ==> qs[i].tokens[k] in unique
  {
    unique := {};
    for i := 0 to |qs|
      invariant forall j, k :: 0 <= j < i && 0 <= k < |qs[j].tokens| ==> qs[j].tokens[k] in unique
    {
      for k := 0 to |qs[i].tokens|
        invariant forall j, l :: 0 <= j < i && 0 <= l < |qs[j].tokens| ==> qs[j].tokens[l] in unique
        invariant forall l :: 0 <= l < k ==> qs[i].tokens[l] in unique
      {
        unique := unique + {qs[i].tokens[k]};
      }
    }
  }

  /** `missing` and `ids` answer for every address in `unique` as the token system does. */
  ghost predicate Resolved(lookup: map<Address, nat>, unique: set<Address>, ids: map<Address, nat>,
                           missing: set<Address>) {
    forall a :: a in unique ==>
      (a in missing <==> a !in lookup) && (a in lookup ==> a in ids && ids[a] == lookup[a])
  }

  ghost predicate Mentions(unique: set<Address>, qs: seq<Request>) {
    forall i, k :: 0 <= i < |qs| && 0 <= k < |qs[i].tokens| ==> qs[i].tokens[k] in unique
  }

  method FindMissing(tokens: seq<Address>, missing: set<Address>, ghost lookup: map<Address, nat>)
    returns (r: Option<Address>)
    requires forall k :: 0 <= k < |tokens| ==> (tokens[k] in missing <==> tokens[k] !in lookup)
    ensures r.None? <==> AllKnown(lookup, tokens)
    ensures r.Some? ==> r.value == FirstMissing(lookup, tokens)
  {
    for k := 0 to |tokens|
      invariant forall l :: 0 <= l < k ==> tokens[l] in lookup
    {
      if tokens[k] in missing {
        FirstMissingAt(lookup, tokens, k);
        return Some(tokens[k]);
      }
    }
    return None;
  }

  lemma {:induction false} FirstMissingAt(lookup: map<Address, nat>, tokens: seq<Address>, k: nat)
    requires k < |tokens| && tokens[k] !in lookup && forall l :: 0 <= l < k ==> tokens[l] in lookup
    ensures !AllKnown(lookup, tokens) && FirstMissing(lookup, tokens) == tokens[k]
  {
    if k > 0 {
      assert tokens[1..][k - 1] == tokens[k];
      FirstMissingAt(lookup, tokens[1..], k - 1);
    }
  }

  /** Step 2: the viable positions, and an error at every other. */
  method Filter(qs: seq<Request>, missing: set<Address>, ghost lookup: map<Address, nat>, ghost unique: set<Address>,
                ghost ids: map<Address, nat>)
    returns (at: seq<nat>, errs: seq<Option<Error>>)
    requires Resolved(lookup, unique, ids, missing) && Mentions(unique, qs)
    ensures at == Viable(lookup, qs, |qs|)
    ensures |errs| == |qs|
    ensures forall i :: 0 <= i < |qs| ==>
      errs[i] == Preflight(lookup, qs[i])
  {
    at, errs := [], [];
    for i := 0 to |qs|
      invariant at == Viable(lookup, qs, i)
      invariant |errs| == i
      invariant forall k :: 0 <= k < i ==>
        errs[k] == Preflight(lookup, qs[k])
    {
      var absent := FindMissing(qs[i].tokens, missing, lookup);
      if absent.Some? {
        errs := errs + [Some(MissingToken(absent.value))];
      } else {
        errs := errs + [None];
        at := at + [i];
      }
    }
  }

  method ResolveIDs(tokens: seq<Address>, ids: map<Address, nat>, ghost lookup: map<Address, nat>) returns (r: seq<nat>)
    requires AllKnown(lookup, tokens)
    requires forall k :: 0 <= k < |tokens| ==> tokens[k] in ids && ids[tokens[k]] == lookup[tokens[k]]
    ensures r == TokenIDs(lookup, tokens)
  {
    r := [];
    for k := 0 to |tokens|
      invariant |r| == k && forall l :: 0 <= l < k ==> r[l] == lookup[tokens[l]]
    {
      r := r + [ids[tokens[k]]];
    }
  }

  /** What the pre-flight check hands on. */
  ghost predicate Ready(lookup: map<Address, nat>, qs: seq<Request>, at: seq<nat>, base: seq<Option<Error>>,
                        ids: map<Address, nat>) {
    && at == Viable(lookup, qs, |qs|)
    && |base| == |qs|
    && (forall i :: 0 <= i < |qs| ==>
          base[i] == Preflight(lookup, qs[i]))
    && (forall j, k :: 0 <= j < |at| && 0 <= k < |qs[at[j]].tokens| ==>
          qs[at[j]].tokens[k] in ids && ids[qs[at[j]].tokens[k]] == lookup[qs[at[j]].tokens[k]])
  }

  /** How the outcome `r` of adding a viable request shows in the three result slices. */
  ghost predicate Lands(lookup: map<Address, nat>, q: Request, r: Result<nat, PR.Error>, poolID: nat,
                        tokenIDs: seq<nat>, err: Option<Error>)
    requires AllKnown(lookup, q.tokens)
  {
    && poolID == (if r.Ok? then r.value else 0)
    && tokenIDs == (if r.Ok? then TokenIDs(lookup, q.tokens) else [])
    && err == if r.Ok? then None else Some(PoolError(r.error))
  }

  /** What steps 3 and 4 leave at each position. */
  ghost predicate Scattered(lookup: map<Address, nat>, qs: seq<Request>, at: seq<nat>, rs: seq<Result<nat, PR.Error>>,
                            base: seq<Option<Error>>, poolIDs: seq<nat>, sets: seq<seq<nat>>, errs: seq<Option<Error>>)
    requires Positions(lookup, qs, at) && |rs| <= |at| && |base| == |qs|
  {
    && |poolIDs| == |sets| == |errs| == |qs|
    && (forall j :: 0 <= j < |rs| ==> Lands(lookup, qs[at[j]], rs[j], poolIDs[at[j]], sets[at[j]], errs[at[j]]))
    && (forall i :: 0 <= i < |qs| && i !in at[..|rs|] ==> poolIDs[i] == 0 && sets[i] == [] && errs[i] == base[i])
  }

  /** Steps 3 and 4: carry errors and successes back to their original positions and gather the pools to link. */
  method Scatter(qs: seq<Request>, at: seq<nat>, ids: map<Address, nat>, newIDs: seq<nat>,
                 addErrs: Option<seq<Option<PR.Error>>>,
                 base: seq<Option<Error>>, ghost lookup: map<Address, nat>, ghost rs: seq<Result<nat, PR.Error>>)
    returns (poolIDs: seq<nat>, sets: seq<seq<nat>>, errs: seq<Option<Error>>, links: seq<LinkOp>)
    requires Ready(lookup, qs, at, base, ids) && |at| == |rs| && Issued(rs)
    requires newIDs == IdsOf(rs) && addErrs == Reported(rs)
    ensures Scattered(lookup, qs, at, rs, base, poolIDs, sets, errs)
    ensures links == LinksOf(lookup, qs, at, rs)
  {
    ScatterNone(lookup, qs, at, base, ids, rs);
    hide LinksOf, Scattered, Viable, AnyErr, ErrsOf, IdsOf, Ready, Positions, Reported;
    poolIDs, sets, errs, links := Fill<nat>(|qs|, 0), Fill<seq<nat>>(|qs|, []), base, [];
    for j := 0 to |newIDs|
      invariant Placed(lookup, qs, at, rs, base, j, poolIDs, sets, errs, links)
    {
      Round(lookup, qs, at, base, ids, rs, j, poolIDs, sets, errs, links);
      poolIDs, sets, errs, links :=
        Place(qs[at[j]], at[j], ids, newIDs[j], ErrAt(addErrs, j), poolIDs, sets, errs, links, lookup, rs[j]);
    }
    AllPlaced(lookup, qs, at, rs, base, poolIDs, sets, errs, links);
  }

  /** After `j` rounds. */
  ghost predicate Placed(lookup: map<Address, nat>, qs: seq<Request>, at: seq<nat>, rs: seq<Result<nat, PR.Error>>,
                         base: seq<Option<Error>>,
                         j: nat, poolIDs: seq<nat>, sets: seq<seq<nat>>, errs: seq<Option<Error>>, links: seq<LinkOp>) {
    && Positions(lookup, qs, at) && |at| == |rs| && |base| == |qs| && j <= |rs|
    && Scattered(lookup, qs, at, rs[..j], base, poolIDs, sets, errs)
    && links == LinksOf(lookup, qs, at[..j], rs[..j])
  }

  lemma AllPlaced(lookup: map<Address, nat>, qs: seq<Request>, at: seq<nat>, rs: seq<Result<nat, PR.Error>>,
                  base: seq<Option<Error>>,
                  poolIDs: seq<nat>, sets: seq<seq<nat>>, errs: seq<Option<Error>>, links: seq<LinkOp>)
    requires Placed(lookup, qs, at, rs, base, |rs|, poolIDs, sets, errs, links)
    ensures Positions(lookup, qs, at) && |at| == |rs| && |base| == |qs|
    ensures Scattered(lookup, qs, at, rs, base, poolIDs, sets, errs) && links == LinksOf(lookup, qs, at, rs)
  {
    assert at[..|at|] == at && rs[..|rs|] == rs;
  }

  lemma Round(lookup: map<Address, nat>, qs: seq<Request>, at: seq<nat>, base: seq<Option<Error>>,
              ids: map<Address, nat>,
              rs: seq<Result<nat, PR.Error>>, j: nat, poolIDs: seq<nat>, sets: seq<seq<nat>>, errs: seq<Option<Error>>,
              links: seq<LinkOp>)
    requires Ready(lookup, qs, at, base, ids) && |at| == |rs| && j < |rs|
    requires Placed(lookup, qs, at, rs, base, j, poolIDs, sets, errs, links)
    ensures at[j] < |qs| == |poolIDs| == |sets| == |errs| && AllKnown(lookup, qs[at[j]].tokens)
    ensures var q := qs[at[j]];
            forall k :: 0 <= k < |q.tokens| ==> q.tokens[k] in ids && ids[q.tokens[k]] == lookup[q.tokens[k]]
    ensures |IdsOf(rs)| == |rs| && IdsOf(rs)[j] == if rs[j].Ok? then rs[j].value else 0
    ensures Reported(rs).Some? ==> j < |Reported(rs).value|
    ensures ErrAt(Reported(rs), j) == if rs[j].Err? then Some(rs[j].error) else None
    ensures var (i, r) := (at[j], rs[j]);
            Placed(lookup, qs, at, rs, base, j + 1,
                   if r.Ok? then poolIDs[i := r.value] else poolIDs,
                   if r.Ok? then sets[i := TokenIDs(lookup, qs[i].tokens)] else sets,
                   if r.Ok? then errs else errs[i := Some(PoolError(r.error))],
                   links + if r.Ok? then [LinkOp(TokenIDs(lookup, qs[i].tokens), r.value)] else [])
  {
    hide LinksOf, Scattered, Viable, AnyErr, ErrsOf, IdsOf, Ready, Reported;
    ReadyAt(lookup, qs, at, base, ids, j);
    ReadyPositions(lookup, qs, at, base, ids);
    ReportedAt(rs, j);
    ScatterStep(lookup, qs, at, rs, base, poolIDs, sets, errs, j);
    assert rs[..j + 1] == rs[..j] + [rs[j]] && at[..j + 1] == at[..j] + [at[j]];
    LinksExtend(lookup, qs, at[..j], rs[..j], at[j], rs[j]);
  }

  lemma ReadyPositions(lookup: map<Address, nat>, qs: seq<Request>, at: seq<nat>, base: seq<Option<Error>>,
                       ids: map<Address, nat>)
    requires Ready(lookup, qs, at, base, ids)
    ensures Positions(lookup, qs, at) && |base| == |qs| && forall j, k :: 0 <= j < k < |at| ==> at[j] < at[k]
  {
  }

  lemma ReadyAt(lookup: map<Address, nat>, qs: seq<Request>, at: seq<nat>, base: seq<Option<Error>>,
                ids: map<Address, nat>, j: nat)
    requires Ready(lookup, qs, at, base, ids) && j < |at|
    ensures at[j] < |qs| && AllKnown(lookup, qs[at[j]].tokens) && |base| == |qs| && base[at[j]].None?
    ensures var q := qs[at[j]];
            forall k :: 0 <= k < |q.tokens| ==> q.tokens[k] in ids && ids[q.tokens[k]] == lookup[q.tokens[k]]
    ensures Positions(lookup, qs, at) && Positions(lookup, qs, at[..j])
  {
  }

  lemma ScatterNone(lookup: map<Address, nat>, qs: seq<Request>, at: seq<nat>, base: seq<Option<Error>>,
                    ids: map<Address, nat>,
                    rs: seq<Result<nat, PR.Error>>)
    requires Ready(lookup, qs, at, base, ids) && |at| == |rs|
    ensures |IdsOf(rs)| == |rs|
    ensures Placed(lookup, qs, at, rs, base, 0, Fill<nat>(|qs|, 0), Fill<seq<nat>>(|qs|, []), base, [])
  {
    assert at[..0] == [] && rs[..0] == [];
  }

  function ErrAt(errs: Option<seq<Option<PR.Error>>>, j: nat): Option<PR.Error>
    requires errs.Some? ==> j < |errs.value|
  {
    if errs.None? then None else errs.value[j]
  }

  lemma ReportedAt(rs: seq<Result<nat, PR.Error>>, j: nat)
    requires j < |rs|
    ensures Reported(rs).Some? ==> |Reported(rs).value| == |rs|
    ensures ErrAt(Reported(rs), j) == if rs[j].Err? then Some(rs[j].error) else None
    ensures |IdsOf(rs)| == |rs| && IdsOf(rs)[j] == if rs[j].Ok? then rs[j].value else 0
  {
  }

  /** One round of step 4: skip a failed addition, or record the ID, the token IDs and the link. */
  method Place(q: Request, i: nat, ids: map<Address, nat>, newID: nat, err: Option<PR.Error>,
               poolIDs: seq<nat>, sets: seq<seq<nat>>, errs: seq<Option<Error>>, links: seq<LinkOp>,
               ghost lookup: map<Address, nat>, ghost r: Result<nat, PR.Error>)
    returns (poolIDs': seq<nat>, sets': seq<seq<nat>>, errs': seq<Option<Error>>, links': seq<LinkOp>)
    requires i < |poolIDs| && i < |sets| && i < |errs| && AllKnown(lookup, q.tokens)
    requires forall k :: 0 <= k < |q.tokens| ==> q.tokens[k] in ids && ids[q.tokens[k]] == lookup[q.tokens[k]]
    requires r.Ok? ==> r.value > 0
    requires newID == (if r.Ok? then r.value else 0) && err == if r.Err? then Some(r.error) else None
    ensures poolIDs' == if r.Ok? then poolIDs[i := r.value] else poolIDs
    ensures sets' == if r.Ok? then sets[i := TokenIDs(lookup, q.tokens)] else sets
    ensures errs' == if r.Ok? then errs else errs[i := Some(PoolError(r.error))]
    ensures links' == links + if r.Ok? then [LinkOp(TokenIDs(lookup, q.tokens), r.value)] else []
  {
    poolIDs', sets', errs', links' := poolIDs, sets, errs, links;
    if err.Some? {
      errs' := errs[i := Some(PoolError(err.value))];
    } else if newID == 0 {
      assert false; // The consistency error is never reported: issued IDs are positive.
    } else {
      var tokenIDs := ResolveIDs(q.tokens, ids, lookup);
      poolIDs' := poolIDs[i := newID];
      sets' := sets[i := tokenIDs];
      links' := links + [LinkOp(tokenIDs, newID)];
    }
  }

  lemma ScatterStep(lookup: map<Address, nat>, qs: seq<Request>, at: seq<nat>, rs: seq<Result<nat, PR.Error>>,
                    base: seq<Option<Error>>, poolIDs: seq<nat>, sets: seq<seq<nat>>, errs: seq<Option<Error>>, j: nat)
    requires Positions(lookup, qs, at) && |at| == |rs| && |base| == |qs| && j < |rs|
    requires forall k, l :: 0 <= k < l < |at| ==> at[k] < at[l]
    requires Scattered(lookup, qs, at, rs[..j], base, poolIDs, sets, errs)
    ensures |poolIDs| == |sets| == |errs| == |qs|
    ensures var i := at[j];
            if rs[j].Ok? then base[i].None? ==>
              Scattered(lookup, qs, at, rs[..j + 1], base,
                        poolIDs[i := rs[j].value], sets[i := TokenIDs(lookup, qs[i].tokens)], errs)
            else Scattered(lookup, qs, at, rs[..j + 1], base, poolIDs, sets, errs[i := Some(PoolError(rs[j].error))])
  {
    var i := at[j];
    assert |rs[..j]| == j && |rs[..j + 1]| == j + 1;
    assert at[..j + 1] == at[..j] + [i];
    assert i !in at[..j];
    if rs[j].Ok? && base[i].None? {
      var newIDs, newSets := poolIDs[i := rs[j].value], sets[i := TokenIDs(lookup, qs[i].tokens)];
      LandsAll(lookup, qs, at, rs, base, poolIDs, sets, errs, newIDs, newSets, errs, j);
    } else if rs[j].Err? {
      var newErrs := errs[i := Some(PoolError(rs[j].error))];
      LandsAll(lookup, qs, at, rs, base, poolIDs, sets, errs, poolIDs, sets, newErrs, j);
    }
  }

  lemma LandsAll(lookup: map<Address, nat>, qs: seq<Request>, at: seq<nat>, rs: seq<Result<nat, PR.Error>>,
                 base: seq<Option<Error>>,
                 poolIDs: seq<nat>, sets: seq<seq<nat>>, errs: seq<Option<Error>>,
                 newIDs: seq<nat>, newSets: seq<seq<nat>>, newErrs: seq<Option<Error>>, j: nat)
    requires Positions(lookup, qs, at) && |at| == |rs| && |base| == |qs| && j < |rs|
    requires forall k, l :: 0 <= k < l < |at| ==> at[k] < at[l]
    requires Scattered(lookup, qs, at, rs[..j], base, poolIDs, sets, errs)
    requires |newIDs| == |newSets| == |newErrs| == |qs|
    requires forall i :: 0 <= i < |qs| && i != at[j] ==>
      newIDs[i] == poolIDs[i] && newSets[i] == sets[i] && newErrs[i] == errs[i]
    requires Lands(lookup, qs[at[j]], rs[j], newIDs[at[j]], newSets[at[j]], newErrs[at[j]])
    ensures Scattered(lookup, qs, at, rs[..j + 1], base, newIDs, newSets, newErrs)
  {
    hide Lands;
    var rest := rs[..j + 1];
    assert at[..j + 1] == at[..j] + [at[j]];
    forall k | 0 <= k < |rest|
      ensures Lands(lookup, qs[at[k]], rest[k], newIDs[at[k]], newSets[at[k]], newErrs[at[k]])
    {
      assert rs[..j + 1][k] == rs[k];
      if k < j {
        assert Lands(lookup, qs[at[k]], rs[..j][k], poolIDs[at[k]], sets[at[k]], errs[at[k]]);
      }
    }
  }

  /** A filtered batch's slices agree with the results of registering one request after another. */
  lemma ScatteredAgrees(w: World, lookup: map<Address, nat>, qs: seq<Request>, at: seq<nat>,
                        rs: seq<Result<nat, PR.Error>>,
                        base: seq<Option<Error>>, ids: map<Address, nat>, poolIDs: seq<nat>, sets: seq<seq<nat>>,
                        errs: seq<Option<Error>>, results: seq<Result<(nat, seq<nat>), Error>>)
    requires PR.Consistent(w.pools) && Ready(lookup, qs, at, base, ids)
    requires rs == AddAll(w.pools, KeysAt(qs, at), NamesAt(qs, at)).1
    requires Scattered(lookup, qs, at, rs, base, poolIDs, sets, errs)
    requires BatchResults(w, lookup, qs, |qs|, results)
    ensures |results| == |qs|
    ensures var failed := exists i :: 0 <= i < |errs| && errs[i].Some?;
            Agrees(BatchReply(poolIDs, sets, if failed then Some(errs) else None), lookup, qs, results)
  {
    hide PR.Consistent, AddAll, Viable, Ready, Scattered, BatchResults, BatchError;
    ScatteredLengths(w, lookup, qs, at, rs, base, ids, poolIDs, sets, errs, results);
    forall i: nat | i < |qs| ensures Agree(poolIDs[i], sets[i], errs[i], lookup, qs[i], results[i]) {
      AgreesAt(w, lookup, qs, at, rs, base, ids, poolIDs, sets, errs, results, i);
    }
    assert forall i :: 0 <= i < |qs| ==> Agree(poolIDs[i], sets[i], errs[i], lookup, qs[i], results[i]);
  }

  /** Agreement at one position. */
  ghost predicate Agree(poolID: nat, tokenIDs: seq<nat>, err: Option<Error>, lookup: map<Address, nat>, q: Request,
                        r: Result<(nat, seq<nat>), Error>) {
    && poolID == (if r.Ok? then r.value.0 else 0)
    && tokenIDs == (if r.Ok? then r.value.1 else [])
    && err == BatchError(lookup, q, r)
    && (err.Some? <==> r.Err?)
  }

  lemma ScatteredLengths(w: World, lookup: map<Address, nat>, qs: seq<Request>, at: seq<nat>,
                         rs: seq<Result<nat, PR.Error>>,
                         base: seq<Option<Error>>, ids: map<Address, nat>, poolIDs: seq<nat>, sets: seq<seq<nat>>,
                         errs: seq<Option<Error>>, results: seq<Result<(nat, seq<nat>), Error>>)
    requires PR.Consistent(w.pools) && Ready(lookup, qs, at, base, ids)
    requires rs == AddAll(w.pools, KeysAt(qs, at), NamesAt(qs, at)).1
    requires Scattered(lookup, qs, at, rs, base, poolIDs, sets, errs)
    requires BatchResults(w, lookup, qs, |qs|, results)
    ensures |results| == |qs| == |poolIDs| == |sets| == |errs|
  {
  }

  lemma AgreesAt(w: World, lookup: map<Address, nat>, qs: seq<Request>, at: seq<nat>, rs: seq<Result<nat, PR.Error>>,
                 base: seq<Option<Error>>, ids: map<Address, nat>, poolIDs: seq<nat>, sets: seq<seq<nat>>,
                 errs: seq<Option<Error>>,
                 results: seq<Result<(nat, seq<nat>), Error>>, i: nat)
    requires PR.Consistent(w.pools) && Ready(lookup, qs, at, base, ids) && i < |qs|
    requires rs == AddAll(w.pools, KeysAt(qs, at), NamesAt(qs, at)).1
    requires Scattered(lookup, qs, at, rs, base, poolIDs, sets, errs)
    requires BatchResults(w, lookup, qs, |qs|, results)
    ensures |results| == |qs| == |poolIDs| == |sets| == |errs|
    ensures Agree(poolIDs[i], sets[i], errs[i], lookup, qs[i], results[i])
  {
    hide PR.Consistent, AddAll, Viable, FirstMissing, TokenIDs, KeysAt, NamesAt;
    assert at[..|rs|] == at;
    ViableComplete(lookup, qs, |qs|, i);
    if i in at {
      var j :| 0 <= j < |at| && at[j] == i;
      assert Lands(lookup, qs[at[j]], rs[j], poolIDs[at[j]], sets[at[j]], errs[at[j]]);
      assert results[at[j]] == AsResult(lookup, qs[at[j]], rs[j]);
    }
  }

  /** Without a viable request the batch stops after the pre-flight check, and that is all there is to do. */
  lemma NoneViable(w: World, lookup: map<Address, nat>, qs: seq<Request>, at: seq<nat>, base: seq<Option<Error>>,
                   ids: map<Address, nat>,
                   results: seq<Result<(nat, seq<nat>), Error>>)
    requires PR.Consistent(w.pools) && Runs.Settled(w.graph) && Ready(lookup, qs, at, base, ids) && at == []
    requires BatchResults(w, lookup, qs, |qs|, results)
    ensures BatchWorld(w, lookup, qs, |qs|) == w && |results| == |qs| == |base|
    ensures (forall i :: 0 <= i < |base| ==> base[i].None?) ==> |qs| == 0
    ensures var failed := exists i :: 0 <= i < |base| && base[i].Some?;
            Agrees(BatchReply(Fill<nat>(|qs|, 0), Fill<seq<nat>>(|qs|, []), if failed then Some(base) else None),
                   lookup, qs, results)
  {
    hide PR.Consistent, Runs.Settled, Scattered, Agrees;
    NoneAdded(w.pools);
    assert KeysAt(qs, at) == [] && NamesAt(qs, at) == [];
    ScatterNone(lookup, qs, at, base, ids, []);
    AllPlaced(lookup, qs, at, [], base, Fill<nat>(|qs|, 0), Fill<seq<nat>>(|qs|, []), base, []);
    ScatteredAgrees(w, lookup, qs, at, [], base, ids, Fill<nat>(|qs|, 0), Fill<seq<nat>>(|qs|, []), base, results);
    if |qs| > 0 { ViableComplete(lookup, qs, |qs|, 0); }
  }

  /** Steps 3 and 4 and the reply, once the keys are added. */
  method Finish(qs: seq<Request>, at: seq<nat>, base: seq<Option<Error>>, ids: map<Address, nat>, newIDs: seq<nat>,
                addErrs: Option<seq<Option<PR.Error>>>, ghost w: World, ghost lookup: map<Address, nat>,
                ghost results: seq<Result<(nat, seq<nat>), Error>>)
    returns (reply: BatchReply, links: seq<LinkOp>)
    requires PR.Consistent(w.pools) && Ready(lookup, qs, at, base, ids) && BatchResults(w, lookup, qs, |qs|, results)
    requires var rs := AddAll(w.pools, KeysAt(qs, at), NamesAt(qs, at)).1;
             newIDs == IdsOf(rs) && addErrs == Reported(rs)
    ensures Agrees(reply, lookup, qs, results)
    ensures links == LinksOf(lookup, qs, at, AddAll(w.pools, KeysAt(qs, at), NamesAt(qs, at)).1)
  {
    hide PR.Consistent, AddAll, LinksOf, Scattered, Agrees, BatchResults, Issued;
    ghost var rs := AddAll(w.pools, KeysAt(qs, at), NamesAt(qs, at)).1;
    AddAllIssued(w.pools, KeysAt(qs, at), NamesAt(qs, at));
    var poolIDs, sets, errs;
    poolIDs, sets, errs, links := Scatter(qs, at, ids, newIDs, addErrs, base, lookup, rs);
    ScatteredAgrees(w, lookup, qs, at, rs, base, ids, poolIDs, sets, errs, results);
    var failed := AnyError(errs);
    reply := BatchReply(poolIDs, sets, if failed then Some(errs) else None);
  }

  class RegistryManager {
    const tokens: TR.TokenRegistry
    const pools: PoolSystem
    const graph: TokenPoolSystem

    ghost function State(): World
      reads pools.registry, graph.registry
    {
      World(pools.registry.Fields(), graph.registry.Snapshot())
    }

    /** Both caches are fresh views, and every pool on a live edge is registered. */
    ghost predicate Valid()
      reads tokens, pools, pools.registry, graph, graph.registry
    {
      tokens.Valid() && pools.Valid() && graph.Valid() && Sound(State())
    }

    constructor (tokenSystem: TR.TokenRegistry, compactionThreshold: int)
      requires tokenSystem.Valid()
      ensures Valid() && tokens == tokenSystem && State() == Start(compactionThreshold)
      ensures fresh(pools) && fresh(pools.registry) && fresh(graph) && fresh(graph.registry)
    {
      tokens := tokenSystem;
      pools := new PoolSystem();
      graph := new TokenPoolSystem(compactionThreshold);
      new;
      assert State() == Start(compactionThreshold);
    }

    method RegisterPool(q: Request) returns (r: Result<(nat, seq<nat>), Error>)
      requires Valid()
      modifies pools, pools.registry, graph, graph.registry
      ensures Valid()
      ensures (State(), r) == RegisterOne(old(State()), tokens.addressToID, q)
    {
      hide PR.Consistent, PR.Added, PR.Contents, Runs.Settled, Runs.Apply, TR.Consistent, Sound;
      RegisterOneKeeps(State(), tokens.addressToID, q);
      PR.AddedRefines(pools.registry.Fields(), q.key, q.name);
      var ids := LookupAll(q.tokens);
      if ids.None? {
        return Err(TokenNotFound);
      }
      var added := pools.AddPool(q.key, q.name);
      if added.Err? {
        return Err(PoolError(added.error));
      }
      graph.AddPool(ids.value, added.value);
      return Ok((added.value, ids.value));
    }

    /** One token lookup after another, stopping at the first that fails. */
    method LookupAll(addrs: seq<Address>) returns (ids: Option<seq<nat>>)
      requires tokens.Valid()
      ensures ids.Some? <==> AllKnown(tokens.addressToID, addrs)
      ensures ids.Some? ==> ids.value == TokenIDs(tokens.addressToID, addrs)
    {
      var list: seq<nat> := [];
      for k := 0 to |addrs|
        invariant |list| == k
        invariant forall l :: 0 <= l < k ==> addrs[l] in tokens.addressToID && list[l] == tokens.addressToID[addrs[l]]
      {
        var token := tokens.GetTokenByAddress(addrs[k]);
        if token.Err? {
          return None;
        }
        list := list + [token.value.id];
      }
      return Some(list);
    }

    method ResolveTokens(unique: set<Address>) returns (ids: map<Address, nat>, missing: set<Address>)
      requires tokens.Valid()
      ensures Resolved(tokens.addressToID, unique, ids, missing)
    {
      ids, missing := map[], {};
      var rest := unique;
      while rest != {}
        invariant rest <= unique
        invariant Resolved(tokens.addressToID, unique - rest, ids, missing)
        invariant missing !! rest
      {
        var a := Draw(rest);
        var token := tokens.GetTokenByAddress(a);
        if token.Err? {
          missing := missing + {a};
        } else {
          ids := ids[a := token.value.id];
        }
        rest := rest - {a};
      }
    }

    /** The filtered batch equals one registration after another: same registries, same IDs and token IDs at the
        original positions, errors at exactly the same positions. */
    method RegisterPools(qs: seq<Request>) returns (reply: BatchReply)
      requires Valid()
      modifies pools, pools.registry, graph, graph.registry
      ensures Valid()
      ensures State() == RegisterAll(old(State()), tokens.addressToID, qs).0
      ensures Agrees(reply, tokens.addressToID, qs, RegisterAll(old(State()), tokens.addressToID, qs).1)
    {
      hide PR.Consistent, PR.Added, PR.Contents, Runs.Settled, Runs.Apply, TR.Consistent, AddAll, LinkAll, LinksOf,
        RegisterAll, Sound, Ready, BatchResults, Agrees, Viable;
      ghost var w := State();
      ghost var lookup := tokens.addressToID;
      BatchIsFold(w, lookup, qs, |qs|);
      assert qs[..|qs|] == qs;
      var at, base, ids := Prepare(qs);
      if |at| == 0 {
        NoneViable(w, lookup, qs, at, base, ids, RegisterAll(w, lookup, qs).1);
        var failed := AnyError(base);
        reply := if failed then BatchReply(Fill<nat>(|qs|, 0), Fill<seq<nat>>(|qs|, []), Some(base))
                 else BatchReply([], [], None);
        return;
      }
      var newIDs, addErrs := pools.AddPools(KeysAt(qs, at), NamesAt(qs, at));
      var links;
      reply, links := Finish(qs, at, base, ids, newIDs, addErrs, w, lookup, RegisterAll(w, lookup, qs).1);
      graph.AddPools(links);
    }

    /** Steps 1 and 2 against the token system. */
    method Prepare(qs: seq<Request>) returns (at: seq<nat>, base: seq<Option<Error>>, ids: map<Address, nat>)
      requires tokens.Valid()
      ensures Ready(tokens.addressToID, qs, at, base, ids)
    {
      var unique := UniqueTokens(qs);
      var missing;
      ids, missing := ResolveTokens(unique);
      at, base := Filter(qs, missing, tokens.addressToID, unique, ids);
    }

    method DeletePool(id: nat) returns (r: Result<(), PR.Error>)
      requires Valid()
      modifies pools, pools.registry, graph, graph.registry
      ensures Valid()
      ensures (State(), r) == DeleteOne(old(State()), id)
      ensures PR.Contents(State().pools) == PR.Contents(old(State()).pools) - {id}
      ensures Graphs.Triples(State().graph.graph) == Graphs.Triples(old(State()).graph.graph) - Graphs.OfPool(id)
      ensures r == if id in PR.Contents(old(State()).pools) then Ok(()) else Err(PR.PoolNotFound)
    {
      hide PR.Consistent, PR.Contents, Runs.Settled, Runs.Apply, TR.Consistent, Sound;
      DeleteOneRefines(State(), id);
      PR.DeletedRefines(pools.registry.Fields(), id);
      r := pools.DeletePool(id);
      if r.Err? {
        return;
      }
      graph.RemovePool(id);
    }

    /** The graph first, then the registry; unknown IDs are reported and disturb nothing. */
    method DeletePools(ids: seq<nat>) returns (errs: Option<seq<Option<PR.Error>>>)
      requires Valid()
      modifies pools, pools.registry, graph, graph.registry
      ensures Valid()
      ensures State() == DeleteMany(old(State()), ids)
      ensures errs == Reported(DeleteAll(old(State()).pools, ids).1)
      ensures PR.Contents(State().pools) == PR.Contents(old(State()).pools) - Elements(ids)
      ensures forall t :: t in Graphs.Triples(State().graph.graph) <==>
                t in Graphs.Triples(old(State()).graph.graph) && t.pool !in ids
    {
      hide PR.Consistent, PR.Contents, Runs.Settled, TR.Consistent, Sound, DeleteAll, UnlinkAll, Graphs.Triples;
      DeleteManyRefines(State(), ids);
      graph.RemovePools(ids);
      errs := pools.DeletePools(ids);
    }
  }

  method AnyError(errs: seq<Option<Error>>) returns (r: bool)
    ensures r <==> exists i :: 0 <= i < |errs| && errs[i].Some?
  {
    for i := 0 to |errs|
      invariant forall k :: 0 <= k < i ==> errs[k].None?
    {
      if errs[i].Some? {
        return true;
      }
    }
    return false;
  }
}
