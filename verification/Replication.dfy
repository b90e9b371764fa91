/** End to end: the round trip that the state stream asks of each schema is what registry history, differ and patcher
    of the five protocols provide, whatever order their lists come out in. */
module Replication {
  import opened Indexing
  import opened KeyedDiff
  import opened Outcome
  import opened StateStream
  import TR = TokenRegistry
  import PR = PoolRegistry
  import G = TokenPoolGraph
  import V2 = V2Replication
  import V3 = V3Replication

  datatype Data =
    | Tokens(tokens: seq<TR.TokenView>)
    | Pools(pools: PR.View)
    | Links(graph: G.Graph)
    | V2Pools(v2: seq<V2.PoolView>)
    | V3Pools(v3: seq<V3.PoolView>)

  datatype Change =
    | TokenChange(t: Diff<TR.TokenData>)
    | PoolChange(p: PR.ViewDiff)
    | LinkChange(g: G.Graph)
    | V2Change(w: Diff<V2.PoolData>)
    | V3Change(v: Diff<V3.PoolData>)

  /** Two views are equivalent when they hold the same entries under the same IDs, V3 tick lists up to order; graphs
      must be equal. */
  ghost predicate SameData(schema: Schema, x: Option<Data>, y: Option<Data>) {
    match (x, y)
    case (Some(Tokens(s)), Some(Tokens(t))) => ToMap(s) == ToMap(t)
    case (Some(Pools(s)), Some(Pools(t))) => ToMap(s.pools) == ToMap(t.pools) && s.protocols == t.protocols
    case (Some(V2Pools(s)), Some(V2Pools(t))) => ToMap(s) == ToMap(t)
    case (Some(V3Pools(s)), Some(V3Pools(t))) => V3.MapsLike(ToMap(s), ToMap(t))
    case _ => x == y
  }

  type Codes = Codec<Data, Change>

  // ----- What a codec's entry under one schema does; each clause is what the differ or patcher method ensures -----

  ghost predicate DiffsTokens(codec: Codes, schema: Schema, a: seq<TR.TokenView>, b: seq<TR.TokenView>) {
    schema in codec.differs &&
    var r := codec.differs[schema](Some(Tokens(a)), Some(Tokens(b)));
    r.Ok? && r.value.TokenChange? && IsDiff(ToMap(a), ToMap(b), TR.Unchanged(ToMap(a), ToMap(b)), r.value.t)
  }

  ghost predicate PatchesTokens(codec: Codes, schema: Schema, s: seq<TR.TokenView>, d: Diff<TR.TokenData>) {
    schema in codec.patchers &&
    var r := codec.patchers[schema](Some(Tokens(s)), TokenChange(d));
    r.Ok? && r.value.Some? && r.value.value.Tokens? && ToMap(r.value.value.tokens) == Patched(ToMap(s), d)
  }

  ghost predicate TokenCodec(codec: Codes, schema: Schema) {
    && (forall a, b :: DiffsTokens(codec, schema, a, b))
    && (forall s, d :: PatchesTokens(codec, schema, s, d))
  }

  ghost predicate DiffsPools(codec: Codes, schema: Schema, a: PR.View, b: PR.View) {
    schema in codec.differs &&
    var r := codec.differs[schema](Some(Pools(a)), Some(Pools(b)));
    r.Ok? && r.value.PoolChange? && PR.IsViewDiff(a, b, r.value.p)
  }

  ghost predicate PatchesPools(codec: Codes, schema: Schema, s: PR.View, d: PR.ViewDiff) {
    schema in codec.patchers &&
    var r := codec.patchers[schema](Some(Pools(s)), PoolChange(d));
    && r.Ok? && r.value.Some? && r.value.value.Pools?
    && ToMap(r.value.value.pools.pools) == Patched(ToMap(s.pools), Diff(d.poolAdditions, [], d.poolDeletions))
    && r.value.value.pools.protocols == s.protocols - Elements(d.protocolDeletions) + d.protocolAdditions
  }

  ghost predicate PoolCodec(codec: Codes, schema: Schema) {
    && (forall a, b :: DiffsPools(codec, schema, a, b))
    && (forall s, d :: PatchesPools(codec, schema, s, d))
  }

  /** The graph travels whole: its diff is the new view, and its patcher returns the diff. */
  ghost predicate LinkCodec(codec: Codes, schema: Schema) {
    && schema in codec.differs && schema in codec.patchers
    && (forall a, b :: codec.differs[schema](Some(Links(a)), Some(Links(b))) == Ok(LinkChange(b)))
    && (forall r: Option<Data>, g :: codec.patchers[schema](r, LinkChange(g)) == Ok(Some(Links(g))))
  }

  ghost predicate DiffsV2(codec: Codes, schema: Schema, a: seq<V2.PoolView>, b: seq<V2.PoolView>) {
    schema in codec.differs &&
    var r := codec.differs[schema](Some(V2Pools(a)), Some(V2Pools(b)));
    r.Ok? && r.value.V2Change? && V2.IsPoolDiff(ToMap(a), ToMap(b), r.value.w)
  }

  ghost predicate PatchesV2(codec: Codes, schema: Schema, s: seq<V2.PoolView>, d: Diff<V2.PoolData>) {
    schema in codec.patchers &&
    var r := codec.patchers[schema](Some(V2Pools(s)), V2Change(d));
    r.Ok? && r.value.Some? && r.value.value.V2Pools? && ToMap(r.value.value.v2) == Patched(ToMap(s), d)
  }

  ghost predicate V2Codec(codec: Codes, schema: Schema) {
    && (forall a, b :: DiffsV2(codec, schema, a, b))
    && (forall s, d :: PatchesV2(codec, schema, s, d))
  }

  ghost predicate DiffsV3(codec: Codes, schema: Schema, a: seq<V3.PoolView>, b: seq<V3.PoolView>) {
    schema in codec.differs &&
    var r := codec.differs[schema](Some(V3Pools(a)), Some(V3Pools(b)));
    r.Ok? && r.value.V3Change? && V3.IsPoolDiff(ToMap(a), ToMap(b), r.value.v)
  }

  ghost predicate PatchesV3(codec: Codes, schema: Schema, s: seq<V3.PoolView>, d: Diff<V3.PoolData>) {
    schema in codec.patchers &&
    var r := codec.patchers[schema](Some(V3Pools(s)), V3Change(d));
    r.Ok? && r.value.Some? && r.value.value.V3Pools? && ToMap(r.value.value.v3) == Patched(ToMap(s), d)
  }

  ghost predicate V3Codec(codec: Codes, schema: Schema) {
    && (forall a, b :: DiffsV3(codec, schema, a, b))
    && (forall s, d :: PatchesV3(codec, schema, s, d))
  }

  // ----- Round trips -----

  /** One replica, patched: the body of `RoundTrips`. */
  ghost predicate Follows(codec: Codes, schema: Schema, r: Option<Data>, a: Option<Data>, b: Option<Data>) {
    && schema in codec.differs && schema in codec.patchers && codec.differs[schema](a, b).Ok?
    && var p := codec.patchers[schema](r, codec.differs[schema](a, b).value);
       p.Ok? && SameData(schema, p.value, b)
  }

  lemma RoundTripsWhen(codec: Codes, schema: Schema, a: Option<Data>, b: Option<Data>)
    requires schema in codec.differs && schema in codec.patchers && codec.differs[schema](a, b).Ok?
    requires forall r :: SameData(schema, r, a) ==> Follows(codec, schema, r, a, b)
    ensures RoundTrips(codec, SameData, schema, a, b)
  {
    hide SameData;
    forall r | SameData(schema, r, a)
      ensures var p := codec.patchers[schema](r, codec.differs[schema](a, b).value);
              p.Ok? && SameData(schema, p.value, b)
    {
      assert Follows(codec, schema, r, a, b);
    }
  }

  lemma TokensFollow(codec: Codes, schema: Schema, before: seq<TR.Op>, after: seq<TR.Op>, r: Option<Data>)
    requires TokenCodec(codec, schema)
    requires SameData(schema, r, Some(Tokens(TR.ViewOf(TR.Run(TR.EMPTY, before)))))
    ensures var c := TR.Run(TR.EMPTY, before);
            Follows(codec, schema, r, Some(Tokens(TR.ViewOf(c))), Some(Tokens(TR.ViewOf(TR.Run(c, after)))))
  {
    hide TR.Run, TR.ViewOf, ToMap, Patched, IsDiff, TR.Unchanged;
    var c := TR.Run(TR.EMPTY, before);
    var a, b := TR.ViewOf(c), TR.ViewOf(TR.Run(c, after));
    assert DiffsTokens(codec, schema, a, b);
    var d := codec.differs[schema](Some(Tokens(a)), Some(Tokens(b))).value.t;
    assert PatchesTokens(codec, schema, r.value.tokens, d);
    TR.ReplicaFollowsRun(before, after, r.value.tokens, d);
  }

  /** Token views of any two moments of one run round-trip. */
  lemma TokensRoundTrip(codec: Codes, schema: Schema, before: seq<TR.Op>, after: seq<TR.Op>)
    requires TokenCodec(codec, schema)
    ensures var c := TR.Run(TR.EMPTY, before);
            RoundTrips(codec, SameData, schema, Some(Tokens(TR.ViewOf(c))), Some(Tokens(TR.ViewOf(TR.Run(c, after)))))
  {
    hide TR.Run, TR.ViewOf, SameData, Follows, RoundTrips, IsDiff, Patched, ToMap;
    var c := TR.Run(TR.EMPTY, before);
    var a, b := TR.ViewOf(c), TR.ViewOf(TR.Run(c, after));
    assert DiffsTokens(codec, schema, a, b) && PatchesTokens(codec, schema, [], Diff([], [], []));
    forall r | SameData(schema, r, Some(Tokens(a)))
      ensures Follows(codec, schema, r, Some(Tokens(a)), Some(Tokens(b)))
    {
      TokensFollow(codec, schema, before, after, r);
    }
    RoundTripsWhen(codec, schema, Some(Tokens(a)), Some(Tokens(b)));
  }

  lemma PoolsFollow(codec: Codes, schema: Schema, before: seq<PR.Op>, after: seq<PR.Op>, r: Option<Data>)
    requires PoolCodec(codec, schema)
    requires SameData(schema, r, Some(Pools(PR.ViewOf(PR.Run(PR.EMPTY, before)))))
    ensures var p := PR.Run(PR.EMPTY, before);
            Follows(codec, schema, r, Some(Pools(PR.ViewOf(p))), Some(Pools(PR.ViewOf(PR.Run(p, after)))))
  {
    hide PR.Run, PR.ViewOf, ToMap, Patched, PR.IsViewDiff;
    var p := PR.Run(PR.EMPTY, before);
    var a, b := PR.ViewOf(p), PR.ViewOf(PR.Run(p, after));
    assert DiffsPools(codec, schema, a, b);
    var d := codec.differs[schema](Some(Pools(a)), Some(Pools(b))).value.p;
    assert PatchesPools(codec, schema, r.value.pools, d);
    PR.ReplicaFollowsRun(before, after, r.value.pools, d);
  }

  /** Pool views of any two moments of one run round-trip. */
  lemma PoolsRoundTrip(codec: Codes, schema: Schema, before: seq<PR.Op>, after: seq<PR.Op>)
    requires PoolCodec(codec, schema)
    ensures var p := PR.Run(PR.EMPTY, before);
            RoundTrips(codec, SameData, schema, Some(Pools(PR.ViewOf(p))), Some(Pools(PR.ViewOf(PR.Run(p, after)))))
  {
    hide PR.Run, PR.ViewOf, SameData, Follows, RoundTrips, PR.IsViewDiff, Patched, ToMap;
    var p := PR.Run(PR.EMPTY, before);
    var a, b := PR.ViewOf(p), PR.ViewOf(PR.Run(p, after));
    assert DiffsPools(codec, schema, a, b) && PatchesPools(codec, schema, a, PR.ViewDiff([], [], map[], []));
    forall r | SameData(schema, r, Some(Pools(a))) ensures Follows(codec, schema, r, Some(Pools(a)), Some(Pools(b))) {
      PoolsFollow(codec, schema, before, after, r);
    }
    RoundTripsWhen(codec, schema, Some(Pools(a)), Some(Pools(b)));
  }

  /** Graph views round-trip without any condition. */
  lemma LinksRoundTrip(codec: Codes, schema: Schema, a: G.Graph, b: G.Graph)
    requires LinkCodec(codec, schema)
    ensures RoundTrips(codec, SameData, schema, Some(Links(a)), Some(Links(b)))
  {
    assert codec.differs[schema](Some(Links(a)), Some(Links(b))) == Ok(LinkChange(b));
  }

  lemma V2Follow(codec: Codes, schema: Schema, a: seq<V2.PoolView>, b: seq<V2.PoolView>, r: Option<Data>)
    requires V2Codec(codec, schema) && V2.StaticKept(ToMap(a), ToMap(b)) && SameData(schema, r, Some(V2Pools(a)))
    ensures Follows(codec, schema, r, Some(V2Pools(a)), Some(V2Pools(b)))
  {
    hide ToMap, Patched, V2.IsPoolDiff, V2.StaticKept;
    assert DiffsV2(codec, schema, a, b);
    var d := codec.differs[schema](Some(V2Pools(a)), Some(V2Pools(b))).value.w;
    assert PatchesV2(codec, schema, r.value.v2, d);
    V2.RoundTripExact(ToMap(a), ToMap(b), d);
  }

  /** V2 views with tokens, type and fee fixed per ID round-trip. */
  lemma V2RoundTrip(codec: Codes, schema: Schema, a: seq<V2.PoolView>, b: seq<V2.PoolView>)
    requires V2Codec(codec, schema) && V2.StaticKept(ToMap(a), ToMap(b))
    ensures RoundTrips(codec, SameData, schema, Some(V2Pools(a)), Some(V2Pools(b)))
  {
    hide SameData, Follows, RoundTrips, ToMap, V2.StaticKept, V2.IsPoolDiff, Patched;
    assert DiffsV2(codec, schema, a, b) && PatchesV2(codec, schema, a, Diff([], [], []));
    forall r | SameData(schema, r, Some(V2Pools(a)))
      ensures Follows(codec, schema, r, Some(V2Pools(a)), Some(V2Pools(b)))
    {
      V2Follow(codec, schema, a, b, r);
    }
    RoundTripsWhen(codec, schema, Some(V2Pools(a)), Some(V2Pools(b)));
  }

  lemma V3Follow(codec: Codes, schema: Schema, a: seq<V3.PoolView>, b: seq<V3.PoolView>, r: Option<Data>)
    requires V3Codec(codec, schema) && V3.StaticKept(ToMap(a), ToMap(b)) && SameData(schema, r, Some(V3Pools(a)))
    ensures Follows(codec, schema, r, Some(V3Pools(a)), Some(V3Pools(b)))
  {
    hide ToMap, Patched, V3.IsPoolDiff, V3.MapsLike, V3.StaticKept;
    assert DiffsV3(codec, schema, a, b);
    var d := codec.differs[schema](Some(V3Pools(a)), Some(V3Pools(b))).value.v;
    assert PatchesV3(codec, schema, r.value.v3, d);
    V3.RoundTrip(ToMap(a), ToMap(b), d, ToMap(r.value.v3));
  }

  /** V3 views with tokens and spacing fixed per ID round-trip. */
  lemma V3RoundTrip(codec: Codes, schema: Schema, a: seq<V3.PoolView>, b: seq<V3.PoolView>)
    requires V3Codec(codec, schema) && V3.StaticKept(ToMap(a), ToMap(b))
    ensures RoundTrips(codec, SameData, schema, Some(V3Pools(a)), Some(V3Pools(b)))
  {
    hide SameData, Follows, RoundTrips, ToMap, V3.StaticKept, V3.IsPoolDiff, Patched;
    assert DiffsV3(codec, schema, a, b) && PatchesV3(codec, schema, a, Diff([], [], []));
    forall r | SameData(schema, r, Some(V3Pools(a)))
      ensures Follows(codec, schema, r, Some(V3Pools(a)), Some(V3Pools(b)))
    {
      V3Follow(codec, schema, a, b, r);
    }
    RoundTripsWhen(codec, schema, Some(V3Pools(a)), Some(V3Pools(b)));
  }

  // ----- The whole stream -----

  ghost predicate TokenMoments(before: seq<TR.Op>, after: seq<TR.Op>, a: Option<Data>, b: Option<Data>) {
    var c := TR.Run(TR.EMPTY, before);
    a == Some(Tokens(TR.ViewOf(c))) && b == Some(Tokens(TR.ViewOf(TR.Run(c, after))))
  }

  ghost predicate PoolMoments(before: seq<PR.Op>, after: seq<PR.Op>, a: Option<Data>, b: Option<Data>) {
    var p := PR.Run(PR.EMPTY, before);
    a == Some(Pools(PR.ViewOf(p))) && b == Some(Pools(PR.ViewOf(PR.Run(p, after))))
  }

  ghost predicate LinkMoments(a: Option<Data>, b: Option<Data>) {
    a.Some? && b.Some? && a.value.Links? && b.value.Links?
  }

  ghost predicate V2Moments(a: Option<Data>, b: Option<Data>) {
    && a.Some? && b.Some? && a.value.V2Pools? && b.value.V2Pools?
    && V2.StaticKept(ToMap(a.value.v2), ToMap(b.value.v2))
  }

  ghost predicate V3Moments(a: Option<Data>, b: Option<Data>) {
    && a.Some? && b.Some? && a.value.V3Pools? && b.value.V3Pools?
    && V3.StaticKept(ToMap(a.value.v3), ToMap(b.value.v3))
  }

  /** One protocol's data in two consecutive states, through the protocol's own differ and patcher: an earlier and a
      later view of one token or pool registry, any two graphs, or two V2 or V3 views that keep their static fields. */
  ghost predicate Successive(codec: Codes, schema: Schema, a: Option<Data>, b: Option<Data>) {
    || (TokenCodec(codec, schema) && exists before, after :: TokenMoments(before, after, a, b))
    || (PoolCodec(codec, schema) && exists before, after :: PoolMoments(before, after, a, b))
    || (LinkCodec(codec, schema) && LinkMoments(a, b))
    || (V2Codec(codec, schema) && V2Moments(a, b))
    || (V3Codec(codec, schema) && V3Moments(a, b))
  }

  lemma SuccessiveRoundTrips(codec: Codes, schema: Schema, a: Option<Data>, b: Option<Data>)
    requires Successive(codec, schema, a, b)
    ensures RoundTrips(codec, SameData, schema, a, b)
  {
    hide SameData, RoundTrips, TokenCodec, PoolCodec, LinkCodec, V2Codec, V3Codec, V2.StaticKept, V3.StaticKept, ToMap;
    if TokenCodec(codec, schema) && exists before, after :: TokenMoments(before, after, a, b) {
      var before, after :| TokenMoments(before, after, a, b);
      TokensRoundTrip(codec, schema, before, after);
    } else if PoolCodec(codec, schema) && exists before, after :: PoolMoments(before, after, a, b) {
      var before, after :| PoolMoments(before, after, a, b);
      PoolsRoundTrip(codec, schema, before, after);
    } else if LinkCodec(codec, schema) && LinkMoments(a, b) {
      LinksRoundTrip(codec, schema, a.value.graph, b.value.graph);
    } else if V2Codec(codec, schema) && V2Moments(a, b) {
      V2RoundTrip(codec, schema, a.value.v2, b.value.v2);
    } else {
      V3RoundTrip(codec, schema, a.value.v3, b.value.v3);
    }
  }

  lemma SameDataReflexive(schema: Schema, x: Option<Data>)
    ensures SameData(schema, x, x)
  {
  }

  /** What one engine reads from its protocols for one block. */
  datatype Reading = Reading(plain: map<ProtocolID, Plain<Data>>, synced: map<ProtocolID, Synced<Data>>)

  /** Error-free states of one chain, each built by the engine from what its protocols returned, with each protocol's
      data running on from state to state. */
  ghost predicate EngineStates(schemas: map<ProtocolID, Schema>, readings: seq<Reading>, codecs: seq<Codes>,
                               states: seq<State<Data>>) {
    && |states| == |readings| == |codecs| + 1
    && (forall k :: 0 <= k < |states| ==> BuiltFrom(schemas, readings[k], states[k]))
    && (forall k :: 0 <= k < |states| ==> states[k].chainID == states[0].chainID)
    && (forall k, id :: 0 <= k < |codecs| && id in schemas ==>
          Successive(codecs[k], schemas[id], states[k].protocols[id].data, states[k + 1].protocols[id].data))
  }

  ghost predicate BuiltFrom(schemas: map<ProtocolID, Schema>, reading: Reading, s: State<Data>)
    ensures BuiltFrom(schemas, reading, s) ==> !HasErrors(s) && s.protocols.Keys == schemas.Keys
  {
    && FromEngine(schemas, reading.plain, reading.synced)
    && s.protocols == Built(reading.plain, reading.synced, Uint64(s.block.number))
    && !HasErrors(s)
  }

  /** Whatever the registries did meanwhile, replaying the consecutive diffs from the first state never fails and ends
      with the last state's chain, block and every protocol's entries. */
  lemma EngineStreamReplays(schemas: map<ProtocolID, Schema>, readings: seq<Reading>, codecs: seq<Codes>,
                            times: seq<nat>, states: seq<State<Data>>)
    requires EngineStates(schemas, readings, codecs, states) && |times| == |codecs|
    ensures var r := Replay(codecs, times, states, |codecs|); r.Some? && Equivalent(SameData, r.value, states[|codecs|])
  {
    hide SameData, RoundTrips, Successive, Replay, Equivalent, HasErrors, Built, FromEngine;
    forall k | 0 <= k < |states| ensures HasSchemas(states[k], schemas) && !HasErrors(states[k]) {
      assert BuiltFrom(schemas, readings[k], states[k]);
      BuiltHasSchemas(schemas, readings[k].plain, readings[k].synced, states[k]);
    }
    forall k, id | 0 <= k < |codecs| && id in schemas
      ensures RoundTrips(codecs[k], SameData, schemas[id],
                         states[k].protocols[id].data, states[k + 1].protocols[id].data)
    {
      SuccessiveRoundTrips(codecs[k], schemas[id], states[k].protocols[id].data, states[k + 1].protocols[id].data);
    }
    forall id | id in schemas
      ensures SameData(schemas[id], states[0].protocols[id].data, states[0].protocols[id].data)
    {
      SameDataReflexive(schemas[id], states[0].protocols[id].data);
    }
    ReplayReachesState(schemas, codecs, SameData, times, states, |codecs|);
  }
}
