/** The engine's per-block states, the diff between two of them, and the patching of a replica: one differ and one
    patcher per schema. Folding the patches over the diffs of a stream reproduces the stream. */
module StateStream {
  import opened Indexing
  import opened Outcome

  type ProtocolID = string
  type Schema = string

  datatype Meta = Meta(name: string, tags: seq<string>)

  /** `data` is None for a nil view; `error` is empty when the protocol is healthy. */
  datatype ProtocolState<X> = ProtocolState(meta: Meta, synced: Option<nat>, schema: Schema, data: Option<X>,
                                            error: string)

  datatype Block = Block(number: nat, hash: nat, timestamp: nat, receivedAt: int, gasUsed: nat, gasLimit: nat,
                         stateRoot: nat, txHash: nat, receiptHash: nat)

  datatype State<X> = State(chainID: nat, timestamp: nat, block: Block, protocols: map<ProtocolID, ProtocolState<X>>)

  datatype ProtocolDiff<D> = ProtocolDiff(meta: Meta, synced: Option<nat>, schema: Schema, data: D, error: string)

  datatype StateDiff<D> = StateDiff(timestamp: nat, fromBlock: nat, toBlock: Block,
                                    protocols: map<ProtocolID, ProtocolDiff<D>>)

  datatype Codec<!X, !D> = Codec(
    differs: map<Schema, (Option<X>, Option<X>) -> Result<D, string>>,
    patchers: map<Schema, (Option<X>, D) -> Result<Option<X>, string>>)

  /** big.Int.Uint64 keeps the low 64 bits. */
  function Uint64(n: nat): nat {
    n % 0x1_0000_0000_0000_0000
  }

  // ----- Building a state -----

  datatype Plain<X> = Plain(meta: Meta, view: Result<(Option<X>, Schema), string>)
  datatype Synced<X> = Synced(meta: Meta, lastUpdated: nat, schema: Schema, view: Result<Option<X>, string>)

  function PlainState<X>(p: Plain<X>): ProtocolState<X> {
    match p.view
    case Err(e) => ProtocolState(p.meta, None, "", None, e)
    case Ok((data, schema)) =>
      if schema == "" then ProtocolState(p.meta, None, "", None, "protocol returned empty schema")
      else ProtocolState(p.meta, None, schema, data, "")
  }

  function SyncedState<X>(p: Synced<X>, target: nat): ProtocolState<X> {
    if p.lastUpdated < target then ProtocolState(p.meta, Some(p.lastUpdated), p.schema, None, "protocol out of sync")
    else
      match p.view
      case Err(e) => ProtocolState(p.meta, Some(p.lastUpdated), p.schema, None, e)
      case Ok(data) => ProtocolState(p.meta, Some(p.lastUpdated), p.schema, data, "")
  }

  ghost function Built<X>(plain: map<ProtocolID, Plain<X>>, synced: map<ProtocolID, Synced<X>>,
                          target: nat): map<ProtocolID, ProtocolState<X>> {
    map id | id in plain.Keys + synced.Keys ::
      if id in synced then SyncedState(synced[id], target) else PlainState(plain[id])
  }

  /** Every configured protocol appears, with data or an error, and a block-aware one is healthy only if it has
      reached the block. */
  method BuildState<X>(chainID: nat, block: Block, now: nat, plain: map<ProtocolID, Plain<X>>,
                       synced: map<ProtocolID, Synced<X>>)
    returns (s: State<X>)
    ensures s.chainID == chainID && s.block == block && s.timestamp == now
    ensures s.protocols == Built(plain, synced, Uint64(block.number))
    ensures s.protocols.Keys == plain.Keys + synced.Keys
    ensures forall id :: id in plain && id !in synced ==>
              var (p, e) := (plain[id], s.protocols[id]);
              && e.meta == p.meta && e.synced == None
              && (p.view.Err? ==> e.data == None && e.schema == "" && e.error == p.view.error)
              && (p.view.Ok? && p.view.value.1 == "" ==> e.data == None && e.schema == "" && e.error != "")
              && (p.view.Ok? && p.view.value.1 != "" ==>
                    e.data == p.view.value.0 && e.schema == p.view.value.1 && e.error == "")
    ensures forall id :: id in synced ==>
              var (p, e) := (synced[id], s.protocols[id]);
              var behind := p.lastUpdated < block.number % 0x1_0000_0000_0000_0000;
              && e.meta == p.meta && e.synced == Some(p.lastUpdated) && e.schema == p.schema
              && (behind ==> e.data == None && e.error != "")
              && (!behind && p.view.Err? ==> e.data == None && e.error == p.view.error)
              && (!behind && p.view.Ok? ==> e.data == p.view.value && e.error == "")
  {
    var states := BuildPlain(plain);
    states := BuildSynced(states, synced, Uint64(block.number));
    s := State(chainID, now, block, states);
  }

  method BuildPlain<X>(plain: map<ProtocolID, Plain<X>>) returns (states: map<ProtocolID, ProtocolState<X>>)
    ensures states == map id | id in plain :: PlainState(plain[id])
  {
    states := map[];
    var rest := plain.Keys;
    while rest != {}
      invariant rest <= plain.Keys
      invariant states == map id | id in plain && id !in rest :: PlainState(plain[id])
    {
      var id := Draw(rest);
      states := states[id := PlainState(plain[id])];
      rest := rest - {id};
    }
  }

  method BuildSynced<X>(plain: map<ProtocolID, ProtocolState<X>>, synced: map<ProtocolID, Synced<X>>, target: nat)
    returns (states: map<ProtocolID, ProtocolState<X>>)
    ensures states == plain + map id | id in synced :: SyncedState(synced[id], target)
  {
    states := plain;
    var rest := synced.Keys;
    while rest != {}
      invariant rest <= synced.Keys
      invariant states == plain + map id | id in synced && id !in rest :: SyncedState(synced[id], target)
    {
      var id := Draw(rest);
      states := states[id := SyncedState(synced[id], target)];
      rest := rest - {id};
    }
  }

  ghost predicate HasErrors<X>(s: State<X>) {
    exists id :: id in s.protocols && s.protocols[id].error != ""
  }

  /** One engine: the same protocols, each answering with its own schema, and error messages that are not empty. */
  ghost predicate FromEngine<X>(schemas: map<ProtocolID, Schema>, plain: map<ProtocolID, Plain<X>>,
                                synced: map<ProtocolID, Synced<X>>) {
    && schemas.Keys == plain.Keys + synced.Keys
    && (forall id :: id in plain ==>
          match plain[id].view case Ok((_, schema)) => schema == schemas[id] case Err(e) => e != "")
    && (forall id :: id in synced ==>
          synced[id].schema == schemas[id] && (synced[id].view.Err? ==> synced[id].view.error != ""))
  }

  ghost predicate HasSchemas<X>(s: State<X>, schemas: map<ProtocolID, Schema>) {
    s.protocols.Keys == schemas.Keys && forall id :: id in schemas ==> s.protocols[id].schema == schemas[id]
  }

  /** An error-free state of an engine carries every protocol under its fixed schema. */
  lemma BuiltHasSchemas<X>(schemas: map<ProtocolID, Schema>, plain: map<ProtocolID, Plain<X>>,
                           synced: map<ProtocolID, Synced<X>>, s: State<X>)
    requires FromEngine(schemas, plain, synced)
    requires s.protocols == Built(plain, synced, Uint64(s.block.number)) && !HasErrors(s)
    ensures HasSchemas(s, schemas)
    ensures forall id :: id in synced ==> synced[id].lastUpdated >= Uint64(s.block.number)
  {
    forall id | id in schemas ensures s.protocols[id].schema == schemas[id] {
      assert s.protocols[id].error == "";
    }
    forall id | id in synced ensures synced[id].lastUpdated >= Uint64(s.block.number) {
      assert s.protocols[id].error == "";
    }
  }

  // ----- Diffing two states -----

  ghost predicate Diffable<X, D>(codec: Codec<X, D>, a: State<X>, b: State<X>, id: ProtocolID)
    requires id in b.protocols
  {
    && id in a.protocols
    && b.protocols[id].schema in codec.differs
    && codec.differs[b.protocols[id].schema](a.protocols[id].data, b.protocols[id].data).Ok?
  }

  ghost predicate CanDiff<X, D>(codec: Codec<X, D>, a: State<X>, b: State<X>) {
    !HasErrors(a) && !HasErrors(b) && forall id :: id in b.protocols ==> Diffable(codec, a, b, id)
  }

  ghost function DiffEntry<X, D>(codec: Codec<X, D>, a: State<X>, b: State<X>, id: ProtocolID): ProtocolDiff<D>
    requires id in b.protocols && Diffable(codec, a, b, id)
  {
    var p := b.protocols[id];
    ProtocolDiff(p.meta, p.synced, p.schema, codec.differs[p.schema](a.protocols[id].data, p.data).value, "")
  }

  ghost function DiffOf<X, D>(codec: Codec<X, D>, a: State<X>, b: State<X>, now: nat): StateDiff<D>
    requires CanDiff(codec, a, b)
  {
    StateDiff(now, Uint64(a.block.number), b.block, map id | id in b.protocols :: DiffEntry(codec, a, b, id))
  }

  method CheckErrors<X>(s: State<X>) returns (r: bool)
    ensures r == HasErrors(s)
  {
    var rest := s.protocols.Keys;
    while rest != {}
      invariant rest <= s.protocols.Keys
      invariant forall id :: id in s.protocols && id !in rest ==> s.protocols[id].error == ""
    {
      var id := Draw(rest);
      if s.protocols[id].error != "" {
        return true;
      }
      rest := rest - {id};
    }
    return false;
  }

  method DiffStates<X, D>(codec: Codec<X, D>, a: State<X>, b: State<X>, now: nat)
    returns (r: Result<StateDiff<D>, string>)
    ensures r.Ok? <==> CanDiff(codec, a, b)
    ensures r.Ok? ==> r.value == DiffOf(codec, a, b, now)
    ensures r.Ok? <==>
              && (forall id :: id in a.protocols ==> a.protocols[id].error == "")
              && (forall id :: id in b.protocols ==>
                    var p := b.protocols[id];
                    && p.error == "" && id in a.protocols && p.schema in codec.differs
                    && codec.differs[p.schema](a.protocols[id].data, p.data).Ok?)
    ensures r.Ok? ==> r.value.timestamp == now && r.value.fromBlock == a.block.number % 0x1_0000_0000_0000_0000
    ensures r.Ok? ==> r.value.toBlock == b.block && r.value.protocols.Keys == b.protocols.Keys
    ensures r.Ok? ==> forall id :: id in b.protocols ==>
              var (e, p) := (r.value.protocols[id], b.protocols[id]);
              && e.meta == p.meta && e.synced == p.synced && e.schema == p.schema && e.error == ""
              && p.schema in codec.differs && codec.differs[p.schema](a.protocols[id].data, p.data) == Ok(e.data)
  {
    var bad := CheckErrors(a);
    if !bad {
      bad := CheckErrors(b);
    }
    if bad {
      return Err("received view with error");
    }
    var diffs: map<ProtocolID, ProtocolDiff<D>> := map[];
    var rest := b.protocols.Keys;
    while rest != {}
      invariant rest <= b.protocols.Keys
      invariant forall id :: id in b.protocols && id !in rest ==> Diffable(codec, a, b, id)
      invariant diffs == map id | id in b.protocols && id !in rest :: DiffEntry(codec, a, b, id)
    {
      var id := Draw(rest);
      var next := b.protocols[id];
      if id !in a.protocols {
        return Err("protocol does not exist in old state");
      }
      if next.schema !in codec.differs {
        return Err("no differ registered for schema");
      }
      var data := codec.differs[next.schema](a.protocols[id].data, next.data);
      if data.Err? {
        return Err(data.error);
      }
      diffs := diffs[id := ProtocolDiff(next.meta, next.synced, next.schema, data.value, "")];
      rest := rest - {id};
    }
    r := Ok(StateDiff(now, Uint64(a.block.number), b.block, diffs));
  }

  // ----- Patching a state -----

  ghost function PriorData<X>(s: State<X>, id: ProtocolID): Option<X> {
    if id in s.protocols then s.protocols[id].data else None
  }

  ghost predicate Patchable<X, D>(codec: Codec<X, D>, s: State<X>, d: StateDiff<D>, id: ProtocolID)
    requires id in d.protocols
  {
    && d.protocols[id].schema in codec.patchers
    && (id in s.protocols ==> s.protocols[id].schema == d.protocols[id].schema)
    && codec.patchers[d.protocols[id].schema](PriorData(s, id), d.protocols[id].data).Ok?
  }

  ghost predicate CanPatch<X, D>(codec: Codec<X, D>, s: State<X>, d: StateDiff<D>) {
    Uint64(s.block.number) == d.fromBlock && forall id :: id in d.protocols ==> Patchable(codec, s, d, id)
  }

  ghost function PatchEntry<X, D>(codec: Codec<X, D>, s: State<X>, d: StateDiff<D>, id: ProtocolID): ProtocolState<X>
    requires id in d.protocols && Patchable(codec, s, d, id)
  {
    var p := d.protocols[id];
    ProtocolState(p.meta, p.synced, p.schema, codec.patchers[p.schema](PriorData(s, id), p.data).value, p.error)
  }

  /** Protocols the diff does not mention are carried over. */
  ghost function PatchOf<X, D>(codec: Codec<X, D>, s: State<X>, d: StateDiff<D>): State<X>
    requires CanPatch(codec, s, d)
  {
    State(s.chainID, d.timestamp, d.toBlock,
          map id | id in s.protocols.Keys + d.protocols.Keys ::
            if id in d.protocols then PatchEntry(codec, s, d, id) else s.protocols[id])
  }

  /** When a diff can be applied, and what each entry it mentions becomes. */
  lemma PatchExactly<X, D>(codec: Codec<X, D>, s: State<X>, d: StateDiff<D>)
    ensures CanPatch(codec, s, d) <==>
              && s.block.number % 0x1_0000_0000_0000_0000 == d.fromBlock
              && forall id :: id in d.protocols ==>
                   var p := d.protocols[id];
                   && p.schema in codec.patchers && (id in s.protocols ==> s.protocols[id].schema == p.schema)
                   && codec.patchers[p.schema](if id in s.protocols then s.protocols[id].data else None, p.data).Ok?
    ensures CanPatch(codec, s, d) ==> forall id :: id in d.protocols ==>
              var (e, p) := (PatchOf(codec, s, d).protocols[id], d.protocols[id]);
              && e.meta == p.meta && e.synced == p.synced && e.schema == p.schema && e.error == p.error
              && var prior := if id in s.protocols then s.protocols[id].data else None;
                 Ok(e.data) == codec.patchers[p.schema](prior, p.data)
  {
    forall id | id in d.protocols
      ensures Patchable(codec, s, d, id) <==>
              var p := d.protocols[id];
              && p.schema in codec.patchers && (id in s.protocols ==> s.protocols[id].schema == p.schema)
              && codec.patchers[p.schema](if id in s.protocols then s.protocols[id].data else None, p.data).Ok?
    {
    }
  }

  method PatchState<X, D>(codec: Codec<X, D>, s: State<X>, d: StateDiff<D>) returns (r: Result<State<X>, string>)
    ensures r.Ok? <==> CanPatch(codec, s, d)
    ensures r.Ok? ==> r.value == PatchOf(codec, s, d)
    ensures r.Ok? ==> r.value.chainID == s.chainID && r.value.timestamp == d.timestamp && r.value.block == d.toBlock
    ensures r.Ok? ==> r.value.protocols.Keys == s.protocols.Keys + d.protocols.Keys
    ensures r.Ok? ==> forall id :: id in s.protocols && id !in d.protocols ==> r.value.protocols[id] == s.protocols[id]
  {
    hide Patchable, PatchEntry;
    if Uint64(s.block.number) != d.fromBlock {
      return Err("mismatch fromBlock");
    }
    var protocols := s.protocols;
    var rest := d.protocols.Keys;
    while rest != {}
      invariant rest <= d.protocols.Keys
      invariant forall id :: id in d.protocols && id !in rest ==> Patchable(codec, s, d, id)
      invariant protocols.Keys == s.protocols.Keys + (d.protocols.Keys - rest)
      invariant forall id :: id in protocols ==>
        protocols[id] == if id in d.protocols && id !in rest then PatchEntry(codec, s, d, id) else s.protocols[id]
    {
      var id := Draw(rest);
      var patched := PatchOne(codec, s, d, id);
      if patched.Err? {
        return Err(patched.error);
      }
      protocols := protocols[id := patched.value];
      rest := rest - {id};
    }
    r := Ok(State(s.chainID, d.timestamp, d.toBlock, protocols));
  }

  method PatchOne<X, D>(codec: Codec<X, D>, s: State<X>, d: StateDiff<D>, id: ProtocolID)
    returns (r: Result<ProtocolState<X>, string>)
    requires id in d.protocols
    ensures r.Ok? <==> Patchable(codec, s, d, id)
    ensures r.Ok? ==> r.value == PatchEntry(codec, s, d, id)
  {
    var p := d.protocols[id];
    if p.schema !in codec.patchers {
      return Err("no patcher registered for schema");
    }
    var prior: Option<X> := None;
    if id in s.protocols {
      if s.protocols[id].schema != p.schema {
        return Err("schema mismatch");
      }
      prior := s.protocols[id].data;
    }
    var data := codec.patchers[p.schema](prior, p.data);
    if data.Err? {
      return Err(data.error);
    }
    return Ok(ProtocolState(p.meta, p.synced, p.schema, data.value, p.error));
  }

  // ----- Replaying a stream -----

  /** A protocol's own round trip, from any replica equivalent to the old data. */
  ghost predicate RoundTrips<X(!new), D>(codec: Codec<X, D>, eq: (Schema, Option<X>, Option<X>) -> bool,
                                         schema: Schema, a: Option<X>, b: Option<X>) {
    && schema in codec.differs && schema in codec.patchers
    && codec.differs[schema](a, b).Ok?
    && forall r :: eq(schema, r, a) ==>
         var p := codec.patchers[schema](r, codec.differs[schema](a, b).value);
         p.Ok? && eq(schema, p.value, b)
  }

  /** Equal in chain, block and every protocol, data up to `eq`; timestamps aside. */
  ghost predicate Equivalent<X>(eq: (Schema, Option<X>, Option<X>) -> bool, r: State<X>, s: State<X>) {
    && r.chainID == s.chainID && r.block == s.block && r.protocols.Keys == s.protocols.Keys
    && forall id :: id in s.protocols ==>
         r.protocols[id] == s.protocols[id].(data := r.protocols[id].data)
         && eq(s.protocols[id].schema, r.protocols[id].data, s.protocols[id].data)
  }

  /** Error-free states of one chain and one engine, each step with the differs and patchers in force at the time. */
  ghost predicate Stream<X(!new), D>(schemas: map<ProtocolID, Schema>, codecs: seq<Codec<X, D>>,
                                     eq: (Schema, Option<X>, Option<X>) -> bool, states: seq<State<X>>) {
    && |states| == |codecs| + 1
    && (forall k :: 0 <= k < |states| ==>
          !HasErrors(states[k]) && HasSchemas(states[k], schemas) && states[k].chainID == states[0].chainID)
    && (forall k, id :: 0 <= k < |codecs| && id in schemas ==>
          RoundTrips(codecs[k], eq, schemas[id], states[k].protocols[id].data, states[k + 1].protocols[id].data))
    && (forall id :: id in schemas ==> eq(schemas[id], states[0].protocols[id].data, states[0].protocols[id].data))
  }

  /** The replica after `n` diffs, starting from the first state. */
  ghost function Replay<X, D>(codecs: seq<Codec<X, D>>, times: seq<nat>, states: seq<State<X>>,
                              n: nat): Option<State<X>>
    requires |states| == |codecs| + 1 && |times| == |codecs| && n <= |codecs|
  {
    if n == 0 then Some(states[0])
    else
      var prev := Replay(codecs, times, states, n - 1);
      if prev.None? || !CanDiff(codecs[n - 1], states[n - 1], states[n]) then None
      else
        var d := DiffOf(codecs[n - 1], states[n - 1], states[n], times[n - 1]);
        if CanPatch(codecs[n - 1], prev.value, d) then Some(PatchOf(codecs[n - 1], prev.value, d)) else None
  }

  /** Two states between which every protocol round-trips. */
  ghost predicate Adjacent<X(!new), D>(codec: Codec<X, D>, eq: (Schema, Option<X>, Option<X>) -> bool,
                                       schemas: map<ProtocolID, Schema>,
                                       a: State<X>, b: State<X>) {
    && !HasErrors(a) && !HasErrors(b) && HasSchemas(a, schemas) && HasSchemas(b, schemas) && a.chainID == b.chainID
    && forall id :: id in schemas ==> RoundTrips(codec, eq, schemas[id], a.protocols[id].data, b.protocols[id].data)
  }

  lemma AdjacentDiffs<X(!new), D>(codec: Codec<X, D>, eq: (Schema, Option<X>, Option<X>) -> bool,
                                  schemas: map<ProtocolID, Schema>,
                                   a: State<X>, b: State<X>)
    requires Adjacent(codec, eq, schemas, a, b)
    ensures CanDiff(codec, a, b)
  {
    forall id | id in schemas ensures Diffable(codec, a, b, id) {
      assert RoundTrips(codec, eq, schemas[id], a.protocols[id].data, b.protocols[id].data);
    }
  }

  lemma EntryFollows<X(!new), D>(codec: Codec<X, D>, eq: (Schema, Option<X>, Option<X>) -> bool,
                                 schemas: map<ProtocolID, Schema>,
                                  r: State<X>, a: State<X>, b: State<X>, now: nat, id: ProtocolID)
    requires Adjacent(codec, eq, schemas, a, b) && Equivalent(eq, r, a) && id in schemas && CanDiff(codec, a, b)
    ensures var d := DiffOf(codec, a, b, now);
            && Patchable(codec, r, d, id)
            && var p := PatchEntry(codec, r, d, id);
               p == b.protocols[id].(data := p.data) && eq(schemas[id], p.data, b.protocols[id].data)
  {
    assert RoundTrips(codec, eq, schemas[id], a.protocols[id].data, b.protocols[id].data);
    assert eq(schemas[id], r.protocols[id].data, a.protocols[id].data);
    assert b.protocols[id].error == "";
  }

  lemma PatchFollows<X(!new), D>(codec: Codec<X, D>, eq: (Schema, Option<X>, Option<X>) -> bool,
                                 schemas: map<ProtocolID, Schema>,
                                  r: State<X>, a: State<X>, b: State<X>, now: nat)
    requires Adjacent(codec, eq, schemas, a, b) && Equivalent(eq, r, a)
    ensures CanDiff(codec, a, b)
    ensures var d := DiffOf(codec, a, b, now); CanPatch(codec, r, d) && Equivalent(eq, PatchOf(codec, r, d), b)
  {
    AdjacentDiffs(codec, eq, schemas, a, b);
    forall id | id in schemas {
      EntryFollows(codec, eq, schemas, r, a, b, now, id);
    }
  }

  /** Folding the patches over the consecutive diffs never fails and ends at the last state. */
  lemma {:induction false} ReplayReachesState<X(!new), D>(schemas: map<ProtocolID, Schema>, codecs: seq<Codec<X, D>>,
      eq: (Schema, Option<X>, Option<X>) -> bool, times: seq<nat>, states: seq<State<X>>, n: nat)
    requires Stream(schemas, codecs, eq, states) && |times| == |codecs| && n <= |codecs|
    ensures Replay(codecs, times, states, n).Some?
    ensures Equivalent(eq, Replay(codecs, times, states, n).value, states[n])
  {
    if n > 0 {
      ReplayReachesState(schemas, codecs, eq, times, states, n - 1);
      assert Adjacent(codecs[n - 1], eq, schemas, states[n - 1], states[n]);
      var prev := Replay(codecs, times, states, n - 1).value;
      PatchFollows(codecs[n - 1], eq, schemas, prev, states[n - 1], states[n], times[n - 1]);
    }
  }
}
