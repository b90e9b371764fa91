/** The pool registry: keys, permanent IDs, a dictionary of protocol names and a block list; its history and the
    replication of its views, which never compares a pool that both views hold. */
module PoolRegistry {
  import opened Indexing
  import opened KeyedDiff
  import opened Outcome

  type Key = nat
  type ProtocolID = string

  const MAX_PROTOCOLS := 65535

  datatype PoolData = PoolData(key: Key, protocol: nat)
  type PoolView = Keyed<PoolData>

  datatype Error = PoolNotFound | PoolBlocked | ProtocolOverflow

  datatype Pools = Pools(
    id: seq<nat>,
    key: seq<Key>,
    protocol: seq<nat>,
    idToIndex: map<nat, nat>,
    keyToIndex: map<Key, nat>,
    protocolToInternal: map<ProtocolID, nat>,
    internalToProtocol: map<nat, ProtocolID>,
    blockList: set<Key>,
    nextID: nat,
    nextProto: nat)

  const EMPTY := Pools([], [], [], map[], map[], map[], map[], {}, 1, 0)

  ghost predicate Parallel(p: Pools) {
    |p.id| == |p.key| == |p.protocol|
  }

  /** The two protocol maps are inverse, and codes are issued below the counter. */
  ghost predicate Dictionary(p: Pools) {
    && (forall n :: n in p.protocolToInternal ==>
          p.protocolToInternal[n] in p.internalToProtocol && p.internalToProtocol[p.protocolToInternal[n]] == n)
    && (forall c :: c in p.internalToProtocol ==>
          && c < p.nextProto && p.internalToProtocol[c] in p.protocolToInternal
          && p.protocolToInternal[p.internalToProtocol[c]] == c)
    && p.nextProto <= MAX_PROTOCOLS
  }

  ghost predicate Consistent(p: Pools) {
    && Parallel(p)
    && Inverse(p.idToIndex, p.id)
    && Inverse(p.keyToIndex, p.key)
    && (forall k :: 0 <= k < |p.id| ==> 0 < p.id[k] < p.nextID)
    && (forall k :: 0 <= k < |p.protocol| ==> p.protocol[k] in p.internalToProtocol)
    && Dictionary(p)
    && p.nextID > 0
  }

  ghost function Contents(p: Pools): (m: map<nat, PoolData>)
    requires Parallel(p) && Inverse(p.idToIndex, p.id)
    ensures m.Keys == p.idToIndex.Keys
  {
    map id | id in p.idToIndex :: PoolData(p.key[p.idToIndex[id]], p.protocol[p.idToIndex[id]])
  }

  // ----- Operations -----

  /** A known name keeps its code; a new one takes the next, until the codes run out. */
  function Registered(p: Pools, name: ProtocolID): Result<(Pools, nat), Error> {
    if name in p.protocolToInternal then Ok((p, p.protocolToInternal[name]))
    else if p.nextProto == MAX_PROTOCOLS then Err(ProtocolOverflow)
    else Ok((p.(nextProto := p.nextProto + 1,
                protocolToInternal := p.protocolToInternal[name := p.nextProto],
                internalToProtocol := p.internalToProtocol[p.nextProto := name]), p.nextProto))
  }

  function Appended(p: Pools, key: Key, code: nat): Pools {
    p.(id := p.id + [p.nextID], key := p.key + [key], protocol := p.protocol + [code],
       idToIndex := p.idToIndex[p.nextID := |p.id|], keyToIndex := p.keyToIndex[key := |p.id|], nextID := p.nextID + 1)
  }

  function Added(p: Pools, key: Key, name: ProtocolID): (Pools, Result<nat, Error>)
    requires Consistent(p)
  {
    if key in p.blockList then (p, Err(PoolBlocked))
    else if key in p.keyToIndex then (p, Ok(p.id[p.keyToIndex[key]]))
    else
      match Registered(p, name)
      case Err(e) => (p, Err(e))
      case Ok((q, code)) => (Appended(q, key, code), Ok(p.nextID))
  }

  function Deleted(p: Pools, id: nat): (Pools, Result<(), Error>)
    requires Parallel(p) && Inverse(p.idToIndex, p.id)
  {
    if id !in p.idToIndex then (p, Err(PoolNotFound))
    else
      var k := p.idToIndex[id];
      var last := |p.id| - 1;
      (p.(id := Pop(p.id, k), key := Pop(p.key, k), protocol := Pop(p.protocol, k),
          idToIndex := p.idToIndex[p.id[last] := k] - {id},
          keyToIndex := p.keyToIndex[p.key[last] := k] - {p.key[k]}), Ok(()))
  }

  lemma RegisteredRefines(p: Pools, name: ProtocolID)
    requires Consistent(p)
    ensures var r := Registered(p, name);
            && (r.Err? <==> name !in p.protocolToInternal && p.nextProto == 65535)
            && (r.Err? ==> r.error == ProtocolOverflow)
            && (r.Ok? ==> var (q, code) := r.value;
                          && Consistent(q) && Contents(q) == Contents(p)
                          && q.nextID == p.nextID && q.blockList == p.blockList
                          && q.id == p.id && q.key == p.key
                          && q.idToIndex == p.idToIndex && q.keyToIndex == p.keyToIndex
                          && code in q.internalToProtocol && q.internalToProtocol[code] == name && NamesKept(p, q))
  {
  }

  /** A code once given to a protocol name keeps it. */
  ghost predicate NamesKept(p: Pools, q: Pools) {
    forall c :: c in p.internalToProtocol ==>
      c in q.internalToProtocol && q.internalToProtocol[c] == p.internalToProtocol[c]
  }

  /** Errors exactly on a blocked key or an exhausted dictionary; a known key returns its ID and changes nothing;
      otherwise exactly one pool, with a never-issued ID, is added. */
  lemma AddedRefines(p: Pools, key: Key, name: ProtocolID)
    requires Consistent(p)
    ensures var (q, r) := Added(p, key, name);
            && Consistent(q)
            && (r.Err? ==> q == p)
            && (r == Err(PoolBlocked) <==> key in p.blockList)
            && (r == Err(ProtocolOverflow) <==>
                  && key !in p.blockList && (forall id :: id in Contents(p) ==> Contents(p)[id].key != key)
                  && name !in p.protocolToInternal && p.nextProto == 65535)
            && (r.Err? ==> r.error == PoolBlocked || r.error == ProtocolOverflow)
            && q.blockList == p.blockList
            && (r.Ok? ==> r.value > 0 && r.value in Contents(q) && Contents(q)[r.value].key == key)
            && (r.Ok? && r.value < p.nextID ==> q == p)
            && (r.Ok? && r.value >= p.nextID ==>
                  var code := Contents(q)[r.value].protocol;
                  code in q.internalToProtocol && q.internalToProtocol[code] == name)
            && NamesKept(p, q)
            && (r.Ok? && r.value >= p.nextID ==>
                  && r.value == p.nextID && q.nextID == p.nextID + 1
                  && Contents(q) == Contents(p)[r.value := Contents(q)[r.value]])
  {
    RegisteredRefines(p, name);
    if key !in p.blockList {
      if key in p.keyToIndex {
        assert p.idToIndex[p.id[p.keyToIndex[key]]] == p.keyToIndex[key];
        assert Contents(p)[p.id[p.keyToIndex[key]]].key == key;
      } else if Registered(p, name).Ok? {
        var (q, code) := Registered(p, name).value;
        AppendedRefines(q, key, code);
      }
    }
  }

  lemma AppendedRefines(p: Pools, key: Key, code: nat)
    requires Consistent(p) && key !in p.keyToIndex && code in p.internalToProtocol
    ensures Consistent(Appended(p, key, code))
    ensures Contents(Appended(p, key, code)) == Contents(p)[p.nextID := PoolData(key, code)]
  {
    hide Inverse, Dictionary;
    assert p.nextID !in p.id;
    InverseIsIndexOf(p.keyToIndex, p.key, key);
    InverseAppend(p.idToIndex, p.id, p.nextID);
    InverseAppend(p.keyToIndex, p.key, key);
    assert Dictionary(Appended(p, key, code)) by { SameDictionary(p, Appended(p, key, code)); }
    AppendedContents(p, key, code);
  }

  lemma SameDictionary(p: Pools, q: Pools)
    requires Dictionary(p) && q.nextProto == p.nextProto
    requires q.protocolToInternal == p.protocolToInternal && q.internalToProtocol == p.internalToProtocol
    ensures Dictionary(q)
  {
  }

  lemma AppendedContents(p: Pools, key: Key, code: nat)
    requires Parallel(p) && Inverse(p.idToIndex, p.id)
    requires Inverse(Appended(p, key, code).idToIndex, Appended(p, key, code).id)
    ensures Contents(Appended(p, key, code)) == Contents(p)[p.nextID := PoolData(key, code)]
  {
  }

  lemma DeletedRefines(p: Pools, id: nat)
    requires Consistent(p)
    ensures var (q, r) := Deleted(p, id);
            && Consistent(q) && Contents(q) == Contents(p) - {id} && q.nextID == p.nextID
            && q.internalToProtocol == p.internalToProtocol && q.blockList == p.blockList
            && (r.Err? ==> r.error == PoolNotFound)
            && (r.Ok? <==> id in Contents(p)) && (r.Err? ==> q == p)
  {
    if id in p.idToIndex {
      var k := p.idToIndex[id];
      InversePop(p.idToIndex, p.id, k);
      InversePop(p.keyToIndex, p.key, k);
      DeletedContents(p, id);
    }
  }

  lemma DeletedContents(p: Pools, id: nat)
    requires Parallel(p) && Inverse(p.idToIndex, p.id) && id in p.idToIndex
    requires Inverse(Deleted(p, id).0.idToIndex, Deleted(p, id).0.id)
    ensures Contents(Deleted(p, id).0) == Contents(p) - {id}
  {
    var q := Deleted(p, id).0;
    forall x | x in q.idToIndex
      ensures x in p.idToIndex && x != id && Contents(q)[x] == Contents(p)[x]
    {
      PopLookup(p.idToIndex, p.id, p.idToIndex[id], x, p.key);
      PopLookup(p.idToIndex, p.id, p.idToIndex[id], x, p.protocol);
    }
    assert Contents(q).Keys == Contents(p).Keys - {id};
  }

  // ----- History -----

  datatype Op = AddPool(key: Key, name: ProtocolID) | DeletePool(id: nat) | Block(key: Key) | Unblock(key: Key)

  ghost function Apply(p: Pools, op: Op): (q: Pools)
    requires Consistent(p)
    ensures Consistent(q)
  {
    match op
    case AddPool(key, name) =>
      AddedRefines(p, key, name);
      Added(p, key, name).0
    case DeletePool(id) =>
      DeletedRefines(p, id);
      Deleted(p, id).0
    case Block(key) => p.(blockList := p.blockList + {key})
    case Unblock(key) => p.(blockList := p.blockList - {key})
  }

  /** What each operation means to the ID-keyed map of pools, the ID counter and the block list. */
  lemma ApplyMeans(p: Pools, op: Op)
    requires Consistent(p)
    ensures var q := Apply(p, op);
            && (op.AddPool? ==>
                  && q == Added(p, op.key, op.name).0 && q.blockList == p.blockList
                  && (q.nextID == p.nextID ==> Contents(q) == Contents(p))
                  && (q.nextID != p.nextID ==>
                        && q.nextID == p.nextID + 1 && p.nextID in Contents(q) && Contents(q)[p.nextID].key == op.key
                        && Contents(q) - {p.nextID} == Contents(p)))
            && (op.DeletePool? ==>
                  Contents(q) == Contents(p) - {op.id} && q.nextID == p.nextID && q.blockList == p.blockList)
            && (op.Block? ==> q == p.(blockList := p.blockList + {op.key}))
            && (op.Unblock? ==> q == p.(blockList := p.blockList - {op.key}))
  {
    hide Deleted, Inverse, Dictionary, Registered;
    match op
    case AddPool(key, name) =>
      AddedRefines(p, key, name);
      IssuedBelow(p);
      var (q, r) := Added(p, key, name);
      if q.nextID != p.nextID {
        assert p.nextID !in Contents(p);
      }
    case DeletePool(id) => DeletedRefines(p, id);
    case Block(_) =>
    case Unblock(_) =>
  }

  ghost function Run(p: Pools, ops: seq<Op>): (q: Pools)
    requires Consistent(p)
    ensures Consistent(q)
  {
    if ops == [] then p else Apply(Run(p, ops[..|ops| - 1]), ops[|ops| - 1])
  }

  lemma RunStep(p: Pools, ops: seq<Op>, op: Op)
    requires Consistent(p)
    ensures Run(p, []) == p && Run(p, ops + [op]) == Apply(Run(p, ops), op)
  {
    assert (ops + [op])[..|ops|] == ops;
  }

  /** Blocking a key touches nothing else, and the key is then refused whatever the protocol. */
  lemma BlockRefuses(p: Pools, key: Key, name: ProtocolID)
    requires Consistent(p)
    ensures var q := Apply(p, Block(key));
            && q == p.(blockList := q.blockList)
            && (forall k :: k in q.blockList <==> k in p.blockList || k == key)
            && Added(q, key, name) == (q, Err(PoolBlocked))
  {
  }

  /** Unblocking a key touches nothing else, and the key is then never refused as blocked. */
  lemma UnblockAdmits(p: Pools, key: Key, name: ProtocolID)
    requires Consistent(p)
    ensures var q := Apply(p, Unblock(key));
            && q == p.(blockList := q.blockList)
            && (forall k :: k in q.blockList <==> k in p.blockList && k != key)
            && Added(q, key, name).1 != Err(PoolBlocked)
  {
    AddedRefines(Apply(p, Unblock(key)), key, name);
  }

  /** IDs are never reissued, a pool's key and protocol never change, and neither does a protocol's name. */
  ghost predicate Evolves(p: Pools, q: Pools)
    requires Consistent(p) && Consistent(q)
  {
    && p.nextID <= q.nextID
    && NamesKept(p, q)
    && (forall id :: id in Contents(q) && id < p.nextID ==> id in Contents(p) && Contents(p)[id] == Contents(q)[id])
  }

  lemma ApplyEvolves(p: Pools, op: Op)
    requires Consistent(p)
    ensures Evolves(p, Apply(p, op))
  {
    hide Added, Deleted, Inverse, Dictionary, Registered;
    match op
    case AddPool(key, name) => AddedRefines(p, key, name);
    case DeletePool(id) => DeletedRefines(p, id);
    case Block(_) =>
    case Unblock(_) =>
  }

  lemma {:induction false} RunEvolves(p: Pools, ops: seq<Op>)
    requires Consistent(p)
    ensures Evolves(p, Run(p, ops))
  {
    if ops != [] {
      var n := |ops| - 1;
      RunEvolves(p, ops[..n]);
      ApplyEvolves(Run(p, ops[..n]), ops[n]);
    }
  }

  // ----- Views and replication -----

  datatype View = View(pools: seq<PoolView>, protocols: map<nat, ProtocolID>)

  function ViewOf(p: Pools): View
    requires Parallel(p)
  {
    View(seq(|p.id|, k requires 0 <= k < |p.id| => Keyed(p.id[k], PoolData(p.key[k], p.protocol[k]))),
         p.internalToProtocol)
  }

  lemma ViewLists(p: Pools)
    requires Consistent(p)
    ensures Lists(ViewOf(p).pools, Contents(p)) && ViewOf(p).protocols == p.internalToProtocol
  {
    var s := ViewOf(p).pools;
    forall id | id in Contents(p) ensures exists i :: 0 <= i < |s| && s[i].id == id {
      assert s[p.idToIndex[id]].id == id;
    }
    ListsExactly(s, Contents(p));
  }

  datatype ViewDiff = ViewDiff(poolAdditions: seq<PoolView>, poolDeletions: seq<nat>,
                               protocolAdditions: map<nat, ProtocolID>, protocolDeletions: seq<nat>)

  /** The dictionary entries of `b` that `a` lacks or holds under another name. */
  ghost function Renamed(a: map<nat, ProtocolID>, b: map<nat, ProtocolID>): map<nat, ProtocolID> {
    map c | c in b && (c !in a || a[c] != b[c]) :: b[c]
  }

  lemma NamesFollow(a: map<nat, ProtocolID>, b: map<nat, ProtocolID>, retired: set<nat>)
    requires retired == a.Keys - b.Keys
    ensures a - retired + Renamed(a, b) == b
  {
  }

  /** A pool that both views hold is taken as unchanged without looking; dictionary entries are compared. */
  ghost predicate IsViewDiff(a: View, b: View, d: ViewDiff) {
    && IsDiff(ToMap(a.pools), ToMap(b.pools), ToMap(a.pools).Keys, Diff(d.poolAdditions, [], d.poolDeletions))
    && d.protocolAdditions == Renamed(a.protocols, b.protocols)
    && Elements(d.protocolDeletions) == a.protocols.Keys - b.protocols.Keys
  }

  method Differ(old_: View, new_: View) returns (d: ViewDiff)
    ensures IsViewDiff(old_, new_, d)
  {
    var oldPools := BuildMap(old_.pools);
    var newPools := BuildMap(new_.pools);
    var additions: seq<PoolView> := [];
    var rest := newPools.Keys;
    ghost var seen: set<nat> := {};
    ghost var added := newPools - oldPools.Keys;
    while rest != {}
      invariant rest <= newPools.Keys && seen == newPools.Keys - rest
      invariant Lists(additions, Only(added, seen))
    {
      var id := Draw(rest);
      OnlyGrows(added, seen, id);
      if id !in oldPools {
        ListsAppend(additions, Only(added, seen), Keyed(id, newPools[id]));
        additions := additions + [Keyed(id, newPools[id])];
      }
      rest, seen := rest - {id}, seen + {id};
    }
    OnlyAll(added, seen);
    var deletions := Vanished(oldPools, newPools);
    var names := ChangedNames(old_.protocols, new_.protocols);
    var retired := Vanished(old_.protocols, new_.protocols);
    d := ViewDiff(additions, deletions, names, retired);
  }

  method ChangedNames(a: map<nat, ProtocolID>, b: map<nat, ProtocolID>) returns (r: map<nat, ProtocolID>)
    ensures r == Renamed(a, b)
  {
    r := map[];
    var rest := b.Keys;
    while rest != {}
      invariant rest <= b.Keys
      invariant r == map c | c in b && c !in rest && (c !in a || a[c] != b[c]) :: b[c]
    {
      var c := Draw(rest);
      if c !in a || a[c] != b[c] {
        r := r[c := b[c]];
      }
      rest := rest - {c};
    }
  }

  method Patcher(prev: View, d: ViewDiff) returns (r: View)
    ensures Lists(r.pools, Patched(ToMap(prev.pools), Diff(d.poolAdditions, [], d.poolDeletions)))
    ensures r.protocols == prev.protocols - Elements(d.protocolDeletions) + d.protocolAdditions
  {
    var state := BuildMap(prev.pools);
    state := Delete(state, d.poolDeletions);
    assert state + ToMap<PoolData>([]) == state;
    state := Overwrite(state, d.poolAdditions);
    var pools := FlattenMap(state);
    var protocols := Delete(prev.protocols, d.protocolDeletions);
    r := View(pools, protocols + d.protocolAdditions);
  }

  /** The diff is minimal: pools by ID only, names that are new or changed, names that vanished. */
  lemma DiffExactly(a: View, b: View, d: ViewDiff, id: nat)
    requires IsViewDiff(a, b, d)
    ensures id in ToMap(d.poolAdditions) <==> id in ToMap(b.pools) && id !in ToMap(a.pools)
    ensures id in ToMap(d.poolAdditions) ==> ToMap(d.poolAdditions)[id] == ToMap(b.pools)[id]
    ensures id in d.poolDeletions <==> id in ToMap(a.pools) && id !in ToMap(b.pools)
    ensures id in d.protocolAdditions <==>
            id in b.protocols && (id !in a.protocols || a.protocols[id] != b.protocols[id])
    ensures id in d.protocolAdditions ==> d.protocolAdditions[id] == b.protocols[id]
    ensures id in d.protocolDeletions <==> id in a.protocols && id !in b.protocols
  {
    var x, y := ToMap(a.pools), ToMap(b.pools);
    DiffListsExactly(x, y, x.Keys, Diff(d.poolAdditions, [], d.poolDeletions), id);
    assert id in d.protocolDeletions <==> id in Elements(d.protocolDeletions);
  }

  /** For any two moments of one run: patching the earlier view, or any reordering of it, gives the later one,
      pools as an ID-keyed map and the dictionary exactly, although shared pools were never compared. */
  lemma ReplicaFollowsRun(before: seq<Op>, after: seq<Op>, replica: View, d: ViewDiff)
    requires var p := Run(EMPTY, before);
             && ToMap(replica.pools) == ToMap(ViewOf(p).pools) && replica.protocols == ViewOf(p).protocols
             && IsViewDiff(ViewOf(p), ViewOf(Run(p, after)), d)
    ensures var q := Run(Run(EMPTY, before), after);
            && Patched(ToMap(replica.pools), Diff(d.poolAdditions, [], d.poolDeletions)) == ToMap(ViewOf(q).pools)
            && replica.protocols - Elements(d.protocolDeletions) + d.protocolAdditions == ViewOf(q).protocols
  {
    var p := Run(EMPTY, before);
    var q := Run(p, after);
    RunEvolves(p, after);
    ReplicaFollows(p, q, d);
  }

  lemma ReplicaFollows(p: Pools, q: Pools, d: ViewDiff)
    requires Consistent(p) && Consistent(q) && Evolves(p, q) && IsViewDiff(ViewOf(p), ViewOf(q), d)
    ensures Patched(ToMap(ViewOf(p).pools), Diff(d.poolAdditions, [], d.poolDeletions)) == ToMap(ViewOf(q).pools)
    ensures p.internalToProtocol - Elements(d.protocolDeletions) + d.protocolAdditions == q.internalToProtocol
  {
    ViewLists(p);
    ViewLists(q);
    IssuedBelow(p);
    MapsFollow(Contents(p), Contents(q), p.nextID, Diff(d.poolAdditions, [], d.poolDeletions));
    NamesFollow(p.internalToProtocol, q.internalToProtocol, Elements(d.protocolDeletions));
  }

  lemma IssuedBelow(p: Pools)
    requires Consistent(p)
    ensures forall id :: id in Contents(p) ==> 0 < id < p.nextID
  {
    forall id | id in Contents(p) ensures 0 < id < p.nextID {
      assert p.id[p.idToIndex[id]] == id;
    }
  }

  lemma MapsFollow(a: map<nat, PoolData>, b: map<nat, PoolData>, issued: nat, d: Diff<PoolData>)
    requires forall id :: id in a ==> id < issued
    requires forall id :: id in b && id < issued ==> id in a && a[id] == b[id]
    requires IsDiff(a, b, a.Keys, d)
    ensures Patched(a, d) == b
  {
    PatchedDiff(a, b, a.Keys, d, a);
  }

  /** Over any two views, related or not: the dictionary always follows, and the pools follow if and only if every
      pool held by both is the same in both. */
  lemma RoundTripExact(a: View, b: View, d: ViewDiff)
    requires IsViewDiff(a, b, d)
    ensures a.protocols - Elements(d.protocolDeletions) + d.protocolAdditions == b.protocols
    ensures var (x, y) := (ToMap(a.pools), ToMap(b.pools));
            Patched(x, Diff(d.poolAdditions, [], d.poolDeletions)) == y <==>
            forall id :: id in x && id in y ==> x[id] == y[id]
  {
    NamesFollow(a.protocols, b.protocols, Elements(d.protocolDeletions));
    RoundTripExactly(ToMap(a.pools), ToMap(b.pools), ToMap(a.pools).Keys, Diff(d.poolAdditions, [], d.poolDeletions));
  }

  // ----- The mutable registry -----

  class PoolRegistry {
    var id: seq<nat>
    var key: seq<Key>
    var protocol: seq<nat>
    var idToIndex: map<nat, nat>
    var keyToIndex: map<Key, nat>
    var protocolToInternal: map<ProtocolID, nat>
    var internalToProtocol: map<nat, ProtocolID>
    var blockList: set<Key>
    var nextID: nat
    var nextProto: nat

    function Fields(): Pools
      reads this
    {
      Pools(id, key, protocol, idToIndex, keyToIndex, protocolToInternal, internalToProtocol, blockList,
            nextID, nextProto)
    }

    ghost predicate Valid()
      reads this
    {
      Consistent(Fields())
    }

    constructor ()
      ensures Valid() && Fields() == EMPTY && nextID == 1 && nextProto == 0
      ensures id == [] && key == [] && protocol == [] && internalToProtocol == map[] && blockList == {}
    {
      id, key, protocol := [], [], [];
      idToIndex, keyToIndex, protocolToInternal, internalToProtocol := map[], map[], map[], map[];
      blockList, nextID, nextProto := {}, 1, 0;
    }

    method RegisterProtocol(name: ProtocolID) returns (r: Result<nat, Error>)
      requires Dictionary(Fields())
      modifies this`nextProto, this`protocolToInternal, this`internalToProtocol
      ensures match Registered(old(Fields()), name)
              case Ok((q, code)) => r == Ok(code) && Fields() == q
              case Err(e) => r == Err(e) && Fields() == old(Fields())
    {
      if name in protocolToInternal {
        return Ok(protocolToInternal[name]);
      }
      if nextProto == MAX_PROTOCOLS {
        return Err(ProtocolOverflow);
      }
      var code := nextProto;
      nextProto := nextProto + 1;
      protocolToInternal := protocolToInternal[name := code];
      internalToProtocol := internalToProtocol[code := name];
      return Ok(code);
    }

    method AddPool(poolKey: Key, name: ProtocolID) returns (r: Result<nat, Error>)
      requires Valid()
      modifies this
      ensures Valid()
      ensures (Fields(), r) == Added(old(Fields()), poolKey, name)
    {
      AddedRefines(Fields(), poolKey, name);
      if poolKey in blockList {
        return Err(PoolBlocked);
      }
      if poolKey in keyToIndex {
        return Ok(id[keyToIndex[poolKey]]);
      }
      var code := RegisterProtocol(name);
      if code.Err? {
        return Err(code.error);
      }
      r := Ok(nextID);
      Append(poolKey, code.value);
    }

    method Append(poolKey: Key, code: nat)
      modifies this`id, this`key, this`protocol, this`idToIndex, this`keyToIndex, this`nextID
      ensures Fields() == Appended(old(Fields()), poolKey, code)
    {
      var newIndex := |id|;
      idToIndex := idToIndex[nextID := newIndex];
      keyToIndex := keyToIndex[poolKey := newIndex];
      id := id + [nextID];
      key := key + [poolKey];
      protocol := protocol + [code];
      nextID := nextID + 1;
    }

    method DeletePool(target: nat) returns (r: Result<(), Error>)
      requires Valid()
      modifies this`id, this`key, this`protocol, this`idToIndex, this`keyToIndex
      ensures Valid()
      ensures (Fields(), r) == Deleted(old(Fields()), target)
    {
      DeletedRefines(Fields(), target);
      if target !in idToIndex {
        return Err(PoolNotFound);
      }
      SwapAndPop(target);
      return Ok(());
    }

    method SwapAndPop(target: nat)
      requires Parallel(Fields()) && Inverse(idToIndex, id) && target in idToIndex
      modifies this`id, this`key, this`protocol, this`idToIndex, this`keyToIndex
      ensures Fields() == Deleted(old(Fields()), target).0
    {
      var index := idToIndex[target];
      var keyToDelete := key[index];
      var last := |id| - 1;
      var lastKey, lastID, lastProto := key[last], id[last], protocol[last];
      id := id[index := lastID];
      key := key[index := lastKey];
      protocol := protocol[index := lastProto];
      idToIndex := idToIndex[lastID := index];
      keyToIndex := keyToIndex[lastKey := index];
      idToIndex := idToIndex - {target};
      keyToIndex := keyToIndex - {keyToDelete};
      id := id[..last];
      key := key[..last];
      protocol := protocol[..last];
    }

    method AddToBlockList(poolKey: Key)
      requires Valid()
      modifies this`blockList
      ensures Valid() && Fields() == Apply(old(Fields()), Block(poolKey))
      ensures poolKey in blockList && forall k :: k != poolKey ==> (k in blockList <==> k in old(blockList))
    {
      blockList := blockList + {poolKey};
    }

    method RemoveFromBlockList(poolKey: Key)
      requires Valid()
      modifies this`blockList
      ensures Valid() && Fields() == Apply(old(Fields()), Unblock(poolKey))
      ensures poolKey !in blockList && forall k :: k != poolKey ==> (k in blockList <==> k in old(blockList))
    {
      blockList := blockList - {poolKey};
    }
  }
}
