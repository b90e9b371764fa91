/** The ERC20 token registry: struct-of-arrays storage with permanent IDs, its history, and the replication of its
    views. */
module TokenRegistry {
  import opened Indexing
  import opened KeyedDiff
  import opened Outcome

  type Address = nat

  datatype TokenData = TokenData(address: Address, name: string, symbol: string, decimals: nat, fee: real, gas: nat)
  type TokenView = Keyed<TokenData>

  datatype Error = AlreadyExists | TokenNotFound

  // ----- The columns as one value -----

  datatype Columns = Columns(
    id: seq<nat>,
    address: seq<Address>,
    name: seq<string>,
    symbol: seq<string>,
    decimals: seq<nat>,
    fee: seq<real>,
    gas: seq<nat>,
    nextID: nat,
    idToIndex: map<nat, nat>,
    addressToID: map<Address, nat>)

  const EMPTY := Columns([], [], [], [], [], [], [], 1, map[], map[])

  ghost predicate Parallel(c: Columns) {
    |c.id| == |c.address| == |c.name| == |c.symbol| == |c.decimals| == |c.fee| == |c.gas|
  }

  /** Equal lengths, an exact ID index, issued IDs below the counter, and one token per address. */
  ghost predicate Consistent(c: Columns) {
    && Parallel(c)
    && Inverse(c.idToIndex, c.id)
    && (forall k :: 0 <= k < |c.id| ==> 0 < c.id[k] < c.nextID)
    && (forall k :: 0 <= k < |c.id| ==> c.address[k] in c.addressToID && c.addressToID[c.address[k]] == c.id[k])
    && (forall a :: a in c.addressToID ==>
          c.addressToID[a] in c.idToIndex && c.address[c.idToIndex[c.addressToID[a]]] == a)
    && c.nextID > 0
  }

  ghost function RowAt(c: Columns, k: nat): TokenData
    requires Parallel(c) && k < |c.id|
  {
    TokenData(c.address[k], c.name[k], c.symbol[k], c.decimals[k], c.fee[k], c.gas[k])
  }

  /** What the columns mean. */
  ghost function Contents(c: Columns): (m: map<nat, TokenData>)
    requires Parallel(c) && Inverse(c.idToIndex, c.id)
    ensures m.Keys == c.idToIndex.Keys
  {
    map id | id in c.idToIndex :: RowAt(c, c.idToIndex[id])
  }

  function Added(c: Columns, a: Address, name: string, symbol: string, decimals: nat): Columns {
    if a in c.addressToID then c
    else Columns(c.id + [c.nextID], c.address + [a], c.name + [name], c.symbol + [symbol], c.decimals + [decimals],
                 c.fee + [0.0], c.gas + [0], c.nextID + 1,
                 c.idToIndex[c.nextID := |c.address|], c.addressToID[a := c.nextID])
  }

  function Deleted(c: Columns, id: nat): Columns
    requires Parallel(c) && (id in c.idToIndex ==> c.idToIndex[id] < |c.id|)
  {
    if id !in c.idToIndex then c
    else
      var k := c.idToIndex[id];
      Columns(Pop(c.id, k), Pop(c.address, k), Pop(c.name, k), Pop(c.symbol, k), Pop(c.decimals, k),
              Pop(c.fee, k), Pop(c.gas, k),
              c.nextID, c.idToIndex[c.id[|c.id| - 1] := k] - {id}, c.addressToID - {c.address[k]})
  }

  function Updated(c: Columns, id: nat, fee: real, gas: nat): Columns
    requires Parallel(c) && (id in c.idToIndex ==> c.idToIndex[id] < |c.id|)
  {
    if id !in c.idToIndex then c
    else c.(fee := c.fee[c.idToIndex[id] := fee], gas := c.gas[c.idToIndex[id] := gas])
  }

  lemma AddedRefines(c: Columns, a: Address, name: string, symbol: string, decimals: nat)
    requires Consistent(c)
    ensures Consistent(Added(c, a, name, symbol, decimals))
    ensures a in c.addressToID <==> exists id :: id in Contents(c) && Contents(c)[id].address == a
    ensures a in c.addressToID ==> Added(c, a, name, symbol, decimals) == c
    ensures a !in c.addressToID ==> Added(c, a, name, symbol, decimals).nextID == c.nextID + 1
    ensures a !in c.addressToID ==>
      Contents(Added(c, a, name, symbol, decimals)) ==
      Contents(c)[c.nextID := TokenData(a, name, symbol, decimals, 0.0, 0)]
  {
    if a in c.addressToID {
      assert c.addressToID[a] in Contents(c);
    } else {
      assert c.nextID !in c.id;
      InverseAppend(c.idToIndex, c.id, c.nextID);
      AddedConsistent(c, a, name, symbol, decimals);
      AddedContents(c, a, name, symbol, decimals);
    }
  }

  lemma AddedConsistent(c: Columns, a: Address, name: string, symbol: string, decimals: nat)
    requires Consistent(c) && a !in c.addressToID && c.nextID !in c.id
    requires Inverse(c.idToIndex[c.nextID := |c.id|], c.id + [c.nextID])
    ensures Consistent(Added(c, a, name, symbol, decimals))
  {
    var d := Added(c, a, name, symbol, decimals);
    forall x | x in c.addressToID
      ensures d.addressToID[x] in d.idToIndex && d.address[d.idToIndex[d.addressToID[x]]] == x
    {
      assert c.addressToID[x] in c.idToIndex && c.address[c.idToIndex[c.addressToID[x]]] == x;
    }
  }

  lemma AddedContents(c: Columns, a: Address, name: string, symbol: string, decimals: nat)
    requires Parallel(c) && Inverse(c.idToIndex, c.id) && a !in c.addressToID && c.nextID !in c.id
    requires Inverse(c.idToIndex[c.nextID := |c.id|], c.id + [c.nextID])
    ensures var d := Added(c, a, name, symbol, decimals);
            Contents(d) == Contents(c)[c.nextID := TokenData(a, name, symbol, decimals, 0.0, 0)]
  {
    var d := Added(c, a, name, symbol, decimals);
    forall id | id in c.idToIndex ensures RowAt(d, d.idToIndex[id]) == RowAt(c, c.idToIndex[id]) {
      assert c.id[c.idToIndex[id]] == id;
    }
  }

  lemma DeletedRefines(c: Columns, id: nat)
    requires Consistent(c)
    ensures Consistent(Deleted(c, id)) && Deleted(c, id).nextID == c.nextID
    ensures Contents(Deleted(c, id)) == Contents(c) - {id}
  {
    if id in c.idToIndex {
      var k := c.idToIndex[id];
      InversePop(c.idToIndex, c.id, k);
      DeletedConsistent(c, id);
      DeletedContents(c, id);
    }
  }

  lemma DeletedConsistent(c: Columns, id: nat)
    requires Consistent(c) && id in c.idToIndex && Inverse(Deleted(c, id).idToIndex, Deleted(c, id).id)
    ensures Consistent(Deleted(c, id))
  {
    var d := Deleted(c, id);
    var k := c.idToIndex[id];
    forall j | 0 <= j < |d.id| ensures d.address[j] in d.addressToID && d.addressToID[d.address[j]] == d.id[j] {
      var from := if j == k then |c.id| - 1 else j;
      assert c.addressToID[c.address[from]] == c.id[from];
      assert c.addressToID[c.address[k]] == c.id[k];
      assert c.id[from] != c.id[k];
    }
    forall a | a in d.addressToID
      ensures d.addressToID[a] in d.idToIndex && d.address[d.idToIndex[d.addressToID[a]]] == a
    {
      assert c.address[c.idToIndex[c.addressToID[a]]] == a;
    }
  }

  lemma DeletedContents(c: Columns, id: nat)
    requires Parallel(c) && Inverse(c.idToIndex, c.id) && id in c.idToIndex
    requires Inverse(Deleted(c, id).idToIndex, Deleted(c, id).id)
    ensures Contents(Deleted(c, id)) == Contents(c) - {id}
  {
    var d := Deleted(c, id);
    forall x | x in d.idToIndex
      ensures x in c.idToIndex && x != id && RowAt(d, d.idToIndex[x]) == RowAt(c, c.idToIndex[x])
    {
      assert c.id[c.idToIndex[x]] == x;
    }
    assert Contents(d).Keys == Contents(c).Keys - {id};
  }

  lemma UpdatedRefines(c: Columns, id: nat, fee: real, gas: nat)
    requires Consistent(c)
    ensures Consistent(Updated(c, id, fee, gas)) && Updated(c, id, fee, gas).nextID == c.nextID
    ensures Contents(Updated(c, id, fee, gas)) ==
            if id in Contents(c) then Contents(c)[id := Contents(c)[id].(fee := fee, gas := gas)] else Contents(c)
  {
  }

  // ----- History: IDs are never reissued, static fields never change -----

  datatype Op =
    | AddToken(a: Address, name: string, symbol: string, decimals: nat)
    | DeleteToken(id: nat)
    | UpdateToken(id: nat, fee: real, gas: nat)

  ghost function Apply(c: Columns, op: Op): (d: Columns)
    requires Consistent(c)
    ensures Consistent(d)
  {
    match op
    case AddToken(a, name, symbol, decimals) =>
      AddedRefines(c, a, name, symbol, decimals);
      Added(c, a, name, symbol, decimals)
    case DeleteToken(id) =>
      DeletedRefines(c, id);
      Deleted(c, id)
    case UpdateToken(id, fee, gas) =>
      UpdatedRefines(c, id, fee, gas);
      Updated(c, id, fee, gas)
  }

  /** What each operation means to the ID-keyed map of tokens and to the ID counter. */
  lemma ApplyMeans(c: Columns, op: Op)
    requires Consistent(c)
    ensures var d := Apply(c, op);
            var known := op.AddToken? && exists id :: id in Contents(c) && Contents(c)[id].address == op.a;
            && d.nextID == c.nextID + (if op.AddToken? && !known then 1 else 0)
            && (op.AddToken? && known ==> d == c)
            && (op.AddToken? && !known ==>
                  Contents(d) == Contents(c)[c.nextID := TokenData(op.a, op.name, op.symbol, op.decimals, 0.0, 0)])
            && (op.DeleteToken? ==> Contents(d) == Contents(c) - {op.id})
            && (op.UpdateToken? && op.id !in Contents(c) ==> Contents(d) == Contents(c))
            && (op.UpdateToken? && op.id in Contents(c) ==>
                  Contents(d) == Contents(c)[op.id := Contents(c)[op.id].(fee := op.fee, gas := op.gas)])
  {
    hide Deleted, Updated, Inverse, RowAt;
    match op
    case AddToken(a, name, symbol, decimals) => AddedRefines(c, a, name, symbol, decimals);
    case DeleteToken(id) => DeletedRefines(c, id);
    case UpdateToken(id, fee, gas) => UpdatedRefines(c, id, fee, gas);
  }

  ghost function Run(c: Columns, ops: seq<Op>): (d: Columns)
    requires Consistent(c)
    ensures Consistent(d)
  {
    if ops == [] then c else Apply(Run(c, ops[..|ops| - 1]), ops[|ops| - 1])
  }

  lemma RunStep(c: Columns, ops: seq<Op>, op: Op)
    requires Consistent(c)
    ensures Run(c, []) == c && Run(c, ops + [op]) == Apply(Run(c, ops), op)
  {
    assert (ops + [op])[..|ops|] == ops;
  }

  ghost predicate SameStatic(x: TokenData, y: TokenData) {
    x == y.(fee := x.fee, gas := x.gas)
  }

  ghost predicate Evolves(c: Columns, d: Columns)
    requires Consistent(c) && Consistent(d)
  {
    && c.nextID <= d.nextID
    && (forall id :: id in Contents(d) && id < c.nextID ==>
          id in Contents(c) && SameStatic(Contents(c)[id], Contents(d)[id]))
  }

  lemma ApplyEvolves(c: Columns, op: Op)
    requires Consistent(c)
    ensures Evolves(c, Apply(c, op))
  {
    hide Deleted, Updated, Inverse, RowAt;
    match op
    case AddToken(a, name, symbol, decimals) => AddedRefines(c, a, name, symbol, decimals);
    case DeleteToken(id) => DeletedRefines(c, id);
    case UpdateToken(id, fee, gas) => UpdatedRefines(c, id, fee, gas);
  }

  lemma EvolvesTrans(c: Columns, d: Columns, e: Columns)
    requires Consistent(c) && Consistent(d) && Consistent(e) && Evolves(c, d) && Evolves(d, e)
    ensures Evolves(c, e)
  {
  }

  /** Over any stretch of a run: an ID seen earlier and later names the same token throughout. */
  lemma {:induction false} RunEvolves(c: Columns, ops: seq<Op>)
    requires Consistent(c)
    ensures Evolves(c, Run(c, ops))
  {
    if ops != [] {
      var n := |ops| - 1;
      RunEvolves(c, ops[..n]);
      ApplyEvolves(Run(c, ops[..n]), ops[n]);
      EvolvesTrans(c, Run(c, ops[..n]), Run(c, ops));
    }
  }

  // ----- Replication -----

  ghost function ViewOf(c: Columns): seq<TokenView>
    requires Parallel(c)
  {
    seq(|c.id|, k requires 0 <= k < |c.id| => Keyed(c.id[k], RowAt(c, k)))
  }

  lemma ViewLists(c: Columns)
    requires Consistent(c)
    ensures Lists(ViewOf(c), Contents(c))
  {
    forall id | id in Contents(c) ensures exists i :: 0 <= i < |ViewOf(c)| && ViewOf(c)[i].id == id {
      assert ViewOf(c)[c.idToIndex[id]].id == id;
    }
    ListsExactly(ViewOf(c), Contents(c));
  }

  /** All the differ looks at. */
  predicate SameFees(x: TokenData, y: TokenData) {
    x.fee == y.fee && x.gas == y.gas
  }

  /** The shared IDs the differ takes as unchanged. */
  ghost function Unchanged(a: map<nat, TokenData>, b: map<nat, TokenData>): set<nat> {
    Agreeing(a, b, SameFees)
  }

  method Differ(old_: seq<TokenView>, new_: seq<TokenView>) returns (d: Diff<TokenData>)
    ensures IsDiff(ToMap(old_), ToMap(new_), Unchanged(ToMap(old_), ToMap(new_)), d)
  {
    d := DiffBy(old_, new_, SameFees);
  }

  /** The diff is minimal: a token is sent as an update exactly when its fee or gas moved. */
  lemma DiffExactly(a: map<nat, TokenData>, b: map<nat, TokenData>, d: Diff<TokenData>, id: nat)
    requires IsDiff(a, b, Unchanged(a, b), d)
    ensures id in ToMap(d.updates) <==> id in a && id in b && (a[id].fee != b[id].fee || a[id].gas != b[id].gas)
    ensures id in ToMap(d.additions) <==> id in b && id !in a
    ensures id in d.deletions <==> id in a && id !in b
  {
    DiffListsExactly(a, b, Unchanged(a, b), d, id);
  }

  /** For any two moments of one run: patching the earlier view, or any reordering of it, with the diff
      gives the later view as an ID-keyed map, although only fee and gas were compared. */
  lemma ReplicaFollowsRun(before: seq<Op>, after: seq<Op>, replica: seq<TokenView>, d: Diff<TokenData>)
    requires var c := Run(EMPTY, before);
             var e := Run(c, after);
             && ToMap(replica) == ToMap(ViewOf(c))
             && IsDiff(ToMap(ViewOf(c)), ToMap(ViewOf(e)), Unchanged(ToMap(ViewOf(c)), ToMap(ViewOf(e))), d)
    ensures Patched(ToMap(replica), d) == ToMap(ViewOf(Run(Run(EMPTY, before), after)))
  {
    RunEvolves(Run(EMPTY, before), after);
    ReplicaFollows(Run(EMPTY, before), Run(Run(EMPTY, before), after), replica, d);
  }

  lemma ReplicaFollows(c: Columns, e: Columns, replica: seq<TokenView>, d: Diff<TokenData>)
    requires Consistent(c) && Consistent(e) && Evolves(c, e)
    requires ToMap(replica) == ToMap(ViewOf(c))
    requires IsDiff(ToMap(ViewOf(c)), ToMap(ViewOf(e)), Unchanged(ToMap(ViewOf(c)), ToMap(ViewOf(e))), d)
    ensures Patched(ToMap(replica), d) == ToMap(ViewOf(e))
  {
    ViewLists(c);
    ViewLists(e);
    IssuedBelow(c);
    MapsFollow(Contents(c), Contents(e), c.nextID, d);
  }

  lemma IssuedBelow(c: Columns)
    requires Consistent(c)
    ensures forall id :: id in Contents(c) ==> id < c.nextID
  {
    forall id | id in Contents(c) ensures id < c.nextID {
      assert c.id[c.idToIndex[id]] == id;
    }
  }

  lemma MapsFollow(a: map<nat, TokenData>, b: map<nat, TokenData>, issued: nat, d: Diff<TokenData>)
    requires forall id :: id in a ==> id < issued
    requires forall id :: id in b && id < issued ==> id in a && SameStatic(a[id], b[id])
    requires IsDiff(a, b, Unchanged(a, b), d)
    ensures Patched(a, d) == b
  {
    PatchedDiff(a, b, Unchanged(a, b), d, a);
  }

  /** Over any two views, related or not, the round trip succeeds if and only if the tokens whose fee and gas agree
      agree in everything else. */
  lemma RoundTripExact(a: map<nat, TokenData>, b: map<nat, TokenData>, d: Diff<TokenData>)
    requires IsDiff(a, b, Unchanged(a, b), d)
    ensures Patched(a, d) == b <==> forall id :: id in Unchanged(a, b) ==> SameStatic(a[id], b[id])
    ensures Patched(a, d) == b <==>
            forall id :: id in a && id in b && a[id].fee == b[id].fee && a[id].gas == b[id].gas ==> a[id] == b[id]
  {
    RoundTripExactly(a, b, Unchanged(a, b), d);
  }

  /** So history is needed: a changed static field under one ID is missed whenever fee and gas stay equal. */
  lemma UnrelatedViewsCanDiverge(a: map<nat, TokenData>, b: map<nat, TokenData>, id: nat, d: Diff<TokenData>)
    requires IsDiff(a, b, Unchanged(a, b), d)
    requires id in a && id in b && SameFees(a[id], b[id]) && !SameStatic(a[id], b[id])
    ensures Patched(a, d) != b
  {
    RoundTripExact(a, b, d);
    assert id in Unchanged(a, b);
  }

  // ----- The mutable registry -----

  class TokenRegistry {
    var id: seq<nat>
    var address: seq<Address>
    var name: seq<string>
    var symbol: seq<string>
    var decimals: seq<nat>
    var fee: seq<real>
    var gas: seq<nat>
    var nextID: nat
    var idToIndex: map<nat, nat>
    var addressToID: map<Address, nat>

    ghost function Fields(): Columns
      reads this
    {
      Columns(id, address, name, symbol, decimals, fee, gas, nextID, idToIndex, addressToID)
    }

    ghost predicate Valid()
      reads this
    {
      Consistent(Fields())
    }

    constructor ()
      ensures Valid() && Fields() == EMPTY && nextID == 1 && id == [] && addressToID == map[]
    {
      id, address, name, symbol, decimals, fee, gas := [], [], [], [], [], [], [];
      nextID, idToIndex, addressToID := 1, map[], map[];
    }

    method AddToken(a: Address, tokenName: string, tokenSymbol: string, tokenDecimals: nat)
      returns (r: Result<nat, Error>)
      requires Valid()
      modifies this
      ensures Valid() && Fields() == Apply(old(Fields()), Op.AddToken(a, tokenName, tokenSymbol, tokenDecimals))
      ensures r == if a in old(addressToID) then Err(AlreadyExists) else Ok(old(nextID))
    {
      AddedRefines(Fields(), a, tokenName, tokenSymbol, tokenDecimals);
      if a in addressToID {
        return Err(AlreadyExists);
      }
      r := Ok(nextID);
      Append(a, tokenName, tokenSymbol, tokenDecimals);
    }

    method Append(a: Address, tokenName: string, tokenSymbol: string, tokenDecimals: nat)
      requires a !in addressToID
      modifies this
      ensures Fields() == Added(old(Fields()), a, tokenName, tokenSymbol, tokenDecimals)
    {
      var newID := nextID;
      nextID := nextID + 1;
      var newIndex := |address|;
      address := address + [a];
      name := name + [tokenName];
      symbol := symbol + [tokenSymbol];
      decimals := decimals + [tokenDecimals];
      fee := fee + [0.0];
      gas := gas + [0];
      id := id + [newID];
      idToIndex := idToIndex[newID := newIndex];
      addressToID := addressToID[a := newID];
    }

    method DeleteToken(target: nat) returns (r: Result<(), Error>)
      requires Valid()
      modifies this
      ensures Valid() && Fields() == Apply(old(Fields()), Op.DeleteToken(target))
      ensures r == if target in old(idToIndex) then Ok(()) else Err(TokenNotFound)
    {
      DeletedRefines(Fields(), target);
      if target !in idToIndex {
        return Err(TokenNotFound);
      }
      SwapAndPop(target);
      return Ok(());
    }

    method SwapAndPop(target: nat)
      requires Parallel(Fields()) && target in idToIndex && idToIndex[target] < |id| && id[idToIndex[target]] == target
      modifies this
      ensures Fields() == Deleted(old(Fields()), target)
    {
      var index := idToIndex[target];
      var addr := address[index];
      var last := |address| - 1;
      if index != last {
        MoveLast(index, last);
      }
      Truncate(last);
      idToIndex := idToIndex - {target};
      addressToID := addressToID - {addr};
    }

    method Truncate(last: nat)
      requires Parallel(Fields()) && last <= |id|
      modifies this`id, this`address, this`name, this`symbol, this`decimals, this`fee, this`gas
      ensures var c := old(Fields());
              Fields() == Columns(c.id[..last], c.address[..last], c.name[..last], c.symbol[..last], c.decimals[..last],
                c.fee[..last], c.gas[..last], c.nextID, c.idToIndex, c.addressToID)
    {
      address := address[..last];
      name := name[..last];
      symbol := symbol[..last];
      decimals := decimals[..last];
      fee := fee[..last];
      gas := gas[..last];
      id := id[..last];
    }

    method MoveLast(index: nat, last: nat)
      requires Parallel(Fields()) && index < last < |id|
      modifies this
      ensures var c := old(Fields());
              Fields() == Columns(
                c.id[index := c.id[last]], c.address[index := c.address[last]], c.name[index := c.name[last]],
                c.symbol[index := c.symbol[last]], c.decimals[index := c.decimals[last]], c.fee[index := c.fee[last]],
                c.gas[index := c.gas[last]], c.nextID, c.idToIndex[c.id[last] := index], c.addressToID)
    {
      var lastID := id[last];
      address := address[index := address[last]];
      name := name[index := name[last]];
      symbol := symbol[index := symbol[last]];
      decimals := decimals[index := decimals[last]];
      fee := fee[index := fee[last]];
      gas := gas[index := gas[last]];
      id := id[index := lastID];
      idToIndex := idToIndex[lastID := index];
    }

    method UpdateToken(target: nat, newFee: real, newGas: nat) returns (r: Result<(), Error>)
      requires Valid()
      modifies this`fee, this`gas
      ensures Valid() && Fields() == Apply(old(Fields()), Op.UpdateToken(target, newFee, newGas))
      ensures r == if target in idToIndex then Ok(()) else Err(TokenNotFound)
    {
      UpdatedRefines(Fields(), target, newFee, newGas);
      if target !in idToIndex {
        return Err(TokenNotFound);
      }
      var index := idToIndex[target];
      fee := fee[index := newFee];
      gas := gas[index := newGas];
      return Ok(());
    }

    /** Finds the one token at an address. */
    method GetTokenByAddress(a: Address) returns (r: Result<TokenView, Error>)
      requires Valid()
      ensures r.Ok? <==> a in addressToID
      ensures r.Ok? ==> r.value.id == addressToID[a]
      ensures r.Ok? ==>
        r.value.id in Contents(Fields()) && r.value.data == Contents(Fields())[r.value.id] && r.value.data.address == a
      ensures r.Err? ==>
        r.error == TokenNotFound && forall k :: k in Contents(Fields()) ==> Contents(Fields())[k].address != a
    {
      if a !in addressToID {
        return Err(TokenNotFound);
      }
      var k := idToIndex[addressToID[a]];
      return Ok(Keyed(addressToID[a], TokenData(address[k], name[k], symbol[k], decimals[k], fee[k], gas[k])));
    }

    method View() returns (views: seq<TokenView>)
      requires Valid()
      ensures views == ViewOf(Fields()) && Lists(views, Contents(Fields()))
    {
      ViewLists(Fields());
      views := [];
      for i := 0 to |address|
        invariant |views| == i && forall k :: 0 <= k < i ==> views[k] == Keyed(id[k], RowAt(Fields(), k))
      {
        views := views + [Keyed(id[i], TokenData(address[i], name[i], symbol[i], decimals[i], fee[i], gas[i]))];
      }
    }
  }
}
