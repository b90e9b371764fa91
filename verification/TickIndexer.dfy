/** The mutable tick indexer: six parallel slices, two index maps and the pending queue. Each critical section is
    proved to take the step that `TickProtocol` defines on addresses. */
module TickIndexer {
  import opened Indexing
  import opened Outcome
  import opened TickLists
  import opened TickProtocol

  datatype PendingInit = PendingInit(address: Address, spacing: nat)

  /** One pool of an initializer batch with what the fetch brought back, if it succeeded. */
  datatype BatchItem = BatchItem(id: nat, address: Address, spacing: nat, outcome: Option<(Bitmap, seq<Tick>)>)

  datatype Error = PoolNotFound | PoolExists

  ghost function AddressesOf(batch: seq<BatchItem>): set<Address> {
    set k | 0 <= k < |batch| :: batch[k].address
  }

  ghost function NamesOf(ids: set<nat>, names: nat -> Address): set<Address> {
    set p | p in ids :: names(p)
  }

  lemma NamesGrow(all: set<nat>, rest: set<nat>, p: nat, names: nat -> Address)
    requires p in rest && rest <= all
    ensures NamesOf(all - (rest - {p}), names) == NamesOf(all - rest, names) + {names(p)}
  {
    assert all - (rest - {p}) == (all - rest) + {p};
  }

  lemma AddressesAppend(batch: seq<BatchItem>, b: BatchItem)
    ensures AddressesOf(batch + [b]) == AddressesOf(batch) + {b.address}
    ensures AddressesOf(batch) == {} <==> batch == []
  {
    var more := batch + [b];
    assert more[|batch|].address == b.address;
    assert forall k :: 0 <= k < |batch| ==> more[k] == batch[k];
    if batch != [] { assert batch[0].address in AddressesOf(batch); }
  }

  ghost function FetchedOf(batch: seq<BatchItem>): map<Address, Fetched> {
    if batch == [] then map[]
    else
      var b := batch[|batch| - 1];
      var rest := FetchedOf(batch[..|batch| - 1]);
      if b.outcome.Some? then rest[b.address := Fetched(b.spacing, b.outcome.value.0, b.outcome.value.1)] else rest
  }

  lemma {:induction false} FetchedOfKeys(batch: seq<BatchItem>, a: Address)
    requires a in FetchedOf(batch)
    ensures exists k :: 0 <= k < |batch| && batch[k].address == a
  {
    var n := |batch| - 1;
    if batch[n].address != a { FetchedOfKeys(batch[..n], a); }
  }

  lemma IntegrateOne(t: Tracked, m: map<Address, Fetched>, a: Address, f: Fetched)
    requires a !in m
    ensures IntegrateAll(t, m[a := f]) ==
            if a in t then IntegrateAll(t, m)
            else IntegrateAll(t, m)[a := Entry(f.spacing, f.bitmap, SortTicks(f.ticks), 0)]
    ensures a in IntegrateAll(t, m) <==> a in t
  {
    hide IntegrateAll;
    IntegrateAt(t, m, a);
    var more, r := IntegrateAll(t, m[a := f]), IntegrateAll(t, m);
    forall b: Address
      ensures b in more <==> b in r || b == a
      ensures b in more ==> more[b] == if b in r then r[b] else Entry(f.spacing, f.bitmap, SortTicks(f.ticks), 0)
    {
      IntegrateAt(t, m, b);
      IntegrateAt(t, m[a := f], b);
    }
    if a in t {
      assert more == r;
    } else {
      assert more == r[a := Entry(f.spacing, f.bitmap, SortTicks(f.ticks), 0)];
    }
  }

  lemma IntegrateAt(t: Tracked, m: map<Address, Fetched>, b: Address)
    ensures var r := IntegrateAll(t, m);
            && (b in r <==> b in t || b in m)
            && (b in r ==> r[b] == if b in t then t[b] else Entry(m[b].spacing, m[b].bitmap, SortTicks(m[b].ticks), 0))
  {
  }

  ghost function SeenOf(addresses: seq<Address>, stamps: seq<nat>, prev: seq<seq<Tick>>): map<Address, Seen>
    requires |addresses| == |stamps| == |prev|
  {
    if addresses == [] then map[]
    else
      var n := |addresses| - 1;
      SeenOf(addresses[..n], stamps[..n], prev[..n])[addresses[n] := Seen(prev[n], stamps[n])]
  }

  ghost function FetchedAt(addresses: seq<Address>, fetched: seq<Option<Fetched>>): map<Address, Fetched>
    requires |addresses| == |fetched|
  {
    if addresses == [] then map[]
    else
      var n := |addresses| - 1;
      var rest := FetchedAt(addresses[..n], fetched[..n]);
      if fetched[n].Some? then rest[addresses[n] := fetched[n].value] else rest
  }

  lemma {:induction false} SeenOfKeys(addresses: seq<Address>, stamps: seq<nat>, prev: seq<seq<Tick>>,
                                      fetched: seq<Option<Fetched>>)
    requires |addresses| == |stamps| == |prev| == |fetched|
    ensures forall a :: a in SeenOf(addresses, stamps, prev) <==> a in addresses
    ensures forall a :: a in FetchedAt(addresses, fetched) ==> a in addresses
  {
    if addresses != [] {
      var n := |addresses| - 1;
      SeenOfKeys(addresses[..n], stamps[..n], prev[..n], fetched[..n]);
      assert addresses == addresses[..n] + [addresses[n]];
    }
  }

  lemma {:induction false} SeenOfSnapshot(t: Tracked, addresses: seq<Address>, stamps: seq<nat>, prev: seq<seq<Tick>>)
    requires |addresses| == |stamps| == |prev|
    requires forall k :: 0 <= k < |addresses| ==>
      addresses[k] in t && t[addresses[k]].ticks == prev[k] && t[addresses[k]].lastUpdate == stamps[k]
    ensures forall a :: a in SeenOf(addresses, stamps, prev) ==>
      a in t && SeenOf(addresses, stamps, prev)[a] == TakeSnapshot(t)[a]
  {
    if addresses != [] {
      var n := |addresses| - 1;
      SeenOfSnapshot(t, addresses[..n], stamps[..n], prev[..n]);
    }
  }

  // ----- The parallel slices as one value -----

  datatype Slots = Slots(
    id: seq<nat>,
    address: seq<Address>,
    ticks: seq<seq<Tick>>,
    bitmap: seq<Bitmap>,
    spacing: seq<nat>,
    lastUpdates: seq<nat>,
    idToIndex: map<nat, nat>,
    addressToIndex: map<Address, nat>)

  ghost predicate Parallel(f: Slots) {
    |f.id| == |f.address| == |f.ticks| == |f.bitmap| == |f.spacing| == |f.lastUpdates|
  }

  ghost predicate OneToOne(names: nat -> Address) {
    forall p, q :: names(p) == names(q) ==> p == q
  }

  /** Equal lengths, exact inverse maps, one name per pool, sorted lists. */
  ghost predicate Consistent(f: Slots, names: nat -> Address) {
    && Parallel(f)
    && Inverse(f.idToIndex, f.id)
    && Inverse(f.addressToIndex, f.address)
    && (forall k :: 0 <= k < |f.id| ==> f.address[k] == names(f.id[k]))
    && (forall k :: 0 <= k < |f.ticks| ==> Ascending(f.ticks[k]))
  }

  ghost function EntryAt(f: Slots, k: nat): Entry
    requires Parallel(f) && k < |f.id|
  {
    Entry(f.spacing[k], f.bitmap[k], f.ticks[k], f.lastUpdates[k])
  }

  /** What the slices mean, whatever slot a pool happens to sit in. */
  ghost function PoolsOf(f: Slots): (t: Tracked)
    requires Parallel(f) && Inverse(f.addressToIndex, f.address)
    ensures t.Keys == f.addressToIndex.Keys
  {
    map a | a in f.addressToIndex :: EntryAt(f, f.addressToIndex[a])
  }

  lemma TrackedById(f: Slots, names: nat -> Address, p: nat)
    requires Consistent(f, names) && OneToOne(names)
    ensures p in f.idToIndex <==> names(p) in PoolsOf(f)
    ensures p in f.idToIndex ==> f.idToIndex[p] == f.addressToIndex[names(p)]
    ensures p in f.idToIndex ==> var k := f.idToIndex[p]; k < |f.id| && f.id[k] == p && f.address[k] == names(p)
  {
    if p in f.idToIndex {
      assert f.address[f.idToIndex[p]] == names(p);
    }
    if names(p) in f.addressToIndex {
      assert f.id[f.addressToIndex[names(p)]] == p;
    }
  }

  /** Removal of slot `k`: the last slot moves into it. */
  ghost function Popped(f: Slots, k: nat): Slots
    requires Parallel(f) && k < |f.id|
  {
    Slots(Pop(f.id, k), Pop(f.address, k), Pop(f.ticks, k), Pop(f.bitmap, k), Pop(f.spacing, k), Pop(f.lastUpdates, k),
          f.idToIndex[f.id[|f.id| - 1] := k] - {f.id[k]},
          f.addressToIndex[f.address[|f.id| - 1] := k] - {f.address[k]})
  }

  lemma PoppedRefines(f: Slots, names: nat -> Address, k: nat)
    requires Consistent(f, names) && k < |f.id|
    ensures Consistent(Popped(f, k), names)
    ensures PoolsOf(Popped(f, k)) == PoolsOf(f) - {f.address[k]}
  {
    InversePop(f.idToIndex, f.id, k);
    InversePop(f.addressToIndex, f.address, k);
    PoppedPools(f, k);
  }

  lemma PoppedPools(f: Slots, k: nat)
    requires Parallel(f) && Inverse(f.addressToIndex, f.address) && k < |f.id|
    requires Inverse(Popped(f, k).addressToIndex, Popped(f, k).address)
    ensures PoolsOf(Popped(f, k)) == PoolsOf(f) - {f.address[k]}
  {
    hide EntryAt;
    var g := Popped(f, k);
    forall a | a in g.addressToIndex
      ensures a in f.addressToIndex && a != f.address[k]
      ensures EntryAt(g, g.addressToIndex[a]) == EntryAt(f, f.addressToIndex[a])
    {
      PoppedEntry(f, k, a);
    }
    assert PoolsOf(g).Keys == PoolsOf(f).Keys - {f.address[k]};
  }

  lemma PoppedEntry(f: Slots, k: nat, a: Address)
    requires Parallel(f) && Inverse(f.addressToIndex, f.address) && k < |f.id| && a in Popped(f, k).addressToIndex
    ensures a in f.addressToIndex && a != f.address[k] && f.addressToIndex[a] < |f.id|
    ensures Popped(f, k).addressToIndex[a] < |f.id| - 1
    ensures EntryAt(Popped(f, k), Popped(f, k).addressToIndex[a]) == EntryAt(f, f.addressToIndex[a])
  {
    PopLookup(f.addressToIndex, f.address, k, a, f.ticks);
    PopLookup(f.addressToIndex, f.address, k, a, f.bitmap);
    PopLookup(f.addressToIndex, f.address, k, a, f.spacing);
    PopLookup(f.addressToIndex, f.address, k, a, f.lastUpdates);
  }

  ghost function Appended(f: Slots, pool: nat, a: Address, e: Entry): Slots {
    Slots(f.id + [pool], f.address + [a], f.ticks + [e.ticks], f.bitmap + [e.bitmap], f.spacing + [e.spacing],
          f.lastUpdates + [e.lastUpdate], f.idToIndex[pool := |f.id|], f.addressToIndex[a := |f.id|])
  }

  lemma AppendedRefines(f: Slots, names: nat -> Address, pool: nat, e: Entry)
    requires Consistent(f, names) && OneToOne(names) && pool !in f.idToIndex && Ascending(e.ticks)
    ensures Consistent(Appended(f, pool, names(pool), e), names)
    ensures PoolsOf(Appended(f, pool, names(pool), e)) == PoolsOf(f)[names(pool) := e]
  {
    hide Inverse, OneToOne, Ascending, PoolsOf;
    TrackedById(f, names, pool);
    InverseIsIndexOf(f.idToIndex, f.id, pool);
    InverseIsIndexOf(f.addressToIndex, f.address, names(pool));
    InverseAppend(f.idToIndex, f.id, pool);
    InverseAppend(f.addressToIndex, f.address, names(pool));
    AppendedPools(f, pool, names(pool), e);
  }

  lemma AppendedPools(f: Slots, pool: nat, a: Address, e: Entry)
    requires Parallel(f) && Inverse(f.addressToIndex, f.address)
    requires Inverse(Appended(f, pool, a, e).addressToIndex, Appended(f, pool, a, e).address)
    ensures PoolsOf(Appended(f, pool, a, e)) == PoolsOf(f)[a := e]
  {
  }

  ghost function Rewritten(f: Slots, k: nat, e: Entry): Slots
    requires Parallel(f) && k < |f.id|
  {
    f.(ticks := f.ticks[k := e.ticks], bitmap := f.bitmap[k := e.bitmap],
       lastUpdates := f.lastUpdates[k := e.lastUpdate])
  }

  lemma RewrittenRefines(f: Slots, names: nat -> Address, k: nat, e: Entry)
    requires Consistent(f, names) && k < |f.id| && Ascending(e.ticks) && e.spacing == f.spacing[k]
    ensures Consistent(Rewritten(f, k, e), names)
    ensures PoolsOf(Rewritten(f, k, e)) == PoolsOf(f)[f.address[k] := e]
  {
  }

  class TickIndexer {
    ghost const addressOf: nat -> Address

    var id: seq<nat>
    var address: seq<Address>
    var ticks: seq<seq<Tick>>
    var bitmap: seq<Bitmap>
    var spacing: seq<nat>
    var lastUpdates: seq<nat>
    var idToIndex: map<nat, nat>
    var addressToIndex: map<Address, nat>
    var pendingInit: map<nat, PendingInit>

    ghost function Fields(): Slots
      reads this
    {
      Slots(id, address, ticks, bitmap, spacing, lastUpdates, idToIndex, addressToIndex)
    }

    ghost predicate Valid()
      reads this
    {
      && OneToOne(addressOf)
      && Consistent(Fields(), addressOf)
      && (forall p :: p in pendingInit ==> pendingInit[p].address == addressOf(p))
    }

    ghost function TrackedPools(): Tracked
      requires Valid()
      reads this
    {
      PoolsOf(Fields())
    }

    ghost function PendingPools(): set<Address>
      reads this
    {
      NamesOf(pendingInit.Keys, addressOf)
    }

    /** The indexer holds what the protocol's state says it tracks and has queued. */
    ghost predicate Mirrors(s: System)
      requires Valid()
      reads this
    {
      s.tracked == TrackedPools() && s.pending == PendingPools()
    }

    constructor (ghost names: nat -> Address)
      requires OneToOne(names)
      ensures Valid() && Mirrors(START)
      ensures Valid() && TrackedPools() == START.tracked && PendingPools() == START.pending && addressOf == names
      ensures id == [] && pendingInit == map[]
    {
      addressOf := names;
      id, address, ticks, bitmap, spacing, lastUpdates := [], [], [], [], [], [];
      idToIndex, addressToIndex, pendingInit := map[], map[], map[];
    }

    method Add(pool: nat, poolAddress: Address, poolSpacing: nat) returns (r: Result<(), Error>)
      requires Valid() && poolAddress == addressOf(pool)
      modifies this`pendingInit
      ensures Valid() && TrackedPools() == old(TrackedPools())
      ensures r == if poolAddress in TrackedPools() then Err(PoolExists) else Ok(())
      ensures PendingPools() == old(PendingPools()) + if r.Ok? then {poolAddress} else {}
      ensures r.Ok? ==> pendingInit == old(pendingInit)[pool := PendingInit(poolAddress, poolSpacing)]
      ensures r.Err? ==> pendingInit == old(pendingInit)
      ensures forall s :: old(Mirrors(s)) ==> Mirrors(Next(s, Step.Add(poolAddress)))
    {
      TrackedById(Fields(), addressOf, pool);
      if pool in idToIndex {
        return Err(PoolExists);
      }
      pendingInit := pendingInit[pool := PendingInit(poolAddress, poolSpacing)];
      return Ok(());
    }

    method Remove(pool: nat) returns (r: Result<(), Error>)
      requires Valid()
      modifies this`id, this`address, this`ticks, this`bitmap, this`spacing, this`lastUpdates, this`idToIndex,
               this`addressToIndex
      ensures Valid()
      ensures r == if addressOf(pool) in old(TrackedPools()) then Ok(()) else Err(PoolNotFound)
      ensures TrackedPools() == old(TrackedPools()) - {addressOf(pool)}
      ensures forall s :: old(Mirrors(s)) ==> Mirrors(Next(s, Step.Remove(addressOf(pool))))
    {
      hide Inverse, OneToOne, PoolsOf, Popped, Ascending;
      TrackedById(Fields(), addressOf, pool);
      if pool !in idToIndex {
        return Err(PoolNotFound);
      }
      PoppedRefines(Fields(), addressOf, idToIndex[pool]);
      SwapAndPop(pool);
      return Ok(());
    }

    /** Swap-and-pop over all six slices, with both maps repaired. */
    method SwapAndPop(pool: nat)
      requires Parallel(Fields()) && pool in idToIndex && idToIndex[pool] < |id| && id[idToIndex[pool]] == pool
      modifies this`id, this`address, this`ticks, this`bitmap, this`spacing, this`lastUpdates, this`idToIndex,
               this`addressToIndex
      ensures Fields() == Popped(old(Fields()), old(idToIndex)[pool])
    {
      var index := idToIndex[pool];
      var addr := address[index];
      var last := |id| - 1;
      if index != last {
        MoveLast(index, last);
      }
      idToIndex := idToIndex - {pool};
      addressToIndex := addressToIndex - {addr};
      id := id[..last];
      address := address[..last];
      spacing := spacing[..last];
      lastUpdates := lastUpdates[..last];
      ticks := ticks[..last];
      bitmap := bitmap[..last];
    }

    method MoveLast(index: nat, last: nat)
      requires Parallel(Fields()) && index < last < |id|
      modifies this`id, this`address, this`ticks, this`bitmap, this`spacing, this`lastUpdates, this`idToIndex,
               this`addressToIndex
      ensures var f := old(Fields());
              Fields() == Slots(
                f.id[index := f.id[last]], f.address[index := f.address[last]], f.ticks[index := f.ticks[last]],
                f.bitmap[index := f.bitmap[last]], f.spacing[index := f.spacing[last]],
                f.lastUpdates[index := f.lastUpdates[last]],
                f.idToIndex[f.id[last] := index], f.addressToIndex[f.address[last] := index])
    {
      var lastID, lastAddress := id[last], address[last];
      id := id[index := lastID];
      address := address[index := lastAddress];
      spacing := spacing[index := spacing[last]];
      lastUpdates := lastUpdates[index := lastUpdates[last]];
      ticks := ticks[index := ticks[last]];
      bitmap := bitmap[index := bitmap[last]];
      idToIndex := idToIndex[lastID := index];
      addressToIndex := addressToIndex[lastAddress := index];
    }

    method Get(pool: nat) returns (r: Result<seq<Tick>, Error>)
      requires Valid()
      ensures r == if addressOf(pool) in TrackedPools() then Ok(TrackedPools()[addressOf(pool)].ticks)
                   else Err(PoolNotFound)
    {
      TrackedById(Fields(), addressOf, pool);
      if pool !in idToIndex {
        return Err(PoolNotFound);
      }
      return Ok(ticks[idToIndex[pool]]);
    }

    /** One pool of a block update; an empty list leaves even the stamp alone. */
    method UpdateOne(a: Address, us: seq<Tick>, number: nat)
      requires Valid()
      modifies this`ticks, this`bitmap, this`lastUpdates
      ensures Valid() && TrackedPools() == BlockOne(old(TrackedPools()), a, us, number)
    {
      hide OneToOne, Ascending, ApplyAll;
      if a !in addressToIndex || us == [] {
        return;
      }
      var k := addressToIndex[a];
      ApplyAllRefines(ticks[k], us);
      var edited := UpsertAll(ticks[k], us);
      RewrittenRefines(Fields(), addressOf, k, EntryAt(Fields(), k).(ticks := edited, lastUpdate := number));
      Store(k, edited, bitmap[k], number);
    }

    method Store(k: nat, newTicks: seq<Tick>, newBitmap: Bitmap, stamp: nat)
      requires Parallel(Fields()) && k < |id|
      modifies this`ticks, this`bitmap, this`lastUpdates
      ensures Fields() == Rewritten(old(Fields()), k, Entry(spacing[k], newBitmap, newTicks, stamp))
    {
      ticks := ticks[k := newTicks];
      bitmap := bitmap[k := newBitmap];
      lastUpdates := lastUpdates[k := stamp];
    }

    method ApplyTickUpdates(pools: seq<Address>, data: seq<seq<Tick>>, number: nat)
      requires Valid() && |pools| == |data|
      modifies this`ticks, this`bitmap, this`lastUpdates
      ensures Valid() && TrackedPools() == ApplyBlock(old(TrackedPools()), pools, data, number)
      ensures forall s :: old(Mirrors(s)) && Enabled(s, Block(pools, data, number)) ==>
                Mirrors(Next(s, Block(pools, data, number)))
    {
      for i := 0 to |pools|
        invariant Valid()
        invariant TrackedPools() == ApplyBlock(old(TrackedPools()), pools[..i], data[..i], number)
      {
        assert pools[..i + 1][..i] == pools[..i] && data[..i + 1][..i] == data[..i];
        UpdateOne(pools[i], data[i], number);
      }
      assert pools[..|pools|] == pools && data[..|data|] == data;
    }

    /** Initializer, step 1: copy the queue under a read lock. */
    method CopyPending() returns (batch: seq<BatchItem>)
      requires Valid()
      ensures forall j, k :: 0 <= j < k < |batch| ==> batch[j].id != batch[k].id
      ensures forall k :: 0 <= k < |batch| ==> batch[k].address == addressOf(batch[k].id)
      ensures forall k :: 0 <= k < |batch| ==>
        batch[k].id in pendingInit && batch[k].spacing == pendingInit[batch[k].id].spacing
      ensures AddressesOf(batch) == PendingPools()
      ensures forall s :: Mirrors(s) && Enabled(s, TakeBatch) ==>
                Next(s, TakeBatch) == if batch == [] then s else s.(phase := Fetching(AddressesOf(batch)))
    {
      batch := [];
      var rest := pendingInit.Keys;
      while rest != {}
        invariant rest <= pendingInit.Keys
        invariant forall j, k :: 0 <= j < k < |batch| ==> batch[j].id != batch[k].id
        invariant forall k :: 0 <= k < |batch| ==> batch[k].id in pendingInit.Keys - rest
        invariant forall k :: 0 <= k < |batch| ==> batch[k].address == addressOf(batch[k].id)
        invariant forall k :: 0 <= k < |batch| ==>
          batch[k].id in pendingInit && batch[k].spacing == pendingInit[batch[k].id].spacing
        invariant AddressesOf(batch) == NamesOf(pendingInit.Keys - rest, addressOf)
      {
        var p :| p in rest;
        AddressesAppend(batch, BatchItem(p, pendingInit[p].address, pendingInit[p].spacing, None));
        batch := batch + [BatchItem(p, pendingInit[p].address, pendingInit[p].spacing, None)];
        NamesGrow(pendingInit.Keys, rest, p, addressOf);
        rest := rest - {p};
      }
      assert pendingInit.Keys - rest == pendingInit.Keys;
      AddressesAppend(batch, BatchItem(0, 0, 0, None));
    }

    /** Initializer, step 5: integrate what was fetched, skipping failures and pools already tracked. */
    method Integrate(batch: seq<BatchItem>) returns (successful: seq<nat>)
      requires Valid() && GoodBatch(batch, addressOf)
      modifies this`id, this`address, this`ticks, this`bitmap, this`spacing, this`lastUpdates, this`idToIndex,
               this`addressToIndex
      ensures Valid() && TrackedPools() == IntegrateAll(old(TrackedPools()), FetchedOf(batch))
      ensures Named(successful, addressOf) == FetchedOf(batch).Keys
      ensures forall s :: old(Mirrors(s)) && Enabled(s, Step.Integrate(FetchedOf(batch))) ==>
                var next := Next(s, Step.Integrate(FetchedOf(batch)));
                Mirrors(next) && next.phase == Clearing(Named(successful, addressOf))
    {
      ghost var t := TrackedPools();
      IntegrateNone(t);
      for i := 0 to |batch|
        invariant Valid()
        invariant TrackedPools() == IntegrateAll(t, FetchedOf(batch[..i]))
      {
        BatchStep(batch, addressOf, i);
        var b := batch[i];
        if b.outcome.Some? {
          IntegrateOne(t, FetchedOf(batch[..i]), b.address, Fetched(b.spacing, b.outcome.value.0, b.outcome.value.1));
          TrackPool(b);
        }
      }
      assert batch[..|batch|] == batch;
      successful := Succeeded(batch, addressOf);
    }

    method TrackPool(b: BatchItem)
      requires Valid() && b.outcome.Some? && b.address == addressOf(b.id) && DistinctIndexes(b.outcome.value.1)
      modifies this`id, this`address, this`ticks, this`bitmap, this`spacing, this`lastUpdates, this`idToIndex,
               this`addressToIndex
      ensures Valid()
      ensures TrackedPools() == if b.address in old(TrackedPools()) then old(TrackedPools())
        else old(TrackedPools())[b.address := Entry(b.spacing, b.outcome.value.0, SortTicks(b.outcome.value.1), 0)]
    {
      TrackedById(Fields(), addressOf, b.id);
      if b.id in idToIndex {
        return;
      }
      SortedFetch(Fetched(b.spacing, b.outcome.value.0, b.outcome.value.1));
      AppendedRefines(Fields(), addressOf, b.id, Entry(b.spacing, b.outcome.value.0, SortTicks(b.outcome.value.1), 0));
      Push(b);
    }

    method Push(b: BatchItem)
      requires Parallel(Fields()) && b.outcome.Some?
      modifies this`id, this`address, this`ticks, this`bitmap, this`spacing, this`lastUpdates, this`idToIndex,
               this`addressToIndex
      ensures Fields() == Appended(old(Fields()), b.id, b.address,
                                   Entry(b.spacing, b.outcome.value.0, SortTicks(b.outcome.value.1), 0))
    {
      var index := |id|;
      idToIndex := idToIndex[b.id := index];
      addressToIndex := addressToIndex[b.address := index];
      id := id + [b.id];
      address := address + [b.address];
      spacing := spacing + [b.spacing];
      lastUpdates := lastUpdates + [0];
      ticks := ticks + [SortTicks(b.outcome.value.1)];
      bitmap := bitmap + [b.outcome.value.0];
    }

    /** Initializer, last section: drop the finished pools from the queue, whatever it holds by now. */
    method ClearPending(done: seq<nat>)
      requires Valid()
      modifies this`pendingInit
      ensures Valid() && TrackedPools() == old(TrackedPools())
      ensures PendingPools() == old(PendingPools()) - Named(done, addressOf)
      ensures pendingInit == old(pendingInit) - Elements(done)
      ensures forall s :: old(Mirrors(s)) && s.phase == Clearing(Named(done, addressOf)) ==> Mirrors(Next(s, Clear))
    {
      for i := 0 to |done|
        invariant Valid() && Fields() == old(Fields())
        invariant pendingInit == old(pendingInit) - Elements(done[..i])
      {
        pendingInit := pendingInit - {done[i]};
      }
      assert done[..|done|] == done;
      forall a ensures a in PendingPools() <==> a in old(PendingPools()) - Named(done, addressOf) {
      }
    }

    /** Resync, phase 1: copy addresses, stamps and lists under a read lock. */
    method SnapshotForResync() returns (addresses: seq<Address>, stamps: seq<nat>, prev: seq<seq<Tick>>)
      requires Valid()
      ensures |addresses| == |stamps| == |prev| && Distinct(addresses)
      ensures SeenOf(addresses, stamps, prev) == TakeSnapshot(TrackedPools())
    {
      addresses, stamps, prev := address, lastUpdates, ticks;
      SeenOfKeys(addresses, stamps, prev, seq(|addresses|, k => None));
      SeenOfSnapshot(TrackedPools(), addresses, stamps, prev);
      assert forall a :: a in addresses <==> a in TrackedPools() by {
        forall a { InverseIsIndexOf(addressToIndex, address, a); }
      }
    }

    /** Resync, phase 3: rewrite the drifted pools whose stamp has not moved since the snapshot. */
    method ApplyResync(addresses: seq<Address>, stamps: seq<nat>, prev: seq<seq<Tick>>, fetched: seq<Option<Fetched>>)
      requires Valid() && |addresses| == |stamps| == |prev| == |fetched| && Distinct(addresses)
      requires forall k :: 0 <= k < |fetched| && fetched[k].Some? ==> DistinctIndexes(fetched[k].value.ticks)
      modifies this`ticks, this`bitmap, this`lastUpdates
      ensures Valid()
      ensures TrackedPools() ==
              ResyncApply(old(TrackedPools()), SeenOf(addresses, stamps, prev), FetchedAt(addresses, fetched))
      ensures forall s ::
                var step := Resync(SeenOf(addresses, stamps, prev), FetchedAt(addresses, fetched));
                old(Mirrors(s)) && Enabled(s, step) ==> Mirrors(Next(s, step))
    {
      hide Consistent, PoolsOf, ResyncApply, ResyncedOne, OneToOne, SeenOf, FetchedAt, DistinctIndexes, Distinct;
      ResyncNone(TrackedPools());
      NothingSeen();
      for i := 0 to |addresses|
        invariant Valid()
        invariant TrackedPools() == ResyncApply(old(TrackedPools()),
                    SeenOf(addresses[..i], stamps[..i], prev[..i]), FetchedAt(addresses[..i], fetched[..i]))
      {
        Prefixes(addresses, stamps, prev, fetched, i);
        ResyncStep(old(TrackedPools()), SeenOf(addresses[..i], stamps[..i], prev[..i]),
                   FetchedAt(addresses[..i], fetched[..i]), addresses[i], Seen(prev[i], stamps[i]), fetched[i]);
        ResyncOne(addresses[i], stamps[i], prev[i], fetched[i]);
      }
      assert addresses[..|addresses|] == addresses && stamps[..|stamps|] == stamps;
      assert prev[..|prev|] == prev && fetched[..|fetched|] == fetched;
    }

    method ResyncOne(a: Address, stamp: nat, prev: seq<Tick>, fetched: Option<Fetched>)
      requires Valid()
      requires fetched.Some? ==> DistinctIndexes(fetched.value.ticks)
      modifies this`ticks, this`bitmap, this`lastUpdates
      ensures Valid()
      ensures TrackedPools() == ResyncedOne(old(TrackedPools()), a, Seen(prev, stamp), fetched)
    {
      hide OneToOne, Ascending, DistinctIndexes;
      if a !in addressToIndex || fetched.None? {
        return;
      }
      var k := addressToIndex[a];
      if stamp != lastUpdates[k] {
        return;
      }
      var freshTicks := SortTicks(fetched.value.ticks);
      var same := SameTicks(prev, freshTicks);
      if !same {
        SortedFetch(fetched.value);
        RewrittenRefines(Fields(), addressOf, k,
          EntryAt(Fields(), k).(ticks := freshTicks, bitmap := fetched.value.bitmap));
        Store(k, freshTicks, fetched.value.bitmap, lastUpdates[k]);
      }
    }
  }

  ghost function ResyncedOne(t: Tracked, a: Address, seen: Seen, fetched: Option<Fetched>): Tracked {
    if a in t && fetched.Some? then t[a := ResyncEntry(t[a], seen, fetched.value)] else t
  }

  lemma ResyncStep(t: Tracked, snap: map<Address, Seen>, m: map<Address, Fetched>, a: Address, seen: Seen,
                   fetched: Option<Fetched>)
    requires a !in snap && a !in m
    ensures ResyncApply(t, snap[a := seen], if fetched.Some? then m[a := fetched.value] else m)
              == ResyncedOne(ResyncApply(t, snap, m), a, seen, fetched)
  {
  }

  /** The batch as a map: every pool whose fetch succeeded, with its own spacing, bitmap and ticks. */
  lemma {:induction false} FetchedOfExactly(batch: seq<BatchItem>, names: nat -> Address, k: nat)
    requires GoodBatch(batch, names) && k < |batch|
    ensures var b := batch[k];
            && (b.address in FetchedOf(batch) <==> b.outcome.Some?)
            && (b.outcome.Some? ==>
                  FetchedOf(batch)[b.address] == Fetched(b.spacing, b.outcome.value.0, b.outcome.value.1))
  {
    var n := |batch| - 1;
    if k < n {
      FetchedOfExactly(batch[..n], names, k);
      assert batch[k].address != batch[n].address;
    } else if batch[n].address in FetchedOf(batch[..n]) {
      FetchedOfKeys(batch[..n], batch[n].address);
    }
  }

  /** The snapshot and the fetches as maps, position by position. */
  lemma {:induction false} SlicesExactly(addresses: seq<Address>, stamps: seq<nat>, prev: seq<seq<Tick>>,
                                         fetched: seq<Option<Fetched>>, k: nat)
    requires |addresses| == |stamps| == |prev| == |fetched| && Distinct(addresses) && k < |addresses|
    ensures var seen, m := SeenOf(addresses, stamps, prev), FetchedAt(addresses, fetched);
            && addresses[k] in seen && seen[addresses[k]] == Seen(prev[k], stamps[k])
            && (addresses[k] in m <==> fetched[k].Some?)
            && (fetched[k].Some? ==> m[addresses[k]] == fetched[k].value)
  {
    var n := |addresses| - 1;
    if k < n {
      SlicesExactly(addresses[..n], stamps[..n], prev[..n], fetched[..n], k);
    } else {
      SeenOfKeys(addresses[..n], stamps[..n], prev[..n], fetched[..n]);
      assert addresses[n] !in addresses[..n];
    }
  }

  ghost predicate GoodBatch(batch: seq<BatchItem>, names: nat -> Address) {
    && OneToOne(names)
    && (forall j, k :: 0 <= j < k < |batch| ==> batch[j].id != batch[k].id)
    && (forall k :: 0 <= k < |batch| ==> batch[k].address == names(batch[k].id))
    && (forall k :: 0 <= k < |batch| && batch[k].outcome.Some? ==> DistinctIndexes(batch[k].outcome.value.1))
  }

  ghost function Named(ids: seq<nat>, names: nat -> Address): set<Address> {
    set p | p in ids :: names(p)
  }

  /** The IDs an integration reports back: every pool whose fetch succeeded, newly tracked or not. */
  method Succeeded(batch: seq<BatchItem>, ghost names: nat -> Address) returns (ids: seq<nat>)
    requires GoodBatch(batch, names)
    ensures Named(ids, names) == FetchedOf(batch).Keys
  {
    ids := [];
    for i := 0 to |batch|
      invariant Named(ids, names) == FetchedOf(batch[..i]).Keys
    {
      BatchStep(batch, names, i);
      if batch[i].outcome.Some? {
        NamedAppend(ids, names, batch[i].id);
        ids := ids + [batch[i].id];
      }
    }
    assert batch[..|batch|] == batch;
  }

  lemma NamedAppend(ids: seq<nat>, names: nat -> Address, p: nat)
    ensures Named(ids + [p], names) == Named(ids, names) + {names(p)}
  {
    assert p in ids + [p];
  }

  lemma IntegrateNone(t: Tracked)
    ensures IntegrateAll(t, map[]) == t
  {
  }

  lemma NothingSeen()
    ensures SeenOf([], [], []) == map[] && FetchedAt([], []) == map[]
  {
  }

  lemma ResyncNone(t: Tracked)
    ensures ResyncApply(t, map[], map[]) == t
  {
  }

  lemma BatchStep(batch: seq<BatchItem>, names: nat -> Address, i: nat)
    requires GoodBatch(batch, names) && i < |batch|
    ensures batch[i].address == names(batch[i].id) && batch[i].address !in FetchedOf(batch[..i])
    ensures batch[i].outcome.Some? ==> DistinctIndexes(batch[i].outcome.value.1)
    ensures var b := batch[i];
            FetchedOf(batch[..i + 1]) ==
              if b.outcome.Some?
              then FetchedOf(batch[..i])[b.address := Fetched(b.spacing, b.outcome.value.0, b.outcome.value.1)]
              else FetchedOf(batch[..i])
  {
    assert batch[..i + 1][..i] == batch[..i];
    if batch[i].address in FetchedOf(batch[..i]) {
      FetchedOfKeys(batch[..i], batch[i].address);
      assert false;
    }
  }

  lemma Prefixes(addresses: seq<Address>, stamps: seq<nat>, prev: seq<seq<Tick>>, fetched: seq<Option<Fetched>>, i: nat)
    requires |addresses| == |stamps| == |prev| == |fetched| && i < |addresses| && Distinct(addresses)
    ensures SeenOf(addresses[..i + 1], stamps[..i + 1], prev[..i + 1])
              == SeenOf(addresses[..i], stamps[..i], prev[..i])[addresses[i] := Seen(prev[i], stamps[i])]
    ensures FetchedAt(addresses[..i + 1], fetched[..i + 1])
              == if fetched[i].Some? then FetchedAt(addresses[..i], fetched[..i])[addresses[i] := fetched[i].value]
                 else FetchedAt(addresses[..i], fetched[..i])
    ensures addresses[i] !in SeenOf(addresses[..i], stamps[..i], prev[..i])
    ensures addresses[i] !in FetchedAt(addresses[..i], fetched[..i])
  {
    SeenOfKeys(addresses[..i], stamps[..i], prev[..i], fetched[..i]);
    assert addresses[..i + 1][..i] == addresses[..i] && stamps[..i + 1][..i] == stamps[..i];
    assert prev[..i + 1][..i] == prev[..i] && fetched[..i + 1][..i] == fetched[..i];
  }
}
