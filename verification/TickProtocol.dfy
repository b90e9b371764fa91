/** The tick indexer as a protocol: clients, the block loop, the initializer and the resyncer interleave,
    one critical section at a time. A pool is named by its address; addresses and IDs are one-to-one. */
module TickProtocol {
  import opened TickLists
  import TickBitmap

  type Address = nat
  type Bitmap = TickBitmap.Bitmap

  datatype Entry = Entry(spacing: nat, bitmap: Bitmap, ticks: seq<Tick>, lastUpdate: nat)
  datatype Fetched = Fetched(spacing: nat, bitmap: Bitmap, ticks: seq<Tick>)

  type Tracked = map<Address, Entry>

  // ----- Block updates -----

  ghost function BlockOne(t: Tracked, a: Address, us: seq<Tick>, number: nat): Tracked {
    if a in t && us != []
    then t[a := t[a].(ticks := ApplyAll(t[a].ticks, us), lastUpdate := number)]
    else t
  }

  /** `applyTickUpdates`: each listed pool in turn, with its fetched ticks in order. */
  ghost function ApplyBlock(t: Tracked, pools: seq<Address>, data: seq<seq<Tick>>, number: nat): Tracked
    requires |pools| == |data|
  {
    if pools == [] then t
    else
      var n := |pools| - 1;
      BlockOne(ApplyBlock(t, pools[..n], data[..n], number), pools[n], data[n], number)
  }

  /** All the ticks a batch holds for one pool, in order; a pool may be listed more than once. */
  ghost function UpdatesFor(pools: seq<Address>, data: seq<seq<Tick>>, a: Address): seq<Tick>
    requires |pools| == |data|
  {
    if pools == [] then []
    else
      var n := |pools| - 1;
      UpdatesFor(pools[..n], data[..n], a) + if pools[n] == a then data[n] else []
  }

  lemma {:induction false} ApplyBlockKeys(t: Tracked, pools: seq<Address>, data: seq<seq<Tick>>, number: nat)
    requires |pools| == |data|
    ensures ApplyBlock(t, pools, data, number).Keys == t.Keys
  {
    if pools != [] {
      var n := |pools| - 1;
      ApplyBlockKeys(t, pools[..n], data[..n], number);
    }
  }

  lemma {:induction false} ApplyBlockEffect(t: Tracked, pools: seq<Address>, data: seq<seq<Tick>>, number: nat,
                                            a: Address)
    requires |pools| == |data| && a in t
    ensures var us := UpdatesFor(pools, data, a);
            var r := ApplyBlock(t, pools, data, number);
            && a in r
            && r[a] == (if us == [] then t[a] else t[a].(ticks := ApplyAll(t[a].ticks, us), lastUpdate := number))
  {
    if pools != [] {
      var n := |pools| - 1;
      ApplyBlockEffect(t, pools[..n], data[..n], number, a);
      ApplyAllConcat(t[a].ticks, UpdatesFor(pools[..n], data[..n], a), data[n]);
      assert UpdatesFor(pools[..n], data[..n], a) + [] == UpdatesFor(pools[..n], data[..n], a);
    }
  }

  /** A block batch refines, pool by pool, the finite map of ticks; pools that are not tracked change nothing. */
  lemma BlockRefinesMaps(t: Tracked, pools: seq<Address>, data: seq<seq<Tick>>, number: nat, a: Address)
    requires |pools| == |data| && a in t && Ascending(t[a].ticks)
    ensures var r := ApplyBlock(t, pools, data, number);
            var us := UpdatesFor(pools, data, a);
            && r.Keys == t.Keys
            && Ascending(r[a].ticks)
            && ToMap(r[a].ticks) == MapApplyAll(ToMap(t[a].ticks), us)
            && (Positive(t[a].ticks) && (forall i :: 0 <= i < |us| ==> us[i].gross >= 0) ==> Positive(r[a].ticks))
            && r[a].lastUpdate == (if us == [] then t[a].lastUpdate else number)
            && r[a].spacing == t[a].spacing && r[a].bitmap == t[a].bitmap
  {
    ApplyBlockKeys(t, pools, data, number);
    ApplyBlockEffect(t, pools, data, number, a);
    ApplyAllRefines(t[a].ticks, UpdatesFor(pools, data, a));
  }

  // ----- Resync -----

  /** What the resyncer remembers of a pool from its snapshot. */
  datatype Seen = Seen(ticks: seq<Tick>, lastUpdate: nat)

  ghost function TakeSnapshot(t: Tracked): map<Address, Seen> {
    map a | a in t :: Seen(t[a].ticks, t[a].lastUpdate)
  }

  /** Failed fetches are absent from `fetched`. A pool is rewritten only if its update stamp is the one seen
      in the snapshot and the fetched list differs from the snapshot's list. */
  ghost function ResyncEntry(e: Entry, seen: Seen, f: Fetched): Entry {
    if seen.lastUpdate == e.lastUpdate && seen.ticks != SortTicks(f.ticks)
    then e.(ticks := SortTicks(f.ticks), bitmap := f.bitmap)
    else e
  }

  ghost function ResyncApply(t: Tracked, snap: map<Address, Seen>, fetched: map<Address, Fetched>): Tracked {
    map a | a in t :: if a in snap && a in fetched then ResyncEntry(t[a], snap[a], fetched[a]) else t[a]
  }

  // ----- The interleaved system -----

  /** The initializer runs alone: copy the pending queue, fetch and integrate, then clear what succeeded. */
  datatype Phase = Idle | Fetching(batch: set<Address>) | Clearing(done: set<Address>)

  /** `wanted`: added and not successfully removed since. `lastBlock`: newest block delivered. */
  datatype System = System(tracked: Tracked, pending: set<Address>, phase: Phase, lastBlock: nat, wanted: set<Address>)

  datatype Step =
    | Add(a: Address)
    | Remove(a: Address)
    | Block(pools: seq<Address>, data: seq<seq<Tick>>, number: nat)
    | TakeBatch
    | Integrate(fetched: map<Address, Fetched>)
    | Clear
    | Resync(snap: map<Address, Seen>, latest: map<Address, Fetched>)

  const START := System(map[], {}, Idle, 0, {})

  /** Fetched lists come from decoding a bitmap, so they never repeat an index. */
  ghost predicate GoodFetch(f: map<Address, Fetched>) {
    forall a :: a in f ==> DistinctIndexes(f[a].ticks)
  }

  ghost predicate Enabled(s: System, step: Step) {
    match step
    case Add(_) => true
    case Remove(_) => true
    case Block(pools, data, number) => |pools| == |data| && number > s.lastBlock
    case TakeBatch => s.phase.Idle?
    case Integrate(fetched) => s.phase.Fetching? && fetched.Keys <= s.phase.batch && GoodFetch(fetched)
    case Clear => s.phase.Clearing?
    case Resync(_, latest) => GoodFetch(latest)
  }

  ghost function IntegrateAll(t: Tracked, fetched: map<Address, Fetched>): Tracked {
    map a | a in t.Keys + fetched.Keys ::
      if a in t then t[a] else Entry(fetched[a].spacing, fetched[a].bitmap, SortTicks(fetched[a].ticks), 0)
  }

  ghost function Next(s: System, step: Step): System
    requires Enabled(s, step)
  {
    match step
    case Add(a) =>
      if a in s.tracked then s else s.(pending := s.pending + {a}, wanted := s.wanted + {a})
    case Remove(a) =>
      if a !in s.tracked then s else s.(tracked := s.tracked - {a}, wanted := s.wanted - {a})
    case Block(pools, data, number) =>
      s.(tracked := ApplyBlock(s.tracked, pools, data, number), lastBlock := number)
    case TakeBatch =>
      if s.pending == {} then s else s.(phase := Fetching(s.pending))
    case Integrate(fetched) =>
      s.(tracked := IntegrateAll(s.tracked, fetched), phase := Clearing(fetched.Keys))
    case Clear =>
      s.(pending := s.pending - s.phase.done, phase := Idle)
    case Resync(snap, latest) =>
      s.(tracked := ResyncApply(s.tracked, snap, latest))
  }

  ghost predicate Legal(s: System, steps: seq<Step>) {
    steps == [] || (Legal(s, steps[..|steps| - 1]) && Enabled(Exec(s, steps[..|steps| - 1]), steps[|steps| - 1]))
  }

  ghost function Exec(s: System, steps: seq<Step>): System {
    if steps == [] then s
    else
      var prev := Exec(s, steps[..|steps| - 1]);
      if Enabled(prev, steps[|steps| - 1]) then Next(prev, steps[|steps| - 1]) else prev
  }

  lemma ExecOne(s: System, steps: seq<Step>, step: Step)
    requires Legal(s, steps) && Enabled(Exec(s, steps), step)
    ensures Legal(s, steps + [step]) && Exec(s, steps + [step]) == Next(Exec(s, steps), step)
  {
    assert (steps + [step])[..|steps|] == steps;
  }

  // ----- Every run keeps lists sorted and stamps behind the chain -----

  ghost predicate Sound(s: System) {
    forall a :: a in s.tracked ==> Ascending(s.tracked[a].ticks) && s.tracked[a].lastUpdate <= s.lastBlock
  }

  lemma SortedFetch(f: Fetched)
    requires DistinctIndexes(f.ticks)
    ensures Ascending(SortTicks(f.ticks))
  {
    SortedIsUnique(f.ticks, SortTicks(f.ticks));
  }

  lemma NextSound(s: System, step: Step)
    requires Sound(s) && Enabled(s, step)
    ensures Sound(Next(s, step))
    ensures Next(s, step).lastBlock >= s.lastBlock
  {
    var r := Next(s, step);
    match step
    case Block(pools, data, number) =>
      ApplyBlockKeys(s.tracked, pools, data, number);
      forall a | a in r.tracked ensures Ascending(r.tracked[a].ticks) && r.tracked[a].lastUpdate <= number {
        BlockRefinesMaps(s.tracked, pools, data, number, a);
      }
    case Integrate(fetched) =>
      forall a | a in fetched { SortedFetch(fetched[a]); }
    case Resync(snap, latest) =>
      forall a | a in latest { SortedFetch(latest[a]); }
    case _ =>
  }

  lemma {:induction false} RunSound(s: System, steps: seq<Step>)
    requires Sound(s) && Legal(s, steps)
    ensures Sound(Exec(s, steps)) && Exec(s, steps).lastBlock >= s.lastBlock
  {
    if steps != [] {
      var n := |steps| - 1;
      RunSound(s, steps[..n]);
      NextSound(Exec(s, steps[..n]), steps[n]);
    }
  }

  // ----- What a resync does to every pool, whatever happened since its snapshot -----

  /** A block step that carries ticks for `a` while it is tracked. */
  ghost predicate Touches(s: System, step: Step, a: Address) {
    && step.Block? && a in s.tracked && |step.pools| == |step.data|
    && UpdatesFor(step.pools, step.data, a) != []
  }

  /** An integration that starts tracking `a`; for a pool of the snapshot this takes a removal and a re-add. */
  ghost predicate Renews(s: System, step: Step, a: Address) {
    step.Integrate? && a in step.fetched && a !in s.tracked
  }

  ghost predicate Touched(s: System, window: seq<Step>, a: Address) {
    window != [] &&
    var n := |window| - 1;
    Touched(s, window[..n], a) || Touches(Exec(s, window[..n]), window[n], a)
  }

  ghost predicate Afresh(s: System, window: seq<Step>, a: Address) {
    window != [] &&
    var n := |window| - 1;
    Afresh(s, window[..n], a) || Renews(Exec(s, window[..n]), window[n], a)
  }

  /** Touched after its latest integration, if there was one. */
  ghost predicate TouchedSince(s: System, window: seq<Step>, a: Address) {
    window != [] &&
    var n := |window| - 1;
    var prev := Exec(s, window[..n]);
    !Renews(prev, window[n], a) && (TouchedSince(s, window[..n], a) || Touches(prev, window[n], a))
  }

  /** There is one resyncer, so no other resync runs between a snapshot and its apply. */
  ghost predicate OneResync(window: seq<Step>) {
    forall i :: 0 <= i < |window| ==> !window[i].Resync?
  }

  /** ... and no pool of the snapshot is integrated afresh meanwhile. */
  ghost predicate QuietWindow(s: System, window: seq<Step>) {
    OneResync(window) && forall a :: a in s.tracked ==> !Afresh(s, window, a)
  }

  /** A still-tracked snapshot pool was touched, and its stamp moved past anything the snapshot saw; or it was
      integrated afresh, and its stamp is zero; or it is exactly as the snapshot saw it. */
  lemma {:induction false} WindowStamps(s: System, window: seq<Step>, a: Address)
    requires Sound(s) && Legal(s, window) && OneResync(window) && a in s.tracked
    ensures var t := Exec(s, window).tracked;
            a in t ==>
              if TouchedSince(s, window, a) then t[a].lastUpdate > s.lastBlock
              else if Afresh(s, window, a) then t[a].lastUpdate == 0
              else t[a].ticks == s.tracked[a].ticks && t[a].lastUpdate == s.tracked[a].lastUpdate
    ensures TouchedSince(s, window, a) ==> Touched(s, window, a)
    ensures !Afresh(s, window, a) ==> (TouchedSince(s, window, a) <==> Touched(s, window, a))
  {
    if window != [] {
      var n := |window| - 1;
      var prev := Exec(s, window[..n]);
      RunSound(s, window[..n]);
      WindowStamps(s, window[..n], a);
      if window[n].Block? {
        ApplyBlockKeys(prev.tracked, window[n].pools, window[n].data, window[n].number);
        if a in prev.tracked {
          ApplyBlockEffect(prev.tracked, window[n].pools, window[n].data, window[n].number, a);
        }
      }
    }
  }

  /** An integration leaves tracked pools alone and starts the others from their fetch, sorted, with stamp zero. */
  lemma IntegrateExactly(s: System, fetched: map<Address, Fetched>, a: Address)
    requires Enabled(s, Integrate(fetched))
    ensures var r := Next(s, Integrate(fetched));
            && r == s.(tracked := r.tracked, phase := Clearing(fetched.Keys))
            && (a in r.tracked <==> a in s.tracked || a in fetched)
            && (a in s.tracked ==> r.tracked[a] == s.tracked[a])
            && (a in fetched && a !in s.tracked ==>
                  var (e, f) := (r.tracked[a], fetched[a]);
                  && e.spacing == f.spacing && e.bitmap == f.bitmap && e.lastUpdate == 0
                  && Ascending(e.ticks) && multiset(e.ticks) == multiset(f.ticks))
  {
    if a in fetched { SortedFetch(fetched[a]); }
  }

  /** Resync-apply of `fetched` after `window`, the snapshot being of `s`. */
  ghost function Resynced(s: System, window: seq<Step>, fetched: map<Address, Fetched>): (t: Tracked)
    ensures t.Keys == Exec(s, window).tracked.Keys
  {
    ResyncApply(Exec(s, window).tracked, TakeSnapshot(s.tracked), fetched)
  }

  /** The stamp cannot tell a re-integrated pool from the snapshot's pool, and the fetch differs from the snapshot. */
  ghost predicate Overwrites(s: System, fetched: map<Address, Fetched>, a: Address)
    requires a in s.tracked && a in fetched
  {
    s.tracked[a].lastUpdate == 0 && s.tracked[a].ticks != SortTicks(fetched[a].ticks)
  }

  /** What resync-apply does to each pool after any window: a pool touched since it was last integrated is left
      alone; any other still-tracked pool that was fetched ends with the fetched list if and only if it was not
      integrated afresh, or held that list already, or the stale stamp lets the fetch through. */
  lemma ResyncExactly(s: System, window: seq<Step>, fetched: map<Address, Fetched>, a: Address)
    requires Sound(s) && Legal(s, window) && OneResync(window) && a in Exec(s, window).tracked
    ensures var before, after := Exec(s, window).tracked, Resynced(s, window, fetched);
            && after.Keys == before.Keys && after[a].lastUpdate == before[a].lastUpdate
            && if a !in s.tracked || a !in fetched || TouchedSince(s, window, a) then after[a] == before[a]
               else
                 var list := SortTicks(fetched[a].ticks);
                 && (after[a].ticks == list <==>
                       !Afresh(s, window, a) || before[a].ticks == list || Overwrites(s, fetched, a))
                 && (after[a] != before[a] ==> after[a] == before[a].(ticks := list, bitmap := fetched[a].bitmap))
  {
    if a in s.tracked { WindowStamps(s, window, a); }
  }

  /** What a resync is for: a pool that a block touched since the snapshot keeps its list, any other gets the fetched
      one. */
  ghost predicate Corrected(s: System, window: seq<Step>, fetched: map<Address, Fetched>, a: Address)
    requires a in fetched && a in Exec(s, window).tracked
  {
    var before, after := Exec(s, window).tracked, Resynced(s, window, fetched);
    if Touched(s, window, a) then after[a].ticks == before[a].ticks else after[a].ticks == SortTicks(fetched[a].ticks)
  }

  /** When a resync does what it is for: exactly when the pool was touched after its latest integration, or was not
      integrated afresh, or already holds the fetched list, or the stale stamp happens to decide right. */
  lemma CorrectedExactly(s: System, window: seq<Step>, fetched: map<Address, Fetched>, a: Address)
    requires Sound(s) && Legal(s, window) && OneResync(window)
    requires a in s.tracked && a in fetched && a in Exec(s, window).tracked
    ensures Corrected(s, window, fetched, a) <==>
              || TouchedSince(s, window, a)
              || !Afresh(s, window, a)
              || Exec(s, window).tracked[a].ticks == SortTicks(fetched[a].ticks)
              || (Touched(s, window, a) <==> !Overwrites(s, fetched, a))
  {
    WindowStamps(s, window, a);
    ResyncExactly(s, window, fetched, a);
  }

  /** Resync-apply after any quiet window: a pool touched by a block since the snapshot keeps its list;
      every other successfully fetched, still-tracked pool ends with exactly the fetched sorted list. */
  lemma ResyncKeepsFresherData(s: System, window: seq<Step>, fetched: map<Address, Fetched>)
    requires Sound(s) && Legal(s, window) && QuietWindow(s, window)
    ensures var before, after := Exec(s, window).tracked, Resynced(s, window, fetched);
            && after.Keys == before.Keys
            && forall a :: a in before ==>
                 if a in s.tracked && a in fetched && !Touched(s, window, a)
                 then after[a].ticks == SortTicks(fetched[a].ticks) && after[a].lastUpdate == before[a].lastUpdate
                 else after[a] == before[a]
  {
    hide Exec, Legal, Sound, SortTicks, Touched, TouchedSince, Afresh, OneResync;
    var before, after := Exec(s, window).tracked, Resynced(s, window, fetched);
    forall a | a in before
      ensures if a in s.tracked && a in fetched && !Touched(s, window, a)
              then after[a].ticks == SortTicks(fetched[a].ticks) && after[a].lastUpdate == before[a].lastUpdate
              else after[a] == before[a]
    {
      if a in s.tracked { WindowStamps(s, window, a); }
      ResyncExactly(s, window, fetched, a);
    }
  }

  /** The first way to fail: a snapshot pool removed, added again and integrated afresh, untouched throughout. If the
      fetch agrees with the snapshot but not with the re-added list, the pool keeps that list. */
  lemma ReaddedPoolKeepsStaleList(s: System, window: seq<Step>, a: Address, p: Fetched, q: Fetched)
    requires Readded(s, window, a, q) && Sound(s) && OneResync(window) && !Touched(s, window, a)
    requires s.tracked[a].ticks == SortTicks(p.ticks) != SortTicks(q.ticks)
    ensures var w := window + [Integrate(map[a := q])];
            && Legal(s, w) && a in Exec(s, w).tracked && !Touched(s, w, a) && !Corrected(s, w, map[a := p], a)
            && Resynced(s, w, map[a := p])[a].ticks == SortTicks(q.ticks) != SortTicks(p.ticks)
  {
    hide Exec, Legal, Sound, SortTicks, Touched, TouchedSince, Afresh, OneResync, ResyncApply;
    IntegratedAfresh(s, window, a, q);
    ResyncExactly(s, window + [Integrate(map[a := q])], map[a := p], a);
  }

  /** The second way: the pool was touched by a block before it was removed. Its fresh list carries stamp zero again,
      so a fetch older than that block rolls it back. */
  lemma TouchedPoolRolledBack(s: System, window: seq<Step>, a: Address, p: Fetched, q: Fetched)
    requires Readded(s, window, a, q) && Sound(s) && OneResync(window) && Touched(s, window, a)
    requires s.tracked[a].lastUpdate == 0
    requires s.tracked[a].ticks != SortTicks(p.ticks) && SortTicks(p.ticks) != SortTicks(q.ticks)
    ensures var w := window + [Integrate(map[a := q])];
            && Legal(s, w) && a in Exec(s, w).tracked && Touched(s, w, a) && !Corrected(s, w, map[a := p], a)
            && Exec(s, w).tracked[a].ticks == SortTicks(q.ticks)
            && Resynced(s, w, map[a := p])[a].ticks == SortTicks(p.ticks) != SortTicks(q.ticks)
  {
    hide Exec, Legal, Sound, SortTicks, Touched, TouchedSince, Afresh, OneResync, ResyncApply;
    IntegratedAfresh(s, window, a, q);
    ResyncExactly(s, window + [Integrate(map[a := q])], map[a := p], a);
  }

  /** A snapshot pool that is about to be integrated again. */
  ghost predicate Readded(s: System, window: seq<Step>, a: Address, q: Fetched) {
    && Legal(s, window) && a in s.tracked && DistinctIndexes(q.ticks)
    && var mid := Exec(s, window);
       a !in mid.tracked && mid.phase.Fetching? && a in mid.phase.batch
  }

  lemma IntegratedAfresh(s: System, window: seq<Step>, a: Address, q: Fetched)
    requires Readded(s, window, a, q) && OneResync(window)
    ensures var w := window + [Integrate(map[a := q])];
            && Legal(s, w) && OneResync(w) && Afresh(s, w, a) && !TouchedSince(s, w, a)
            && (Touched(s, w, a) <==> Touched(s, window, a))
            && a in Exec(s, w).tracked && Exec(s, w).tracked[a].ticks == SortTicks(q.ticks)
  {
    ExecOne(s, window, Integrate(map[a := q]));
    assert (window + [Integrate(map[a := q])])[..|window|] == window;
  }

  /** Such windows exist: remove, add again, and let the initializer pick the pool up, after a block or without one. */
  lemma ReaddTaken(s: System, a: Address, q: Fetched)
    requires a in s.tracked && s.phase.Idle? && s.pending == {} && DistinctIndexes(q.ticks)
    ensures var window := [Remove(a), Add(a), TakeBatch];
            Readded(s, window, a, q) && OneResync(window) && !Touched(s, window, a)
  {
    var window := [Remove(a), Add(a), TakeBatch];
    RemoveAndReadd(s, [], a);
    assert [] + window == window;
    UntouchedWithoutBlocks(s, window, a);
  }

  lemma TouchedReaddTaken(s: System, a: Address, us: seq<Tick>, q: Fetched)
    requires a in s.tracked && s.phase.Idle? && s.pending == {} && us != [] && DistinctIndexes(q.ticks)
    ensures var window := [Block([a], [us], s.lastBlock + 1), Remove(a), Add(a), TakeBatch];
            Readded(s, window, a, q) && OneResync(window) && Touched(s, window, a)
  {
    var block := Block([a], [us], s.lastBlock + 1);
    ExecOne(s, [], block);
    assert [] + [block] == [block];
    ApplyBlockKeys(s.tracked, [a], [us], s.lastBlock + 1);
    assert [block][..0] == [];
    assert UpdatesFor([a], [us], a) == UpdatesFor([], [], a) + us;
    assert Touched(s, [block], a);
    RemoveAndReadd(s, [block], a);
    assert [block] + [Remove(a), Add(a), TakeBatch] == [block, Remove(a), Add(a), TakeBatch];
  }

  lemma RemoveAndReadd(s: System, window: seq<Step>, a: Address)
    requires Legal(s, window)
    requires var e := Exec(s, window); a in e.tracked && e.phase.Idle? && e.pending == {}
    ensures var w := window + [Remove(a), Add(a), TakeBatch];
            && Legal(s, w) && a !in Exec(s, w).tracked && Exec(s, w).phase == Fetching({a})
            && (Touched(s, w, a) <==> Touched(s, window, a))
  {
    var w1 := window + [Remove(a)];
    var w2 := w1 + [Add(a)];
    ExecOne(s, window, Remove(a));
    ExecOne(s, w1, Add(a));
    ExecOne(s, w2, TakeBatch);
    assert w2 + [TakeBatch] == window + [Remove(a), Add(a), TakeBatch];
    TouchedOne(s, window, Remove(a), a);
    TouchedOne(s, w1, Add(a), a);
    TouchedOne(s, w2, TakeBatch, a);
  }

  lemma TouchedOne(s: System, window: seq<Step>, step: Step, a: Address)
    ensures Touched(s, window + [step], a) <==> Touched(s, window, a) || Touches(Exec(s, window), step, a)
  {
    assert (window + [step])[..|window|] == window;
  }

  lemma {:induction false} UntouchedWithoutBlocks(s: System, window: seq<Step>, a: Address)
    requires forall i :: 0 <= i < |window| ==> !window[i].Block?
    ensures !Touched(s, window, a)
  {
    if window != [] { UntouchedWithoutBlocks(s, window[..|window| - 1], a); }
  }

  // ----- No pool is lost, except in one window -----

  ghost predicate NoPoolLost(s: System) {
    forall a :: a in s.wanted ==> a in s.pending || a in s.tracked
  }

  /** The exact bookkeeping between the initializer's critical sections. */
  ghost predicate Accounted(s: System) {
    match s.phase
    case Idle => s.wanted == s.pending + s.tracked.Keys && s.pending !! s.tracked.Keys
    case Fetching(batch) => s.wanted == s.pending + s.tracked.Keys && s.pending !! s.tracked.Keys && batch <= s.pending
    case Clearing(done) =>
      // Integrated pools are still queued; one that a client has since removed leaves only its queue entry.
      && done <= s.pending
      && s.pending - done !! s.tracked.Keys
      && s.wanted == (s.pending - done) + s.tracked.Keys
  }

  /** An accepted Add that names a pool whose queue entry the initializer is about to delete. */
  ghost predicate LateAdd(s: System, step: Step) {
    step.Add? && s.phase.Clearing? && step.a in s.phase.done && step.a !in s.tracked
  }

  ghost predicate Calm(s: System, steps: seq<Step>) {
    steps == [] ||
    (var n := |steps| - 1; Calm(s, steps[..n]) && !LateAdd(Exec(s, steps[..n]), steps[n]))
  }

  lemma NextAccounted(s: System, step: Step)
    requires Accounted(s) && Enabled(s, step) && !LateAdd(s, step)
    ensures Accounted(Next(s, step))
  {
    if step.Block? { ApplyBlockKeys(s.tracked, step.pools, step.data, step.number); }
  }

  /** Every run without a late add: outside the initializer's clearing window the queue and the tracked pools
      together are exactly the wanted pools, and none is ever lost. */
  lemma {:induction false} CalmRunLosesNothing(steps: seq<Step>)
    requires Legal(START, steps) && Calm(START, steps)
    ensures Accounted(Exec(START, steps)) && NoPoolLost(Exec(START, steps))
  {
    if steps != [] {
      var n := |steps| - 1;
      CalmRunLosesNothing(steps[..n]);
      NextAccounted(Exec(START, steps[..n]), steps[n]);
    }
  }

  ghost predicate ClientStep(step: Step) {
    step.Add? || step.Remove? || step.Block? || step.Resync?
  }

  ghost predicate ClientWindow(window: seq<Step>) {
    forall i :: 0 <= i < |window| ==> ClientStep(window[i])
  }

  /** During the clearing window: what a late add put back is queued, wanted and untracked until the queue is
      cleared. */
  lemma {:induction false} ClearingWindow(s: System, window: seq<Step>)
    requires Accounted(s) && s.phase.Clearing? && ClientWindow(window) && Legal(s, window)
    ensures var r := Exec(s, window);
            && r.phase == s.phase
            && s.phase.done <= r.pending
            && r.pending - s.phase.done !! r.tracked.Keys
            && r.wanted >= (r.pending - s.phase.done) + r.tracked.Keys
            && r.wanted <= r.pending + r.tracked.Keys
            && (Calm(s, window) <==> r.wanted * s.phase.done <= r.tracked.Keys)
  {
    if window != [] {
      var n := |window| - 1;
      ClearingWindow(s, window[..n]);
      var prev := Exec(s, window[..n]);
      if window[n].Block? { ApplyBlockKeys(prev.tracked, window[n].pools, window[n].data, window[n].number); }
    }
  }

  /** Exactly when a pool is lost: clearing after a window of client steps keeps every wanted pool
      if and only if no accepted Add in that window named a pool of the batch being cleared. */
  lemma LostExactlyByLateAdd(s: System, window: seq<Step>)
    requires Accounted(s) && s.phase.Clearing? && ClientWindow(window) && Legal(s, window)
    ensures Enabled(Exec(s, window), Clear)
    ensures NoPoolLost(Next(Exec(s, window), Clear)) <==> Calm(s, window)
  {
    ClearingWindow(s, window);
    var r := Exec(s, window);
    var e := Next(r, Clear);
    if !Calm(s, window) {
      var a :| a in r.wanted * s.phase.done && a !in r.tracked.Keys;
      assert a in e.wanted && a !in e.pending && a !in e.tracked;
    }
  }

  // ----- Which pools are lost, in every run -----

  ghost function Lost(s: System): set<Address> {
    s.wanted - s.pending - s.tracked.Keys
  }

  /** The pools added late since the last integration. */
  ghost function LateAdds(steps: seq<Step>): set<Address> {
    if steps == [] then {}
    else
      var n := |steps| - 1;
      if steps[n].Integrate? || steps[n].Clear? then {}
      else LateAdds(steps[..n]) + if LateAdd(Exec(START, steps[..n]), steps[n]) then {steps[n].a} else {}
  }

  /** Clearing the queue loses the late additions; adding a lost pool again recovers it; nothing else matters. */
  ghost function LossLedger(steps: seq<Step>): set<Address> {
    if steps == [] then {}
    else
      var n := |steps| - 1;
      match steps[n]
      case Clear => LossLedger(steps[..n]) + LateAdds(steps[..n])
      case Add(a) => LossLedger(steps[..n]) - {a}
      case _ => LossLedger(steps[..n])
  }

  ghost predicate Balanced(s: System, late: set<Address>) {
    match s.phase
    case Idle => late == {}
    case Fetching(batch) => late == {} && batch <= s.pending
    case Clearing(done) => done <= s.pending && late == s.wanted * done - s.tracked.Keys
  }

  lemma {:induction false} LateAddsBalance(steps: seq<Step>)
    requires Legal(START, steps)
    ensures Balanced(Exec(START, steps), LateAdds(steps))
  {
    if steps != [] {
      var n := |steps| - 1;
      var prev := Exec(START, steps[..n]);
      LateAddsBalance(steps[..n]);
      if steps[n].Block? { ApplyBlockKeys(prev.tracked, steps[n].pools, steps[n].data, steps[n].number); }
    }
  }

  /** In every run, late adds and earlier losses included: the pools lost are exactly those of the ledger, and the next
      clearing loses exactly the late additions. */
  lemma {:induction false} LossesExactly(steps: seq<Step>)
    requires Legal(START, steps)
    ensures var s := Exec(START, steps);
            && Lost(s) == LossLedger(steps)
            && (NoPoolLost(s) <==> LossLedger(steps) == {})
            && (s.phase.Clearing? ==> Lost(Next(s, Clear)) == LossLedger(steps) + LateAdds(steps))
  {
    LateAddsBalance(steps);
    if steps != [] {
      var n := |steps| - 1;
      var prev := Exec(START, steps[..n]);
      LossesExactly(steps[..n]);
      LateAddsBalance(steps[..n]);
      if steps[n].Block? { ApplyBlockKeys(prev.tracked, steps[n].pools, steps[n].data, steps[n].number); }
    }
    LostNone(Exec(START, steps));
  }

  lemma LostNone(s: System)
    ensures NoPoolLost(s) <==> Lost(s) == {}
  {
    if NoPoolLost(s) { assert forall a :: a !in Lost(s); }
    if Lost(s) == {} {
      forall a | a in s.wanted ensures a in s.pending || a in s.tracked { assert a !in Lost(s); }
    }
  }

  /** Such runs exist for every pool: add, initialize, remove, add again before the queue is cleared. */
  lemma PoolCanBeLost(a: Address, f: Fetched)
    requires DistinctIndexes(f.ticks)
    ensures exists steps ::
      && Legal(START, steps) && Exec(START, steps).phase.Idle?
      && a in Exec(START, steps).wanted && !NoPoolLost(Exec(START, steps))
  {
    var s3 := Initialized(a, f);
    var s4 := s3 + [Remove(a)];
    var s5 := s4 + [Add(a)];
    ExecOne(START, s3, Remove(a));
    ExecOne(START, s4, Add(a));
    ExecOne(START, s5, Clear);
    var end := Exec(START, s5 + [Clear]);
    assert a in end.wanted && a !in end.pending && a !in end.tracked;
  }

  lemma Initialized(a: Address, f: Fetched) returns (steps: seq<Step>)
    requires DistinctIndexes(f.ticks)
    ensures Legal(START, steps)
    ensures var s := Exec(START, steps); a in s.tracked && s.pending == {a} && s.phase == Clearing({a})
  {
    var s1 := [] + [Add(a)];
    var s2 := s1 + [TakeBatch];
    ExecOne(START, [], Add(a));
    ExecOne(START, s1, TakeBatch);
    ExecOne(START, s2, Integrate(map[a := f]));
    steps := s2 + [Integrate(map[a := f])];
  }
}
