/** The two locked systems over the pool registry and the token-pool graph. Writers replace a cached view that
    readers load without the lock; the cache is always a fresh view, also on error and no-change paths. */
module PoolSystems {
  import opened Outcome
  import PR = PoolRegistry
  import Graphs = TokenPoolGraph
  import Runs = TokenPoolsRuns
  import GR = TokenPoolsRegistry

  // ----- Batches as folds of single operations -----

  /** Adding keys one at a time, in order. */
  ghost function AddAll(p: PR.Pools, keys: seq<PR.Key>,
                        names: seq<PR.ProtocolID>): (r: (PR.Pools, seq<Result<nat, PR.Error>>))
    requires PR.Consistent(p) && |keys| == |names|
    ensures PR.Consistent(r.0) && |r.1| == |keys|
  {
    if keys == [] then (p, [])
    else
      var n := |keys| - 1;
      var (q, rs) := AddAll(p, keys[..n], names[..n]);
      PR.AddedRefines(q, keys[n], names[n]);
      var (q', r) := PR.Added(q, keys[n], names[n]);
      (q', rs + [r])
  }

  ghost function DeleteAll(p: PR.Pools, ids: seq<nat>): (r: (PR.Pools, seq<Result<(), PR.Error>>))
    requires PR.Consistent(p)
    ensures PR.Consistent(r.0) && |r.1| == |ids|
  {
    if ids == [] then (p, [])
    else
      var n := |ids| - 1;
      var (q, rs) := DeleteAll(p, ids[..n]);
      PR.DeletedRefines(q, ids[n]);
      var (q', r) := PR.Deleted(q, ids[n]);
      (q', rs + [r])
  }

  datatype LinkOp = LinkOp(tokens: seq<nat>, pool: nat)

  ghost function LinkAll(g: Runs.Registry, links: seq<LinkOp>): (r: Runs.Registry)
    requires Runs.Settled(g)
    ensures Runs.Settled(r)
  {
    if links == [] then g
    else
      var n := |links| - 1;
      var h := LinkAll(g, links[..n]);
      Runs.ApplyRefines(h, Runs.AddPool(links[n].tokens, links[n].pool));
      Runs.Apply(h, Runs.AddPool(links[n].tokens, links[n].pool))
  }

  ghost function UnlinkAll(g: Runs.Registry, ids: seq<nat>): (r: Runs.Registry)
    requires Runs.Settled(g)
    ensures Runs.Settled(r)
  {
    if ids == [] then g
    else
      var n := |ids| - 1;
      var h := UnlinkAll(g, ids[..n]);
      Runs.ApplyRefines(h, Runs.RemovePool(ids[n]));
      Runs.Apply(h, Runs.RemovePool(ids[n]))
  }

  // ----- Result slices: position for position, with nil for "no error at all" -----

  function IdsOf(rs: seq<Result<nat, PR.Error>>): (ids: seq<nat>)
    ensures |ids| == |rs| && forall i :: 0 <= i < |rs| ==> ids[i] == if rs[i].Ok? then rs[i].value else 0
  {
    if rs == [] then []
    else
      var r := rs[|rs| - 1];
      IdsOf(rs[..|rs| - 1]) + [if r.Ok? then r.value else 0]
  }

  function ErrsOf<T>(rs: seq<Result<T, PR.Error>>): (errs: seq<Option<PR.Error>>)
    ensures |errs| == |rs| && forall i :: 0 <= i < |rs| ==> errs[i] == if rs[i].Err? then Some(rs[i].error) else None
  {
    if rs == [] then []
    else
      var r := rs[|rs| - 1];
      ErrsOf(rs[..|rs| - 1]) + [if r.Err? then Some(r.error) else None]
  }

  predicate AnyErr<T>(rs: seq<Result<T, PR.Error>>)
    ensures AnyErr(rs) <==> exists i :: 0 <= i < |rs| && rs[i].Err?
  {
    rs != [] && (rs[|rs| - 1].Err? || AnyErr(rs[..|rs| - 1]))
  }

  function Reported<T>(rs: seq<Result<T, PR.Error>>): (errs: Option<seq<Option<PR.Error>>>)
    ensures errs.None? <==> forall i :: 0 <= i < |rs| ==> rs[i].Ok?
    ensures errs.Some? ==> errs.value == ErrsOf(rs)
  {
    if AnyErr(rs) then Some(ErrsOf(rs)) else None
  }

  lemma ReportExtend<T>(rs: seq<Result<T, PR.Error>>, r: Result<T, PR.Error>)
    ensures ErrsOf(rs + [r]) == ErrsOf(rs) + [if r.Err? then Some(r.error) else None]
    ensures AnyErr(rs + [r]) <==> AnyErr(rs) || r.Err?
  {
    assert (rs + [r])[..|rs|] == rs;
  }

  lemma IdsExtend(rs: seq<Result<nat, PR.Error>>, r: Result<nat, PR.Error>)
    ensures IdsOf(rs + [r]) == IdsOf(rs) + [if r.Ok? then r.value else 0]
  {
    assert (rs + [r])[..|rs|] == rs;
  }

  lemma NoneAdded(p: PR.Pools)
    requires PR.Consistent(p)
    ensures AddAll(p, [], []) == (p, []) && IdsOf([]) == []
    ensures ErrsOf<nat>([]) == [] && !AnyErr<nat>([])
  {
  }

  lemma NoneDeleted(p: PR.Pools)
    requires PR.Consistent(p)
    ensures DeleteAll(p, []) == (p, [])
    ensures ErrsOf<()>([]) == [] && !AnyErr<()>([])
  {
  }

  lemma AddAllStep(p: PR.Pools, keys: seq<PR.Key>, names: seq<PR.ProtocolID>, i: nat)
    requires PR.Consistent(p) && |keys| == |names| && i < |keys|
    ensures var (q, rs) := AddAll(p, keys[..i], names[..i]);
            var (q', r) := PR.Added(q, keys[i], names[i]);
            && AddAll(p, keys[..i + 1], names[..i + 1]) == (q', rs + [r])
            && (r.Err? ==> q' == q)
  {
    assert keys[..i + 1] == keys[..i] + [keys[i]] && names[..i + 1] == names[..i] + [names[i]];
    AddAllExtend(p, keys[..i], names[..i], keys[i], names[i]);
  }

  lemma AddAllExtend(p: PR.Pools, keys: seq<PR.Key>, names: seq<PR.ProtocolID>, key: PR.Key, name: PR.ProtocolID)
    requires PR.Consistent(p) && |keys| == |names|
    ensures var (q, rs) := AddAll(p, keys, names);
            var (q', r) := PR.Added(q, key, name);
            && AddAll(p, keys + [key], names + [name]) == (q', rs + [r])
            && (r.Err? ==> q' == q)
  {
    assert (keys + [key])[..|keys|] == keys && (names + [name])[..|names|] == names;
    PR.AddedRefines(AddAll(p, keys, names).0, key, name);
  }

  /** Issued IDs are never zero. */
  ghost predicate Issued(rs: seq<Result<nat, PR.Error>>) {
    forall j :: 0 <= j < |rs| && rs[j].Ok? ==> rs[j].value > 0
  }

  lemma {:induction false} AddAllIssued(p: PR.Pools, keys: seq<PR.Key>, names: seq<PR.ProtocolID>)
    requires PR.Consistent(p) && |keys| == |names|
    ensures Issued(AddAll(p, keys, names).1)
  {
    if keys != [] {
      var n := |keys| - 1;
      AddAllIssued(p, keys[..n], names[..n]);
      PR.AddedRefines(AddAll(p, keys[..n], names[..n]).0, keys[n], names[n]);
    }
  }

  lemma LinkAllExtend(g: Runs.Registry, links: seq<LinkOp>, link: LinkOp)
    requires Runs.Settled(g)
    ensures LinkAll(g, links + [link]) == Runs.Apply(LinkAll(g, links), Runs.AddPool(link.tokens, link.pool))
  {
    assert (links + [link])[..|links|] == links;
  }

  lemma DeleteAllStep(p: PR.Pools, ids: seq<nat>, i: nat)
    requires PR.Consistent(p) && i < |ids|
    ensures var (q, rs) := DeleteAll(p, ids[..i]);
            var (q', r) := PR.Deleted(q, ids[i]);
            && DeleteAll(p, ids[..i + 1]) == (q', rs + [r])
            && (r.Err? ==> q' == q)
  {
    assert ids[..i + 1][..i] == ids[..i];
    PR.DeletedRefines(DeleteAll(p, ids[..i]).0, ids[i]);
  }

  class PoolSystem {
    const registry: PR.PoolRegistry
    var cachedView: PR.View

    ghost predicate Valid()
      reads this, registry
    {
      registry.Valid() && cachedView == PR.ViewOf(registry.Fields())
    }

    constructor ()
      ensures Valid() && fresh(registry) && registry.Fields() == PR.EMPTY
    {
      registry := new PR.PoolRegistry();
      cachedView := PR.View([], map[]);
      new;
      UpdateCachedView();
    }

    method UpdateCachedView()
      requires registry.Valid()
      modifies this`cachedView
      ensures Valid()
    {
      cachedView := PR.ViewOf(registry.Fields());
    }

    /** Lock-free: what a reader sees is the registry's own view. */
    method View() returns (v: PR.View)
      requires Valid()
      ensures v == PR.ViewOf(registry.Fields())
    {
      v := cachedView;
    }

    method AddPool(key: PR.Key, name: PR.ProtocolID) returns (r: Result<nat, PR.Error>)
      requires Valid()
      modifies this, registry
      ensures Valid()
      ensures (registry.Fields(), r) == PR.Added(old(registry.Fields()), key, name)
    {
      PR.AddedRefines(registry.Fields(), key, name);
      r := registry.AddPool(key, name);
      if r.Err? {
        return;
      }
      UpdateCachedView();
    }

    method AddPools(keys: seq<PR.Key>, names: seq<PR.ProtocolID>)
      returns (ids: seq<nat>, errs: Option<seq<Option<PR.Error>>>)
      requires Valid() && |keys| == |names|
      modifies this, registry
      ensures Valid()
      ensures var (q, rs) := AddAll(old(registry.Fields()), keys, names);
              registry.Fields() == q && ids == IdsOf(rs) && errs == Reported(rs)
    {
      hide IdsOf, ErrsOf, AnyErr, AddAll, PR.Added, PR.ViewOf;
      ghost var p := registry.Fields();
      ghost var rs: seq<Result<nat, PR.Error>> := [];
      NoneAdded(p);
      ids := [];
      var list: seq<Option<PR.Error>> := [];
      var changed, hasErrors := false, false;
      for i := 0 to |keys|
        invariant registry.Valid() && (registry.Fields(), rs) == AddAll(p, keys[..i], names[..i])
        invariant cachedView == PR.ViewOf(p) && (!changed ==> registry.Fields() == p)
        invariant ids == IdsOf(rs) && list == ErrsOf(rs) && hasErrors == AnyErr(rs)
      {
        AddAllStep(p, keys, names, i);
        var r := registry.AddPool(keys[i], names[i]);
        ReportExtend(rs, r);
        IdsExtend(rs, r);
        rs := rs + [r];
        if r.Err? {
          ids, list := ids + [0], list + [Some(r.error)];
          hasErrors := true;
        } else {
          ids, list := ids + [r.value], list + [None];
          changed := true;
        }
      }
      assert keys[..|keys|] == keys && names[..|names|] == names;
      if changed {
        UpdateCachedView();
      }
      errs := if hasErrors then Some(list) else None;
    }

    method DeletePool(id: nat) returns (r: Result<(), PR.Error>)
      requires Valid()
      modifies this, registry
      ensures Valid()
      ensures (registry.Fields(), r) == PR.Deleted(old(registry.Fields()), id)
    {
      PR.DeletedRefines(registry.Fields(), id);
      r := registry.DeletePool(id);
      if r.Err? {
        return;
      }
      UpdateCachedView();
    }

    method DeletePools(ids: seq<nat>) returns (errs: Option<seq<Option<PR.Error>>>)
      requires Valid()
      modifies this, registry
      ensures Valid()
      ensures var (q, rs) := DeleteAll(old(registry.Fields()), ids);
              registry.Fields() == q && errs == Reported(rs)
    {
      hide ErrsOf, AnyErr, DeleteAll, PR.Deleted, PR.ViewOf;
      ghost var p := registry.Fields();
      ghost var rs: seq<Result<(), PR.Error>> := [];
      NoneDeleted(p);
      var list: seq<Option<PR.Error>> := [];
      var changed, hasErrors := false, false;
      for i := 0 to |ids|
        invariant registry.Valid() && (registry.Fields(), rs) == DeleteAll(p, ids[..i])
        invariant cachedView == PR.ViewOf(p) && (!changed ==> registry.Fields() == p)
        invariant list == ErrsOf(rs) && hasErrors == AnyErr(rs)
      {
        DeleteAllStep(p, ids, i);
        var r := registry.DeletePool(ids[i]);
        ReportExtend(rs, r);
        rs := rs + [r];
        if r.Err? {
          list := list + [Some(r.error)];
          hasErrors := true;
        } else {
          list := list + [None];
          changed := true;
        }
      }
      assert ids[..|ids|] == ids;
      if changed {
        UpdateCachedView();
      }
      errs := if hasErrors then Some(list) else None;
    }

    method AddToBlockList(key: PR.Key)
      requires Valid()
      modifies this, registry
      ensures Valid() && registry.Fields() == PR.Apply(old(registry.Fields()), PR.Block(key))
      ensures key in registry.blockList
      ensures forall k :: k != key ==> (k in registry.blockList <==> k in old(registry.blockList))
      ensures registry.Fields() == old(registry.Fields()).(blockList := registry.blockList)
    {
      registry.AddToBlockList(key);
      UpdateCachedView();
    }

    method RemoveFromBlockList(key: PR.Key)
      requires Valid()
      modifies this, registry
      ensures Valid() && registry.Fields() == PR.Apply(old(registry.Fields()), PR.Unblock(key))
      ensures key !in registry.blockList
      ensures forall k :: k != key ==> (k in registry.blockList <==> k in old(registry.blockList))
      ensures registry.Fields() == old(registry.Fields()).(blockList := registry.blockList)
    {
      registry.RemoveFromBlockList(key);
      UpdateCachedView();
    }
  }

  class TokenPoolSystem {
    const registry: GR.TokenPoolsRegistry
    var cachedView: Graphs.Graph

    ghost predicate Valid()
      reads this, registry
    {
      registry.Valid() && cachedView == registry.View()
    }

    constructor (compactionThreshold: int)
      ensures Valid() && fresh(registry) && registry.Snapshot() == Runs.New(compactionThreshold)
    {
      registry := new GR.TokenPoolsRegistry(compactionThreshold);
      cachedView := Graphs.EMPTY;
      new;
      UpdateCachedView();
    }

    method UpdateCachedView()
      requires registry.Valid()
      modifies this`cachedView
      ensures Valid()
    {
      cachedView := registry.View();
    }

    /** Lock-free: what a reader sees is the registry's own view. */
    method View() returns (v: Graphs.Graph)
      requires Valid()
      ensures v == registry.View()
    {
      v := cachedView;
    }

    method AddPool(tokens: seq<nat>, pool: nat)
      requires Valid()
      modifies this, registry
      ensures Valid() && registry.Snapshot() == Runs.Apply(old(registry.Snapshot()), Runs.AddPool(tokens, pool))
    {
      registry.Add(tokens, pool);
      UpdateCachedView();
    }

    method AddPools(links: seq<LinkOp>)
      requires Valid()
      modifies this, registry
      ensures Valid() && registry.Snapshot() == LinkAll(old(registry.Snapshot()), links)
    {
      if |links| == 0 {
        return;
      }
      ghost var g := registry.Snapshot();
      for i := 0 to |links|
        invariant registry.Valid() && registry.Snapshot() == LinkAll(g, links[..i])
      {
        assert links[..i + 1][..i] == links[..i];
        registry.Add(links[i].tokens, links[i].pool);
      }
      assert links[..|links|] == links;
      UpdateCachedView();
    }

    method RemovePool(pool: nat)
      requires Valid()
      modifies this, registry
      ensures Valid() && registry.Snapshot() == Runs.Apply(old(registry.Snapshot()), Runs.RemovePool(pool))
    {
      registry.RemovePool(pool);
      UpdateCachedView();
    }

    method RemovePools(ids: seq<nat>)
      requires Valid()
      modifies this, registry
      ensures Valid() && registry.Snapshot() == UnlinkAll(old(registry.Snapshot()), ids)
    {
      if |ids| == 0 {
        return;
      }
      ghost var g := registry.Snapshot();
      for i := 0 to |ids|
        invariant registry.Valid() && registry.Snapshot() == UnlinkAll(g, ids[..i])
      {
        assert ids[..i + 1][..i] == ids[..i];
        registry.RemovePool(ids[i]);
      }
      assert ids[..|ids|] == ids;
      UpdateCachedView();
    }

    method RemoveToken(token: nat)
      requires Valid()
      modifies this, registry
      ensures Valid() && registry.Snapshot() == Runs.Apply(old(registry.Snapshot()), Runs.RemoveToken(token))
    {
      registry.RemoveToken(token);
      UpdateCachedView();
    }
  }
}
