/** The in-process index of tenants and shared objects (pkg/lifecycle/cleanup.go). */
module ResourceIndex {
  import opened Text
  import opened Releases
  import opened CleanupPlan
  import opened CleanupRun

  /** Named tenants other than the one being removed. */
  function Others(tenants: seq<string>, except: string): nat {
    if tenants == [] then 0
    else
      var last := tenants[|tenants| - 1];
      Others(tenants[..|tenants| - 1], except) + if last != "" && last != except then 1 else 0
  }

  function Flagged(ds: seq<ObjectRef>, flip: bool): (r: seq<ObjectRef>)
    ensures |r| == |ds| && forall k :: 0 <= k < |ds| ==> r[k] == if flip then ds[k].(referenced := true) else ds[k]
  {
    seq(|ds|, k requires 0 <= k < |ds| => if flip then ds[k].(referenced := true) else ds[k])
  }

  /** The objects with the key, or without it, in their order. */
  function WithKey(ds: seq<ObjectRef>, key: string, wanted: bool): seq<ObjectRef> {
    if ds == [] then []
    else
      var rest, d := WithKey(ds[..|ds| - 1], key, wanted), ds[|ds| - 1];
      if (Key(d) == key) == wanted then rest + [d] else rest
  }

  class MemoryResourceIndex {
    var tenants: seq<string>
    var opi: seq<ObjectRef>
    var dataplane: seq<ObjectRef>
    var crdDependents: nat
    var deleted: seq<ObjectRef>
    var flipReferenced: bool
    var looks: nat

    constructor (tenants: seq<string>, opi: seq<ObjectRef>, dataplane: seq<ObjectRef>, crdDependents: nat, flip: bool)
      ensures this.tenants == tenants && this.opi == opi && this.dataplane == dataplane
      ensures this.crdDependents == crdDependents && flipReferenced == flip && deleted == [] && looks == 0
    {
      this.tenants, this.opi, this.dataplane, this.crdDependents := tenants, opi, dataplane, crdDependents;
      flipReferenced, deleted, looks := flip, [], 0;
    }

    ghost function View(except: string, look: nat): Refs
      reads this
    {
      Refs(Others(tenants, except), opi, Flagged(dataplane, flipReferenced && look > 1), crdDependents)
    }

    method Lookup(except: string) returns (refs: Refs)
      modifies this`looks
      ensures looks == old(looks) + 1 && refs == View(except, looks)
    {
      looks := looks + 1;
      var others := 0;
      for i := 0 to |tenants|
        invariant others == Others(tenants[..i], except) && looks == old(looks) + 1
      {
        assert tenants[..i + 1][..i] == tenants[..i];
        if tenants[i] != "" && tenants[i] != except {
          others := others + 1;
        }
      }
      assert tenants[..|tenants|] == tenants;
      var listed: seq<ObjectRef> := [];
      for i := 0 to |dataplane|
        invariant |listed| == i && looks == old(looks) + 1
        invariant forall k :: 0 <= k < i ==> listed[k] == Flagged(dataplane, flipReferenced && looks > 1)[k]
      {
        var d := dataplane[i];
        if flipReferenced && looks > 1 {
          d := d.(referenced := true);
        }
        listed := listed + [d];
      }
      assert listed == Flagged(dataplane, flipReferenced && looks > 1);
      refs := Refs(others, opi, listed, crdDependents);
    }

    /** Takes every object with the key out of the index and records it. */
    method DeleteDataplane(ref: ObjectRef)
      modifies this`dataplane, this`deleted
      ensures dataplane == WithKey(old(dataplane), Key(ref), false)
      ensures deleted == old(deleted) + WithKey(old(dataplane), Key(ref), true)
    {
      var all := dataplane;
      var kept: seq<ObjectRef> := [];
      for i := 0 to |all|
        invariant kept == WithKey(all[..i], Key(ref), false)
        invariant deleted == old(deleted) + WithKey(all[..i], Key(ref), true)
      {
        assert all[..i + 1][..i] == all[..i];
        if Key(all[i]) == Key(ref) {
          deleted := deleted + [all[i]];
        } else {
          kept := kept + [all[i]];
        }
      }
      assert all[..|all|] == all;
      dataplane := kept;
    }
  }

  /** A deletion by key only moves objects: what is gone carries the key, what
      stays does not, and together they are what was there. */
  lemma {:induction false} DeletionPartitions(ds: seq<ObjectRef>, key: string)
    ensures multiset(WithKey(ds, key, true)) + multiset(WithKey(ds, key, false)) == multiset(ds)
    ensures forall d :: d in WithKey(ds, key, true) ==> Key(d) == key
    ensures forall d :: d in WithKey(ds, key, false) ==> Key(d) != key
  {
    hide Key;
    if ds != [] {
      DeletionPartitions(ds[..|ds| - 1], key);
      assert ds == ds[..|ds| - 1] + [ds[|ds| - 1]];
    }
  }

  // ----- A cleanup against the index -----

  /** What a lookup shows, as a function of the index and the number of the look. */
  function Shown(tenants: seq<string>, opi: seq<ObjectRef>, ds: seq<ObjectRef>, crds: nat, except: string, flip: bool): Refs {
    Refs(Others(tenants, except), opi, Flagged(ds, flip), crds)
  }

  /** A second look at an unchanged index shows at least the references of the first. */
  lemma SecondLookShowsMore(tenants: seq<string>, opi: seq<ObjectRef>, ds: seq<ObjectRef>, crds: nat, except: string, flip: bool)
    ensures More(Shown(tenants, opi, ds, crds, except, false), Shown(tenants, opi, ds, crds, except, flip))
  {
    forall k | 0 <= k < |ds| ensures Raised(Flagged(ds, false)[k], Flagged(ds, flip)[k]) {
    }
  }

  /** Where a reference appears between the two looks of one cleanup, the release is
      removed in the same cases, no more objects go than without it, and no listed
      object goes at all. */
  lemma LateReferenceProtects(env: Env, s: Settings, tenants: seq<string>, opi: seq<ObjectRef>, ds: seq<ObjectRef>, crds: nat, except: string)
    requires env.refs == Some(Shown(tenants, opi, ds, crds, except, false)) && env.liveRefs == env.refs.value
    ensures var late := env.(liveRefs := Shown(tenants, opi, ds, crds, except, true));
            && Cleanup(late, s).removed == Cleanup(env, s).removed
            && Keys(Cleanup(late, s).deleted) <= Keys(Cleanup(env, s).deleted)
            && Cleanup(late, s).calls == []
  {
    var first, second := env.refs.value, Shown(tenants, opi, ds, crds, except, true);
    var late := env.(liveRefs := second);
    SecondLookShowsMore(tenants, opi, ds, crds, except, false);
    SecondLookShowsMore(tenants, opi, ds, crds, except, true);
    hide Cleanup, Shown;
    CleanupMonotone(env, late, s);
    var calls := Cleanup(late, s).calls;
    assert calls != [] ==> calls[0] in calls;
    forall d ensures d !in Cleanup(late, s).calls {
      CallIff(late, s, d);
      if d in first.dataplane {
        FlippedIsReferenced(tenants, opi, ds, crds, except, d);
      }
    }
  }

  lemma FlippedIsReferenced(tenants: seq<string>, opi: seq<ObjectRef>, ds: seq<ObjectRef>, crds: nat, except: string, d: ObjectRef)
    requires d in Shown(tenants, opi, ds, crds, except, false).dataplane
    ensures !Unreferenced(d, Shown(tenants, opi, ds, crds, except, true))
  {
    var k :| 0 <= k < |ds| && ds[k] == d;
    var cur := Flagged(ds, true)[k];
    assert cur in Flagged(ds, true) && cur.ns == d.ns && cur.kind == d.kind && cur.name == d.name && cur.referenced;
  }

  /** The first look shows the objects as they are; from the second on, with the
      switch set, all of them are flagged. */
  lemma LooksDiffer(idx: MemoryResourceIndex, except: string, look: nat)
    ensures look <= 1 ==> idx.View(except, look).dataplane == idx.dataplane
    ensures look > 1 && idx.flipReferenced ==> forall d :: d in idx.View(except, look).dataplane ==> d.referenced
    ensures !idx.flipReferenced ==> idx.View(except, look).dataplane == idx.dataplane
    ensures idx.View(except, look).opi == idx.opi && idx.View(except, look).crdDependents == idx.crdDependents
  {
  }

  /** How many tenants count: those with a name that is not the excepted one. */
  lemma {:induction false} OthersCount(tenants: seq<string>, except: string)
    ensures Others(tenants, except) == |set i | 0 <= i < |tenants| && tenants[i] != "" && tenants[i] != except|
  {
    var all := set i | 0 <= i < |tenants| && tenants[i] != "" && tenants[i] != except;
    if tenants != [] {
      var n := |tenants| - 1;
      OthersCount(tenants[..n], except);
      var front := set i | 0 <= i < |tenants[..n]| && tenants[..n][i] != "" && tenants[..n][i] != except;
      if tenants[n] != "" && tenants[n] != except {
        assert all == front + {n};
      } else {
        assert all == front;
      }
    }
  }

  /** What is left of the index after a sequence of deletes by key. */
  function Remaining(ds: seq<ObjectRef>, calls: seq<ObjectRef>): seq<ObjectRef> {
    if calls == [] then ds else WithKey(Remaining(ds, calls[..|calls| - 1]), Key(calls[|calls| - 1]), false)
  }

  /** Without a release that can be read there is nothing to look up. */
  lemma UnreadDoesNothing(env: Env, s: Settings)
    requires !env.first.Got?
    ensures Cleanup(env, s) == Outcome(if env.first.Missing? then Gone else Failed, Invalid, env.first.Missing?, false, [], [], None, [])
  {
  }

  /** Without a removal the second look never happens. */
  lemma NotRemovedIgnoresLive(env: Env, late: Env, s: Settings)
    requires late == env.(liveRefs := late.liveRefs) && Cleanup(env, s).removed.None? && Cleanup(late, s).removed.None?
    ensures Cleanup(env, s) == Cleanup(late, s)
  {
    hide Classify, Decide, ParsePolicy, Calls, Succeeded, LateSkips;
  }

  /** The guarded cleanup run on the index object: two lookups, then the deletes.
      The report is the specified one for what the two looks show, and the index
      loses exactly the objects whose delete was issued. */
  method CleanupWithIndex(idx: MemoryResourceIndex, except: string, s: Settings, first: Look, second: Look,
                          atUninstall: Option<Release>, uninstallFails: bool) returns (out: Outcome)
    modifies idx
    ensures out == Cleanup(Env(first, Some(old(idx.View(except, idx.looks + 1))), second, atUninstall, uninstallFails,
                             old(idx.View(except, idx.looks + 2)), {}), s)
    ensures idx.dataplane == Remaining(old(idx.dataplane), out.calls)
  {
    hide Cleanup, Classify, AllowsDelete, PolicyFor, Removal, Adoption;
    if !first.Got? {
      var none := Refs(0, [], [], 0);
      UnreadDoesNothing(Env(first, Some(none), second, atUninstall, uninstallFails, none, {}), s);
      UnreadDoesNothing(Env(first, Some(idx.View(except, idx.looks + 1)), second, atUninstall, uninstallFails,
                            idx.View(except, idx.looks + 2), {}), s);
      out := CleanupInstallations(Env(first, Some(none), second, atUninstall, uninstallFails, none, {}), s);
      return;
    }
    var refs := idx.Lookup(except);
    var env := Env(first, Some(refs), second, atUninstall, uninstallFails, refs, {});
    out := CleanupInstallations(env, s);
    ghost var late := env.(liveRefs := idx.View(except, old(idx.looks) + 2));
    RemovedIff(env, s);
    RemovedIff(late, s);
    if out.removed.Some? {
      var live := idx.Lookup(except);
      out := CleanupInstallations(env.(liveRefs := live), s);
    } else {
      NotRemovedIgnoresLive(env, late, s);
    }
    DeleteAll(idx, out.calls);
  }

  /** The deletes, one call after another. */
  method DeleteAll(idx: MemoryResourceIndex, calls: seq<ObjectRef>)
    modifies idx
    ensures idx.dataplane == Remaining(old(idx.dataplane), calls)
  {
    for i := 0 to |calls|
      invariant idx.dataplane == Remaining(old(idx.dataplane), calls[..i])
    {
      assert calls[..i + 1][..i] == calls[..i];
      idx.DeleteDataplane(calls[i]);
    }
    assert calls[..|calls|] == calls;
  }

  /** An object stays exactly when no issued delete has its key. */
  lemma {:induction false} RemainingIff(ds: seq<ObjectRef>, calls: seq<ObjectRef>, d: ObjectRef)
    ensures d in Remaining(ds, calls) <==> d in ds && forall c :: c in calls ==> Key(c) != Key(d)
  {
    hide Key;
    if calls != [] {
      var n := |calls| - 1;
      RemainingIff(ds, calls[..n], d);
      WithKeyIff(Remaining(ds, calls[..n]), Key(calls[n]), d);
      assert calls == calls[..n] + [calls[n]];
    }
  }

  lemma {:induction false} WithKeyIff(ds: seq<ObjectRef>, key: string, d: ObjectRef)
    ensures d in WithKey(ds, key, false) <==> d in ds && Key(d) != key
  {
    hide Key;
    if ds != [] {
      WithKeyIff(ds[..|ds| - 1], key, d);
      assert ds == ds[..|ds| - 1] + [ds[|ds| - 1]];
    }
  }
}
