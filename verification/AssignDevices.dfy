/** `AssignDevices` as the loops of pkg/discovery/inventory.go, proved to compute
    the match that module Inventory defines pass by pass. */
module AssignLoops {
  import opened Text
  import opened Sorting
  import opened Inventory

  /** Reading a Go map: a missing entry is the zero assignment. */
  function Lookup(out: map<string, Assignment>, n: string): Assignment {
    if n in out then out[n] else UNASSIGNED
  }

  /** The result map for these bindings and these cleared names. */
  ghost function Shown(bound: map<string, Device>, cleared: set<string>): map<string, Assignment> {
    map n | n in bound.Keys + cleared :: Assignment(if n in bound then Some(bound[n]) else None, n in cleared)
  }

  ghost function Names(views: seq<View>): set<string> {
    set v | v in views :: v.name
  }

  lemma ShownGive(a: Alloc, cl: set<string>, name: string, d: Device)
    requires name !in cl
    ensures Shown(Give(a, name, d).bound, cl) == Shown(a.bound, cl)[name := Assignment(Some(d), false)]
    ensures Give(a, name, d).Used() == a.Used() + {d.serial}
  {
  }

  lemma SerialSnoc(dpus: seq<View>, live: seq<Device>, i: nat)
    requires i < |dpus|
    ensures SerialPass(dpus[..i + 1], live) ==
            Offer(SerialPass(dpus[..i], live), dpus[i].name, SerialWish(dpus[i], live))
  {
    assert dpus[..i + 1][..i] == dpus[..i];
  }

  lemma UnboundSnoc(dpus: seq<View>, a: Alloc, stamped: bool, i: nat)
    requires i < |dpus|
    ensures Unbound(dpus[..i + 1], a, stamped) ==
            Unbound(dpus[..i], a, stamped) +
            (if dpus[i].name !in a.bound && HasIdentity(dpus[i].ann) == stamped then [dpus[i]] else [])
  {
    assert dpus[..i + 1][..i] == dpus[..i];
  }

  lemma ShownClear(a: Alloc, cleared: seq<View>, v: View)
    requires v.name !in a.bound
    ensures Shown(a.bound, Names(cleared + [v])) == Shown(a.bound, Names(cleared))[v.name := Assignment(None, true)]
  {
    assert Names(cleared + [v]) == Names(cleared) + {v.name} by {
      assert v in cleared + [v];
      assert forall w :: w in cleared ==> w in cleared + [v];
    }
  }

  method IndexLive(live: seq<Device>) returns (bySerial: map<string, Device>, byPCI: map<string, Device>)
    ensures forall s :: if s in bySerial then BySerial(live, s) == Some(bySerial[s]) else BySerial(live, s) == None
    ensures forall p :: if p in byPCI then ByPCI(live, p) == Some(byPCI[p]) else ByPCI(live, p) == None
  {
    bySerial, byPCI := map[], map[];
    for i := 0 to |live|
      invariant forall s :: if s in bySerial then BySerial(live[..i], s) == Some(bySerial[s]) else BySerial(live[..i], s) == None
      invariant forall p :: if p in byPCI then ByPCI(live[..i], p) == Some(byPCI[p]) else ByPCI(live[..i], p) == None
    {
      var d := live[i];
      assert live[..i + 1][..i] == live[..i];
      bySerial := bySerial[d.serial := d];
      byPCI := byPCI[d.pci := d];
      if DpfPciAddress(d.pci) != "" {
        byPCI := byPCI[DpfPciAddress(d.pci) := d];
      }
    }
    assert live[..|live|] == live;
  }

  method SerialLoop(dpus: seq<View>, live: seq<Device>, bySerial: map<string, Device>)
    returns (out: map<string, Assignment>, used: set<string>)
    requires forall s :: if s in bySerial then BySerial(live, s) == Some(bySerial[s]) else BySerial(live, s) == None
    ensures out == Shown(SerialPass(dpus, live).bound, {}) && used == SerialPass(dpus, live).Used()
  {
    out, used := map[], {};
    for i := 0 to |dpus|
      invariant out == Shown(SerialPass(dpus[..i], live).bound, {})
      invariant used == SerialPass(dpus[..i], live).Used()
    {
      SerialSnoc(dpus, live, i);
      var s := ClaimedSerial(dpus[i].ann);
      if s == "" || s !in bySerial {
        continue;
      }
      var d := bySerial[s];
      assert SerialWish(dpus[i], live) == Some(d);
      if d.serial in used {
        continue;
      }
      ShownGive(SerialPass(dpus[..i], live), {}, dpus[i].name, d);
      out := out[dpus[i].name := Assignment(Some(d), false)];
      used := used + {d.serial};
    }
    assert dpus[..|dpus|] == dpus;
  }

  method PciLoop(dpus: seq<View>, live: seq<Device>, byPCI: map<string, Device>, ghost a: Alloc,
                 out0: map<string, Assignment>, used0: set<string>)
    returns (out: map<string, Assignment>, used: set<string>)
    requires forall p :: if p in byPCI then ByPCI(live, p) == Some(byPCI[p]) else ByPCI(live, p) == None
    requires out0 == Shown(a.bound, {}) && used0 == a.Used()
    ensures out == Shown(PciPass(dpus, live, a).bound, {}) && used == PciPass(dpus, live, a).Used()
  {
    hide ClaimedPCI, ByPCI;
    out, used := out0, used0;
    for i := 0 to |dpus|
      invariant out == Shown(PciPass(dpus[..i], live, a).bound, {})
      invariant used == PciPass(dpus[..i], live, a).Used()
    {
      assert dpus[..i + 1][..i] == dpus[..i];
      if Lookup(out, dpus[i].name).device.Some? {
        continue;
      }
      var p := ClaimedPCI(dpus[i].ann);
      if p == "" || p !in byPCI {
        continue;
      }
      var d := byPCI[p];
      if d.serial in used {
        continue;
      }
      out := out[dpus[i].name := Assignment(Some(d), false)];
      used := used + {d.serial};
    }
    assert dpus[..|dpus|] == dpus;
  }

  method ClearLoop(dpus: seq<View>, ghost a: Alloc, out0: map<string, Assignment>)
    returns (out: map<string, Assignment>, cleared: seq<View>, empty: seq<View>)
    requires out0 == Shown(a.bound, {})
    ensures cleared == Unbound(dpus, a, true) && empty == Unbound(dpus, a, false)
    ensures out == Shown(a.bound, Names(cleared))
  {
    out, cleared, empty := out0, [], [];
    for i := 0 to |dpus|
      invariant cleared == Unbound(dpus[..i], a, true) && empty == Unbound(dpus[..i], a, false)
      invariant out == Shown(a.bound, Names(cleared))
    {
      UnboundSnoc(dpus, a, true, i);
      UnboundSnoc(dpus, a, false, i);
      if Lookup(out, dpus[i].name).device.Some? {
        continue;
      }
      if HasIdentity(dpus[i].ann) {
        ShownClear(a, cleared, dpus[i]);
        out := out[dpus[i].name := Assignment(None, true)];
        cleared := cleared + [dpus[i]];
      } else {
        empty := empty + [dpus[i]];
      }
    }
    assert dpus[..|dpus|] == dpus;
  }

  method UnusedDevices(live: seq<Device>, used: set<string>) returns (out: seq<Device>)
    ensures out == Unused(live, used)
  {
    out := [];
    for i := 0 to |live|
      invariant out == Unused(live[..i], used)
    {
      assert live[..i + 1][..i] == live[..i];
      if live[i].serial !in used {
        out := out + [live[i]];
      }
    }
    assert live[..|live|] == live;
  }

  method PairLoop(empty: seq<View>, spare: seq<Device>, ghost a: Alloc, ghost cl: set<string>,
                  out0: map<string, Assignment>, used0: set<string>)
    returns (out: map<string, Assignment>, used: set<string>)
    requires out0 == Shown(a.bound, cl) && used0 == a.Used()
    requires forall i :: 0 <= i < |empty| ==> empty[i].name !in cl
    ensures out == Shown(PairUp(empty, spare, Min(|empty|, |spare|), a).bound, cl)
    ensures used == PairUp(empty, spare, Min(|empty|, |spare|), a).Used()
  {
    hide Shown, Give;
    out, used := out0, used0;
    for i := 0 to Min(|empty|, |spare|)
      invariant out == Shown(PairUp(empty, spare, i, a).bound, cl)
      invariant used == PairUp(empty, spare, i, a).Used()
    {
      ShownGive(PairUp(empty, spare, i, a), cl, empty[i].name, spare[i]);
      out := out[empty[i].name := Assignment(Some(spare[i]), false)];
      used := used + {spare[i].serial};
    }
  }

  method StillLoop(cleared: seq<View>, out: map<string, Assignment>, ghost a: Alloc, ghost cl: set<string>)
    returns (still: seq<View>)
    requires out == Shown(a.bound, cl)
    ensures still == StillUnbound(cleared, a)
  {
    still := [];
    for i := 0 to |cleared|
      invariant still == StillUnbound(cleared[..i], a)
    {
      assert cleared[..i + 1][..i] == cleared[..i];
      if Lookup(out, cleared[i].name).device.None? {
        still := still + [cleared[i]];
      }
    }
    assert cleared[..|cleared|] == cleared;
  }

  lemma ClearedNotEmpty(views: seq<View>, live: seq<Device>, n: string)
    requires DistinctNames(views) && NameIn(SortedEmpty(views, live), n)
    ensures n !in Names(Cleared(views, live))
  {
    SortedEmptySpec(views, live);
    var a, e := AfterPci(views, live), SortedEmpty(views, live);
    var i :| 0 <= i < |e| && e[i].name == n;
    assert e[i] in e;
    var j :| 0 <= j < |views| && views[j] == e[i];
    forall v | v in Cleared(views, live) ensures v.name != n {
      UnboundMember(views, a, true, v);
      var k :| 0 <= k < |views| && views[k] == v;
      assert j != k;
      assert views[j].name != views[k].name;
    }
  }

  /** For every DPU name the loops answer what the four passes say. */
  method AssignDevices(dpus: seq<View>, live: seq<Device>) returns (out: map<string, Assignment>)
    requires DistinctNames(dpus)
    ensures forall n :: Lookup(out, n) == AssignmentFor(dpus, live, n)
  {
    var bySerial, byPCI := IndexLive(live);
    var used: set<string>;
    out, used := SerialLoop(dpus, live, bySerial);
    out, used := PciLoop(dpus, live, byPCI, SerialPass(dpus, live), out, used);
    var cleared, empty;
    out, cleared, empty := ClearLoop(dpus, AfterPci(dpus, live), out);
    var spare := UnusedDevices(live, used);
    empty := Sort(empty, (v: View) => v.name);
    spare := Sort(spare, (d: Device) => d.pci);
    ghost var cl := Names(Cleared(dpus, live));
    forall i | 0 <= i < |empty| ensures empty[i].name !in cl {
      assert NameIn(SortedEmpty(dpus, live), empty[i].name);
      ClearedNotEmpty(dpus, live, empty[i].name);
    }
    out, used := PairLoop(empty, spare, AfterPci(dpus, live), cl, out, used);
    spare := UnusedDevices(live, used);
    var still := StillLoop(cleared, out, AfterEmpty(dpus, live), cl);
    FinishedIsAllocation(dpus, live, still, spare, out);
    if |still| == 1 && |spare| == 1 {
      out := out[still[0].name := Assignment(Some(spare[0]), true)];
    }
    ShownIsAssignment(dpus, live);
  }

  lemma FinishedIsAllocation(dpus: seq<View>, live: seq<Device>, still: seq<View>, spare: seq<Device>,
                             out: map<string, Assignment>)
    requires still == StillUnbound(Cleared(dpus, live), AfterEmpty(dpus, live))
    requires spare == Unused(live, AfterEmpty(dpus, live).Used())
    requires out == Shown(AfterEmpty(dpus, live).bound, Names(Cleared(dpus, live)))
    ensures Shown(Allocation(dpus, live).bound, Names(Cleared(dpus, live))) ==
            if |still| == 1 && |spare| == 1 then out[still[0].name := Assignment(Some(spare[0]), true)] else out
  {
    if |still| == 1 && |spare| == 1 {
      assert still[0] in still;
      StillUnboundMember(Cleared(dpus, live), AfterEmpty(dpus, live), still[0]);
      ShownRebind(AfterEmpty(dpus, live), Names(Cleared(dpus, live)), still[0].name, spare[0]);
    }
  }

  lemma ShownRebind(a: Alloc, cl: set<string>, name: string, d: Device)
    requires name in cl
    ensures Shown(Give(a, name, d).bound, cl) == Shown(a.bound, cl)[name := Assignment(Some(d), true)]
  {
  }

  lemma ShownIsAssignment(dpus: seq<View>, live: seq<Device>)
    ensures forall n :: Lookup(Shown(Allocation(dpus, live).bound, Names(Cleared(dpus, live))), n) ==
                        AssignmentFor(dpus, live, n)
  {
    var c := Cleared(dpus, live);
    forall n ensures n in Names(c) <==> NameIn(c, n) {
      if n in Names(c) {
        var v :| v in c && v.name == n;
        var i :| 0 <= i < |c| && c[i] == v;
        assert c[i].name == n;
      }
    }
  }
}
