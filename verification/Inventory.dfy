/** Matching DataProcessingUnit records to the DPU cards on a node's PCI bus
    (pkg/discovery/inventory.go, types.go). */
module Inventory {
  import opened Text
  import opened Sorting

  datatype Vendor = Nvidia | Amd | Marvell | OtherVendor(id: nat)

  /** Annotation keys. Each vendor spells the serial and firmware keys its own
      way; the PCI address and product name keys are shared. */
  datatype Key =
    | SerialKey(vendor: Vendor)
    | PciAddressKey
    | ProductNameKey
    | FirmwareUrlKey(vendor: Vendor)
    | FlavorKey(vendor: Vendor)
    | FirmwareNameKey(vendor: Vendor)
    | OtherKey(name: string)

  type Annotations = map<Key, string>

  datatype Device = Device(pci: string, vendor: Vendor, serial: string, product: string)

  datatype View = View(name: string, ann: Annotations)

  /** What one reconcile does to one DPU: `device` is the card it is bound to. */
  datatype Assignment = Assignment(device: Option<Device>, clear: bool)

  const UNASSIGNED := Assignment(None, false)

  predicate KnownVendor(v: Vendor) {
    v == Nvidia || v == Amd || v == Marvell
  }

  predicate IsIdentityKey(k: Key) {
    (k.SerialKey? && KnownVendor(k.vendor)) || k == PciAddressKey || k == ProductNameKey
  }

  function At(ann: Annotations, k: Key): string {
    if k in ann then ann[k] else ""
  }

  /** Go ranges over the vendor table in random order; the order is fixed here,
      which is the same thing while at most one vendor's serial key is set. */
  function ClaimedSerial(ann: Annotations): string {
    var n, a, m := Trim(At(ann, SerialKey(Nvidia))), Trim(At(ann, SerialKey(Amd))), Trim(At(ann, SerialKey(Marvell)));
    if n != "" then n else if a != "" then a else m
  }

  function ClaimedPCI(ann: Annotations): string {
    Trim(At(ann, PciAddressKey))
  }

  predicate HasIdentity(ann: Annotations) {
    ClaimedSerial(ann) != "" || ClaimedPCI(ann) != "" || Trim(At(ann, ProductNameKey)) != ""
  }

  function StripIdentity(ann: Annotations): Annotations {
    map k | k in ann && !IsIdentityKey(k) :: ann[k]
  }

  /** The identity part of a DPU's annotations. */
  function Stamp(ann: Annotations): Annotations {
    map k | k in ann && IsIdentityKey(k) :: ann[k]
  }

  function Dashed(s: string): string {
    if s == [] then [] else [if s[0] == ':' then '-' else s[0]] + Dashed(s[1..])
  }

  function CutLastDot(s: string): string {
    if '.' !in s then s else if s[|s| - 1] == '.' then s[..|s| - 1] else CutLastDot(s[..|s| - 1])
  }

  /** 0000:0f:00.0 becomes 0000-0f-00. */
  function DpfPciAddress(pci: string): string {
    CutLastDot(Dashed(Trim(pci)))
  }

  predicate ValidIdentity(d: Device) {
    Trim(d.pci) != "" && Trim(d.serial) != ""
  }

  function IdentityAnnotations(d: Device): Option<Annotations> {
    if !ValidIdentity(d) || !KnownVendor(d.vendor) then None
    else
      var base := map[SerialKey(d.vendor) := d.serial, ProductNameKey := d.product];
      Some(if d.vendor == Nvidia && DpfPciAddress(d.pci) != ""
           then base[PciAddressKey := DpfPciAddress(d.pci)] else base)
  }

  /** The bus as `Enumerate` and `LiveDevices` deliver it: valid, trimmed,
      pairwise distinct serials, known vendors, product names from the table. */
  ghost predicate LiveBus(live: seq<Device>) {
    && (forall i :: 0 <= i < |live| ==>
          && ValidIdentity(live[i]) && KnownVendor(live[i].vendor)
          && Trim(live[i].serial) == live[i].serial
          && live[i].product != "")
    && DistinctSerials(live)
  }

  ghost predicate DistinctSerials(live: seq<Device>) {
    forall i, j :: 0 <= i < j < |live| ==> live[i].serial != live[j].serial
  }

  ghost predicate DistinctNames(views: seq<View>) {
    forall i, j :: 0 <= i < j < |views| ==> views[i].name != views[j].name
  }

  // ----- The two lookup tables -----

  function BySerial(live: seq<Device>, s: string): (r: Option<Device>)
    ensures r.Some? ==> r.value in live && r.value.serial == s
  {
    if live == [] then None
    else if live[|live| - 1].serial == s then Some(live[|live| - 1])
    else BySerial(live[..|live| - 1], s)
  }

  predicate AnswersTo(d: Device, p: string) {
    d.pci == p || (DpfPciAddress(d.pci) != "" && DpfPciAddress(d.pci) == p)
  }

  function ByPCI(live: seq<Device>, p: string): (r: Option<Device>)
    ensures r.Some? ==> r.value in live
  {
    if live == [] then None
    else if AnswersTo(live[|live| - 1], p) then Some(live[|live| - 1])
    else ByPCI(live[..|live| - 1], p)
  }

  // ----- The four passes as functions -----

  /** Cards handed out so far: DPU name to card, and taken serial to DPU name. */
  datatype Alloc = Alloc(bound: map<string, Device>, holder: map<string, string>) {
    function Used(): set<string> { holder.Keys }
  }

  const NOTHING := Alloc(map[], map[])

  function Give(a: Alloc, name: string, d: Device): Alloc {
    Alloc(a.bound[name := d], a.holder[d.serial := name])
  }

  function Offer(a: Alloc, name: string, d: Option<Device>): Alloc {
    if d.Some? && d.value.serial !in a.holder then Give(a, name, d.value) else a
  }

  function SerialWish(v: View, live: seq<Device>): Option<Device> {
    if ClaimedSerial(v.ann) == "" then None else BySerial(live, ClaimedSerial(v.ann))
  }

  function PciWish(v: View, live: seq<Device>): Option<Device> {
    if ClaimedPCI(v.ann) == "" then None else ByPCI(live, ClaimedPCI(v.ann))
  }

  function SerialPass(views: seq<View>, live: seq<Device>): Alloc {
    if views == [] then NOTHING
    else
      var v := views[|views| - 1];
      Offer(SerialPass(views[..|views| - 1], live), v.name, SerialWish(v, live))
  }

  function PciPass(views: seq<View>, live: seq<Device>, start: Alloc): Alloc {
    if views == [] then start
    else
      var v := views[|views| - 1];
      var a := PciPass(views[..|views| - 1], live, start);
      if v.name in a.bound then a else Offer(a, v.name, PciWish(v, live))
  }

  /** The views without a card, with (`stamped`) or without an identity. */
  function Unbound(views: seq<View>, a: Alloc, stamped: bool): seq<View> {
    if views == [] then []
    else
      var v := views[|views| - 1];
      Unbound(views[..|views| - 1], a, stamped) +
      (if v.name !in a.bound && HasIdentity(v.ann) == stamped then [v] else [])
  }

  function Unused(live: seq<Device>, used: set<string>): seq<Device> {
    if live == [] then []
    else
      var d := live[|live| - 1];
      Unused(live[..|live| - 1], used) + (if d.serial !in used then [d] else [])
  }

  /** Give the i-th card to the i-th DPU, for the first n of each. */
  function PairUp(empty: seq<View>, cards: seq<Device>, n: nat, a: Alloc): Alloc
    requires n <= |empty| && n <= |cards|
  {
    if n == 0 then a else Give(PairUp(empty, cards, n - 1, a), empty[n - 1].name, cards[n - 1])
  }

  function Min(a: nat, b: nat): nat {
    if a < b then a else b
  }

  function AfterPci(views: seq<View>, live: seq<Device>): Alloc {
    PciPass(views, live, SerialPass(views, live))
  }

  function SortedEmpty(views: seq<View>, live: seq<Device>): seq<View> {
    Sort(Unbound(views, AfterPci(views, live), false), (v: View) => v.name)
  }

  function SortedSpare(views: seq<View>, live: seq<Device>): seq<Device> {
    Sort(Unused(live, AfterPci(views, live).Used()), (d: Device) => d.pci)
  }

  function AfterEmpty(views: seq<View>, live: seq<Device>): Alloc {
    var empty, spare := SortedEmpty(views, live), SortedSpare(views, live);
    PairUp(empty, spare, Min(|empty|, |spare|), AfterPci(views, live))
  }

  function StillUnbound(cleared: seq<View>, a: Alloc): seq<View> {
    if cleared == [] then []
    else
      var v := cleared[|cleared| - 1];
      StillUnbound(cleared[..|cleared| - 1], a) + (if v.name !in a.bound then [v] else [])
  }

  function Cleared(views: seq<View>, live: seq<Device>): seq<View> {
    Unbound(views, AfterPci(views, live), true)
  }

  function Allocation(views: seq<View>, live: seq<Device>): Alloc {
    var a := AfterEmpty(views, live);
    var still, spare := StillUnbound(Cleared(views, live), a), Unused(live, a.Used());
    if |still| == 1 && |spare| == 1 then Give(a, still[0].name, spare[0]) else a
  }

  predicate NameIn(views: seq<View>, name: string) {
    exists i :: 0 <= i < |views| && views[i].name == name
  }

  /** What the match says about one DPU. */
  function AssignmentFor(views: seq<View>, live: seq<Device>, name: string): Assignment {
    var a := Allocation(views, live);
    Assignment(if name in a.bound then Some(a.bound[name]) else None,
               NameIn(Cleared(views, live), name))
  }

  // ----- Properties of a match -----

  ghost predicate IsLiveSerial(live: seq<Device>, s: string) {
    exists i :: 0 <= i < |live| && live[i].serial == s
  }

  /** No card twice, only live cards, and `holder` is who has which. */
  ghost predicate SoundAlloc(a: Alloc, live: seq<Device>) {
    && (forall n :: n in a.bound ==> a.bound[n] in live)
    && (forall n :: n in a.bound ==> a.bound[n].serial in a.holder && a.holder[a.bound[n].serial] == n)
    && (forall s :: s in a.holder ==> a.holder[s] in a.bound && a.bound[a.holder[s]].serial == s)
    && |a.bound| == |a.holder|
  }

  /** `b` hands out what `a` did and otherwise only cards `a` left. */
  ghost predicate Extends(a: Alloc, b: Alloc) {
    && a.holder.Keys <= b.holder.Keys
    && (forall n :: n in a.bound ==> n in b.bound && b.bound[n] == a.bound[n])
    && (forall n :: n in b.bound && n !in a.bound ==> b.bound[n].serial !in a.holder)
  }

  lemma GiveSound(a: Alloc, live: seq<Device>, name: string, d: Device)
    requires SoundAlloc(a, live) && name !in a.bound && d.serial !in a.holder && d in live
    ensures SoundAlloc(Give(a, name, d), live)
    ensures Extends(a, Give(a, name, d))
  {
    var b := Give(a, name, d);
    assert b.bound.Keys == a.bound.Keys + {name};
    assert b.holder.Keys == a.holder.Keys + {d.serial};
    forall n | n in b.bound
      ensures b.bound[n] in live && b.bound[n].serial in b.holder && b.holder[b.bound[n].serial] == n
    {
      if n != name { assert n in a.bound; }
    }
    forall s | s in b.holder ensures b.holder[s] in b.bound && b.bound[b.holder[s]].serial == s {
      if s != d.serial { assert s in a.holder; }
    }
  }

  lemma ExtendsTransitive(a: Alloc, b: Alloc, c: Alloc)
    requires Extends(a, b) && Extends(b, c)
    ensures Extends(a, c)
  {
  }

  lemma {:induction false} BySerialFinds(live: seq<Device>, s: string)
    ensures BySerial(live, s).Some? <==> IsLiveSerial(live, s)
  {
    if live != [] {
      var front := live[..|live| - 1];
      BySerialFinds(front, s);
      if IsLiveSerial(live, s) && live[|live| - 1].serial != s {
        var i :| 0 <= i < |live| && live[i].serial == s;
        assert front[i].serial == s;
      }
      if IsLiveSerial(front, s) {
        var i :| 0 <= i < |front| && front[i].serial == s;
        assert live[i].serial == s;
      }
    }
  }

  /** Some listed DPU claims this serial. */
  ghost predicate Claimed(views: seq<View>, s: string) {
    exists j :: 0 <= j < |views| && ClaimedSerial(views[j].ann) == s
  }

  ghost predicate ClaimsLive(v: View, live: seq<Device>) {
    ClaimedSerial(v.ann) != "" && IsLiveSerial(live, ClaimedSerial(v.ann))
  }

  /** View j is the first of the list to claim its serial. */
  ghost predicate FirstClaimant(views: seq<View>, j: nat)
    requires j < |views|
  {
    !Claimed(views[..j], ClaimedSerial(views[j].ann))
  }

  lemma ClaimedSnoc(views: seq<View>, s: string)
    requires views != []
    ensures Claimed(views, s) <==>
              Claimed(views[..|views| - 1], s) || ClaimedSerial(views[|views| - 1].ann) == s
  {
    var front := views[..|views| - 1];
    if Claimed(front, s) {
      var j :| 0 <= j < |front| && ClaimedSerial(front[j].ann) == s;
      assert ClaimedSerial(views[j].ann) == s;
    }
    if Claimed(views, s) && ClaimedSerial(views[|views| - 1].ann) != s {
      var j :| 0 <= j < |views| && ClaimedSerial(views[j].ann) == s;
      assert ClaimedSerial(front[j].ann) == s;
    }
  }

  lemma NameInSnoc(views: seq<View>, n: string)
    requires views != []
    ensures NameIn(views, n) <==> NameIn(views[..|views| - 1], n) || views[|views| - 1].name == n
  {
    var front := views[..|views| - 1];
    if NameIn(front, n) {
      var j :| 0 <= j < |front| && front[j].name == n;
      assert views[j].name == n;
    }
    if NameIn(views, n) && views[|views| - 1].name != n {
      var j :| 0 <= j < |views| && views[j].name == n;
      assert front[j].name == n;
    }
  }

  /** The serial pass uses exactly the live serials somebody claims. */
  lemma {:induction false} SerialPassUses(views: seq<View>, live: seq<Device>, s: string)
    ensures s in SerialPass(views, live).holder <==> s != "" && IsLiveSerial(live, s) && Claimed(views, s)
  {
    if views != [] {
      var v := views[|views| - 1];
      SerialPassUses(views[..|views| - 1], live, s);
      ClaimedSnoc(views, s);
      BySerialFinds(live, ClaimedSerial(v.ann));
    }
  }

  lemma {:induction false} SerialPassNames(views: seq<View>, live: seq<Device>, n: string)
    requires n in SerialPass(views, live).bound
    ensures NameIn(views, n)
  {
    NameInSnoc(views, n);
    if n in SerialPass(views[..|views| - 1], live).bound {
      SerialPassNames(views[..|views| - 1], live, n);
    }
  }

  lemma LastIsFresh(views: seq<View>, live: seq<Device>)
    requires DistinctNames(views) && views != []
    ensures views[|views| - 1].name !in SerialPass(views[..|views| - 1], live).bound
  {
    var front, v := views[..|views| - 1], views[|views| - 1];
    if v.name in SerialPass(front, live).bound {
      SerialPassNames(front, live, v.name);
    }
  }

  lemma {:induction false} SerialPassSound(views: seq<View>, live: seq<Device>)
    requires DistinctNames(views)
    ensures SoundAlloc(SerialPass(views, live), live)
  {
    if views != [] {
      var front, v := views[..|views| - 1], views[|views| - 1];
      SerialPassSound(front, live);
      LastIsFresh(views, live);
      var a, wish := SerialPass(front, live), SerialWish(v, live);
      if wish.Some? && wish.value.serial !in a.holder {
        GiveSound(a, live, v.name, wish.value);
      }
    }
  }

  /** The serial pass gives a claimed live card to its first claimant and to nobody else. */
  lemma {:induction false} SerialPassFirst(views: seq<View>, live: seq<Device>, j: nat)
    requires DistinctNames(views) && j < |views|
    ensures views[j].name in SerialPass(views, live).bound <==>
              ClaimsLive(views[j], live) && FirstClaimant(views, j)
    ensures views[j].name in SerialPass(views, live).bound ==>
              SerialPass(views, live).bound[views[j].name].serial == ClaimedSerial(views[j].ann)
  {
    var front := views[..|views| - 1];
    if j < |front| {
      SerialPassFirst(front, live, j);
      assert front[..j] == views[..j];
      assert views[j].name != views[|views| - 1].name;
    } else {
      SerialPassUses(front, live, ClaimedSerial(views[j].ann));
      BySerialFinds(live, ClaimedSerial(views[j].ann));
      LastIsFresh(views, live);
    }
  }

  lemma {:induction false} PciPassSpec(views: seq<View>, live: seq<Device>, start: Alloc)
    requires SoundAlloc(start, live)
    ensures SoundAlloc(PciPass(views, live, start), live)
    ensures Extends(start, PciPass(views, live, start))
  {
    if views != [] {
      var v := views[|views| - 1];
      var a := PciPass(views[..|views| - 1], live, start);
      PciPassSpec(views[..|views| - 1], live, start);
      var wish := PciWish(v, live);
      if v.name !in a.bound && wish.Some? && wish.value.serial !in a.holder {
        GiveSound(a, live, v.name, wish.value);
      }
    }
  }

  lemma {:induction false} PciPassNames(views: seq<View>, live: seq<Device>, start: Alloc, n: string)
    requires n in PciPass(views, live, start).bound
    ensures n in start.bound || NameIn(views, n)
  {
    if views != [] {
      NameInSnoc(views, n);
      if n in PciPass(views[..|views| - 1], live, start).bound {
        PciPassNames(views[..|views| - 1], live, start, n);
      }
    }
  }

  /** The unbound views are exactly the listed ones without a card. */
  lemma {:induction false} UnboundMember(views: seq<View>, a: Alloc, stamped: bool, v: View)
    ensures v in Unbound(views, a, stamped) <==>
              v in views && v.name !in a.bound && HasIdentity(v.ann) == stamped
  {
    if views != [] {
      UnboundMember(views[..|views| - 1], a, stamped, v);
      assert views == views[..|views| - 1] + [views[|views| - 1]];
    }
  }

  lemma {:induction false} UnboundDistinct(views: seq<View>, a: Alloc, stamped: bool)
    requires DistinctNames(views)
    ensures DistinctNames(Unbound(views, a, stamped))
  {
    if views != [] {
      var front, v := views[..|views| - 1], views[|views| - 1];
      assert DistinctNames(front);
      UnboundDistinct(front, a, stamped);
      var u := Unbound(front, a, stamped);
      forall i | 0 <= i < |u| ensures u[i].name != v.name {
        UnboundMember(front, a, stamped, u[i]);
        var k :| 0 <= k < |front| && front[k] == u[i];
        assert views[k].name == u[i].name;
      }
    }
  }

  lemma {:induction false} UnusedMember(live: seq<Device>, used: set<string>, d: Device)
    ensures d in Unused(live, used) <==> d in live && d.serial !in used
  {
    if live != [] {
      UnusedMember(live[..|live| - 1], used, d);
      assert live == live[..|live| - 1] + [live[|live| - 1]];
    }
  }

  lemma {:induction false} UnusedDistinct(live: seq<Device>, used: set<string>)
    requires DistinctSerials(live)
    ensures DistinctSerials(Unused(live, used))
  {
    if live != [] {
      var front, d := live[..|live| - 1], live[|live| - 1];
      assert DistinctSerials(front);
      UnusedDistinct(front, used);
      var u := Unused(front, used);
      forall i | 0 <= i < |u| ensures u[i].serial != d.serial {
        UnusedMember(front, used, u[i]);
        var k :| 0 <= k < |front| && front[k] == u[i];
        assert live[k].serial == u[i].serial;
      }
    }
  }

  /** DPUs without a card and live cards nobody has. */
  ghost predicate Free(empty: seq<View>, cards: seq<Device>, a: Alloc, live: seq<Device>) {
    && (forall i :: 0 <= i < |empty| ==> empty[i].name !in a.bound)
    && (forall i :: 0 <= i < |cards| ==> cards[i] in live && cards[i].serial !in a.holder)
  }

  lemma PairUpFresh(empty: seq<View>, cards: seq<Device>, n: nat, a: Alloc)
    requires n < |empty| && n < |cards|
    requires DistinctNames(empty) && DistinctSerials(cards)
    requires empty[n].name !in a.bound && cards[n].serial !in a.holder
    ensures empty[n].name !in PairUp(empty, cards, n, a).bound
    ensures cards[n].serial !in PairUp(empty, cards, n, a).holder
  {
    PairUpBound(empty, cards, n, a, empty[n].name);
    PairUpUsed(empty, cards, n, a, cards[n].serial);
  }

  lemma {:induction false} PairUpSound(empty: seq<View>, cards: seq<Device>, n: nat, a: Alloc, live: seq<Device>)
    requires n <= |empty| && n <= |cards|
    requires SoundAlloc(a, live)
    requires DistinctNames(empty) && DistinctSerials(cards)
    requires Free(empty, cards, a, live)
    ensures SoundAlloc(PairUp(empty, cards, n, a), live)
  {
    if n > 0 {
      var b := PairUp(empty, cards, n - 1, a);
      assert SoundAlloc(b, live) by { PairUpSound(empty, cards, n - 1, a, live); }
      assert empty[n - 1].name !in b.bound && cards[n - 1].serial !in b.holder by { PairUpFresh(empty, cards, n - 1, a); }
      GiveSound(b, live, empty[n - 1].name, cards[n - 1]);
    }
  }

  lemma {:induction false} PairUpExtends(empty: seq<View>, cards: seq<Device>, n: nat, a: Alloc, live: seq<Device>)
    requires n <= |empty| && n <= |cards|
    requires DistinctNames(empty) && DistinctSerials(cards)
    requires Free(empty, cards, a, live)
    ensures Extends(a, PairUp(empty, cards, n, a))
  {
    if n > 0 {
      PairUpExtends(empty, cards, n - 1, a, live);
      PairUpFresh(empty, cards, n - 1, a);
    }
  }

  lemma {:induction false} PairUpBound(empty: seq<View>, cards: seq<Device>, n: nat, a: Alloc, m: string)
    requires n <= |empty| && n <= |cards|
    ensures m in PairUp(empty, cards, n, a).bound <==> m in a.bound || NameIn(empty[..n], m)
  {
    if n > 0 {
      PairUpBound(empty, cards, n - 1, a, m);
      NameInSnoc(empty[..n], m);
      assert empty[..n][..n - 1] == empty[..n - 1];
    }
  }

  lemma {:induction false} PairUpUsed(empty: seq<View>, cards: seq<Device>, n: nat, a: Alloc, s: string)
    requires n <= |empty| && n <= |cards|
    ensures s in PairUp(empty, cards, n, a).holder <==>
              s in a.holder || (exists i :: 0 <= i < n && cards[i].serial == s)
  {
    if n > 0 {
      PairUpUsed(empty, cards, n - 1, a, s);
    }
  }

  lemma SortedEmptySpec(views: seq<View>, live: seq<Device>)
    requires DistinctNames(views)
    ensures DistinctNames(SortedEmpty(views, live))
    ensures forall v :: v in SortedEmpty(views, live) <==>
              v in views && v.name !in AfterPci(views, live).bound && !HasIdentity(v.ann)
  {
    var a := AfterPci(views, live);
    var u := Unbound(views, a, false);
    UnboundDistinct(views, a, false);
    assert DistinctBy(u, (v: View) => v.name);
    SortPermutes(u, (v: View) => v.name);
    SortDistinct(u, (v: View) => v.name, (v: View) => v.name);
    var e := SortedEmpty(views, live);
    forall i, j | 0 <= i < j < |e| ensures e[i].name != e[j].name {
    }
    forall v ensures v in e <==> v in views && v.name !in a.bound && !HasIdentity(v.ann) {
      UnboundMember(views, a, false, v);
      assert v in e <==> v in multiset(e);
      assert v in u <==> v in multiset(u);
    }
  }

  lemma SortedSpareSpec(views: seq<View>, live: seq<Device>)
    requires DistinctSerials(live)
    ensures DistinctSerials(SortedSpare(views, live))
    ensures forall d :: d in SortedSpare(views, live) <==>
              d in live && d.serial !in AfterPci(views, live).holder
  {
    var used := AfterPci(views, live).Used();
    var u := Unused(live, used);
    UnusedDistinct(live, used);
    assert DistinctBy(u, (d: Device) => d.serial);
    SortPermutes(u, (d: Device) => d.pci);
    SortDistinct(u, (d: Device) => d.pci, (d: Device) => d.serial);
    var e := SortedSpare(views, live);
    forall i, j | 0 <= i < j < |e| ensures e[i].serial != e[j].serial {
    }
    forall d ensures d in e <==> d in live && d.serial !in used {
      UnusedMember(live, used, d);
      assert d in e <==> d in multiset(e);
      assert d in u <==> d in multiset(u);
    }
  }

  lemma AfterPciSpec(views: seq<View>, live: seq<Device>)
    requires DistinctNames(views)
    ensures SoundAlloc(AfterPci(views, live), live)
    ensures Extends(SerialPass(views, live), AfterPci(views, live))
    ensures forall n :: n in AfterPci(views, live).bound ==> NameIn(views, n)
  {
    var a := SerialPass(views, live);
    SerialPassSound(views, live);
    PciPassSpec(views, live, a);
    forall n | n in AfterPci(views, live).bound ensures NameIn(views, n) {
      PciPassNames(views, live, a, n);
      if n in a.bound { SerialPassNames(views, live, n); }
    }
  }

  lemma AfterEmptySpec(views: seq<View>, live: seq<Device>)
    requires DistinctNames(views) && DistinctSerials(live)
    ensures SoundAlloc(AfterEmpty(views, live), live)
    ensures Extends(AfterPci(views, live), AfterEmpty(views, live))
    ensures forall n :: n in AfterEmpty(views, live).bound && n !in AfterPci(views, live).bound ==>
              NameIn(SortedEmpty(views, live), n)
  {
    hide AfterPci, SortedEmpty, SortedSpare, HasIdentity, PairUp, SoundAlloc, Extends;
    var a, empty, spare := AfterPci(views, live), SortedEmpty(views, live), SortedSpare(views, live);
    AfterPciSpec(views, live);
    SortedEmptySpec(views, live);
    SortedSpareSpec(views, live);
    assert Free(empty, spare, a, live) by {
      assert forall i :: 0 <= i < |empty| ==> empty[i] in empty;
      assert forall i :: 0 <= i < |spare| ==> spare[i] in spare;
    }
    var n := Min(|empty|, |spare|);
    PairUpSound(empty, spare, n, a, live);
    PairUpExtends(empty, spare, n, a, live);
    forall m | m in AfterEmpty(views, live).bound && m !in a.bound ensures NameIn(empty, m) {
      PairUpBound(empty, spare, n, a, m);
      var i :| 0 <= i < n && empty[..n][i].name == m;
      assert empty[i].name == m;
    }
  }

  lemma {:induction false} StillUnboundMember(cleared: seq<View>, a: Alloc, v: View)
    ensures v in StillUnbound(cleared, a) <==> v in cleared && v.name !in a.bound
  {
    if cleared != [] {
      StillUnboundMember(cleared[..|cleared| - 1], a, v);
      assert cleared == cleared[..|cleared| - 1] + [cleared[|cleared| - 1]];
    }
  }

  /** The whole match: no card twice, live cards only, and serial claims come first. */
  lemma AllocationSound(views: seq<View>, live: seq<Device>)
    requires DistinctNames(views) && DistinctSerials(live)
    ensures SoundAlloc(Allocation(views, live), live)
    ensures Extends(AfterEmpty(views, live), Allocation(views, live))
  {
    AfterEmptySpec(views, live);
    var a := AfterEmpty(views, live);
    var still, spare := StillUnbound(Cleared(views, live), a), Unused(live, a.Used());
    if |still| == 1 && |spare| == 1 {
      StillUnboundMember(Cleared(views, live), a, still[0]);
      UnusedMember(live, a.Used(), spare[0]);
      assert still[0] in still && spare[0] in spare;
      GiveSound(a, live, still[0].name, spare[0]);
    }
  }
}
