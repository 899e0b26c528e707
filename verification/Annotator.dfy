/** The node annotator as an asynchronous protocol: each reconcile recomputes the
    whole match but patches one DPU (pkg/discovery/annotator.go). */
module Annotator {
  import opened Text
  import opened Inventory

  /** Operator-supplied values; empty ones are not written. */
  datatype Firmware = Firmware(url: string, flavor: string, name: string)

  /** The identity-bearing annotations of every DPU this annotator serves. */
  type State = map<string, Annotations>

  function FirmwareFor(fw: Firmware, v: Vendor): Annotations {
    if !KnownVendor(v) then map[]
    else
      (if fw.url != "" then map[FirmwareUrlKey(v) := fw.url] else map[]) +
      (if fw.flavor != "" then map[FlavorKey(v) := fw.flavor] else map[]) +
      (if fw.name != "" then map[FirmwareNameKey(v) := fw.name] else map[])
  }

  /** None models the error return: the reconcile gives up without a patch. */
  function DesiredAnnotations(have: Annotations, asg: Assignment, fw: Firmware): Option<Annotations> {
    var kept := if asg.clear || asg.device.Some? then StripIdentity(have) else have;
    match asg.device
    case None => Some(kept)
    case Some(d) =>
      match IdentityAnnotations(d)
      case None => None
      case Some(ident) => Some(kept + ident + FirmwareFor(fw, d.vendor))
  }

  /** Go's comparison: equal lengths and every desired entry read back, where a
      missing entry reads as the empty string. */
  predicate AnnotationsEqual(have: Annotations, desired: Annotations) {
    if |have| != |desired| then |have| == 0 && |desired| == 0
    else forall k :: k in desired ==> At(have, k) == desired[k]
  }

  ghost predicate Enumerates(order: seq<string>, names: set<string>) {
    && (forall i, j :: 0 <= i < j < |order| ==> order[i] != order[j])
    && (forall n :: n in order <==> n in names)
  }

  function ViewsOf(st: State, order: seq<string>): seq<View>
    requires forall n :: n in order ==> n in st
  {
    seq(|order|, i requires 0 <= i < |order| => View(order[i], st[order[i]]))
  }

  /** One reconcile of `n`, with the DPUs listed in `order`. */
  function Step(st: State, order: seq<string>, live: seq<Device>, fw: Firmware, n: string): State
    requires n in st && forall m :: m in order ==> m in st
  {
    var asg := AssignmentFor(ViewsOf(st, order), live, n);
    match DesiredAnnotations(st[n], asg, fw)
    case None => st
    case Some(want) => if AnnotationsEqual(st[n], want) then st else st[n := want]
  }

  // ----- One DPU's annotations -----

  lemma StampDecides(a: Annotations, b: Annotations)
    requires Stamp(a) == Stamp(b)
    ensures ClaimedSerial(a) == ClaimedSerial(b) && ClaimedPCI(a) == ClaimedPCI(b)
    ensures HasIdentity(a) == HasIdentity(b)
  {
    forall k | IsIdentityKey(k) ensures At(a, k) == At(b, k) {
      assert k in a <==> k in Stamp(a);
      assert k in b <==> k in Stamp(b);
    }
    assert IsIdentityKey(SerialKey(Nvidia)) && IsIdentityKey(SerialKey(Amd)) && IsIdentityKey(SerialKey(Marvell));
    assert IsIdentityKey(PciAddressKey) && IsIdentityKey(ProductNameKey);
  }

  lemma StrippedIsEmpty(a: Annotations)
    requires Stamp(a) == map[]
    ensures ClaimedSerial(a) == "" && !HasIdentity(a)
  {
    StampDecides(a, map[]);
    assert Trim("") == "";
  }

  /** `a` carries exactly the stamp of live card i. */
  ghost predicate StampedAs(a: Annotations, live: seq<Device>, i: int) {
    && 0 <= i < |live|
    && IdentityAnnotations(live[i]).Some?
    && Stamp(a) == IdentityAnnotations(live[i]).value
  }

  ghost predicate Exact(a: Annotations, live: seq<Device>) {
    exists i :: StampedAs(a, live, i)
  }

  lemma StampedClaims(a: Annotations, live: seq<Device>, i: int)
    requires LiveBus(live) && StampedAs(a, live, i)
    ensures ClaimedSerial(a) == live[i].serial && live[i].serial != ""
    ensures HasIdentity(a)
  {
    var d := live[i];
    assert Trim(d.serial) == d.serial;
    var ident := IdentityAnnotations(d).value;
    forall k | IsIdentityKey(k) ensures At(a, k) == At(ident, k) {
      assert k in a <==> k in Stamp(a);
    }
    assert IsIdentityKey(SerialKey(Nvidia)) && IsIdentityKey(SerialKey(Amd)) && IsIdentityKey(SerialKey(Marvell));
    assert Trim("") == "";
  }

  lemma IdentityIsIdentity(live: seq<Device>, i: int)
    requires LiveBus(live) && 0 <= i < |live|
    ensures IdentityAnnotations(live[i]).Some?
    ensures forall k :: k in IdentityAnnotations(live[i]).value ==>
              IsIdentityKey(k) && IdentityAnnotations(live[i]).value[k] != ""
  {
    var d := live[i];
    assert Trim(d.serial) != "";
  }

  lemma FirmwareIsNotIdentity(fw: Firmware, v: Vendor)
    ensures forall k :: k in FirmwareFor(fw, v) ==> !IsIdentityKey(k) && FirmwareFor(fw, v)[k] != ""
  {
  }

  lemma OverlaidStamp(have: Annotations, ident: Annotations, extra: Annotations)
    requires forall k :: k in ident ==> IsIdentityKey(k)
    requires forall k :: k in extra ==> !IsIdentityKey(k)
    ensures Stamp(StripIdentity(have) + ident + extra) == ident
  {
  }

  lemma BoundStamp(have: Annotations, asg: Assignment, fw: Firmware, live: seq<Device>, i: int)
    requires LiveBus(live) && 0 <= i < |live| && asg.device == Some(live[i])
    ensures DesiredAnnotations(have, asg, fw).Some?
    ensures StampedAs(DesiredAnnotations(have, asg, fw).value, live, i)
  {
    IdentityIsIdentity(live, i);
    FirmwareIsNotIdentity(fw, live[i].vendor);
    OverlaidStamp(have, IdentityAnnotations(live[i]).value, FirmwareFor(fw, live[i].vendor));
  }

  lemma ClearedStamp(have: Annotations, fw: Firmware)
    ensures Stamp(DesiredAnnotations(have, Assignment(None, true), fw).value) == map[]
  {
  }

  lemma SameSizeSubmap(small: Annotations, big: Annotations)
    requires |small| == |big|
    requires forall k :: k in small ==> k in big && small[k] == big[k]
    ensures small == big
  {
    assert small.Keys <= big.Keys;
    assert |big.Keys - small.Keys| == |big.Keys| - |small.Keys|;
  }

  lemma ReadsBackAll(have: Annotations, want: Annotations)
    requires AnnotationsEqual(have, want)
    requires forall k :: k in want && k !in have ==> want[k] != ""
    ensures have == want
  {
    if |have| == |want| {
      forall k | k in want ensures k in have && have[k] == want[k] {
      }
      SameSizeSubmap(want, have);
    }
  }

  lemma NewEntriesAreNotEmpty(have: Annotations, asg: Assignment, fw: Firmware, live: seq<Device>)
    requires LiveBus(live)
    requires asg.device.Some? ==> asg.device.value in live
    requires DesiredAnnotations(have, asg, fw).Some?
    ensures var want := DesiredAnnotations(have, asg, fw).value;
            forall k :: k in want && k !in have ==> want[k] != ""
  {
    var want := DesiredAnnotations(have, asg, fw).value;
    if asg.device.Some? {
      var i :| 0 <= i < |live| && live[i] == asg.device.value;
      var ident, extra := IdentityAnnotations(live[i]).value, FirmwareFor(fw, live[i].vendor);
      IdentityIsIdentity(live, i);
      FirmwareIsNotIdentity(fw, live[i].vendor);
      assert want == StripIdentity(have) + ident + extra;
      forall k | k in want && k !in have ensures want[k] != "" {
        assert k in extra || k in ident;
      }
    }
  }

  /** When Go skips the patch the desired annotations are the stored ones. */
  lemma SkippedPatchIsNoChange(have: Annotations, asg: Assignment, fw: Firmware, live: seq<Device>)
    requires LiveBus(live)
    requires asg.device.Some? ==> asg.device.value in live
    requires DesiredAnnotations(have, asg, fw).Some?
    requires AnnotationsEqual(have, DesiredAnnotations(have, asg, fw).value)
    ensures have == DesiredAnnotations(have, asg, fw).value
  {
    NewEntriesAreNotEmpty(have, asg, fw, live);
    ReadsBackAll(have, DesiredAnnotations(have, asg, fw).value);
  }

  /** Beside the identity and the firmware keys it writes, a reconcile keeps every annotation. */
  lemma DesiredKeepsTheRest(have: Annotations, asg: Assignment, fw: Firmware, k: Key)
    requires DesiredAnnotations(have, asg, fw).Some? && !IsIdentityKey(k)
    requires !k.FirmwareUrlKey? && !k.FlavorKey? && !k.FirmwareNameKey?
    ensures var want := DesiredAnnotations(have, asg, fw).value;
            (k in want <==> k in have) && (k in have ==> want[k] == have[k])
  {
    if asg.device.Some? {
      var d := asg.device.value;
      assert k !in IdentityAnnotations(d).value;
      assert k !in FirmwareFor(fw, d.vendor);
    }
  }

  /** The stamp of an NVIDIA card reads back as that card's own PCI address. */
  lemma StampedAddressAnswers(a: Annotations, live: seq<Device>, i: int)
    requires StampedAs(a, live, i) && live[i].vendor == Nvidia
    ensures DpfPciAddress(live[i].pci) == "" || At(a, PciAddressKey) == DpfPciAddress(live[i].pci)
    ensures DpfPciAddress(live[i].pci) != "" ==> AnswersTo(live[i], At(a, PciAddressKey))
    ensures At(a, ProductNameKey) == live[i].product
  {
    forall k | IsIdentityKey(k) ensures At(a, k) == At(IdentityAnnotations(live[i]).value, k) {
      assert k in a <==> k in Stamp(a);
    }
    assert IsIdentityKey(PciAddressKey) && IsIdentityKey(ProductNameKey);
  }

  /** The firmware annotations of a bound DPU: each of the card's vendor keys reads
      its own setting where that is not empty, and what was there before otherwise. */
  lemma FirmwareKeysRead(have: Annotations, d: Device, clear: bool, fw: Firmware)
    requires IdentityAnnotations(d).Some?
    ensures DesiredAnnotations(have, Assignment(Some(d), clear), fw).Some?
    ensures var want, v := DesiredAnnotations(have, Assignment(Some(d), clear), fw).value, d.vendor;
            && At(want, FirmwareUrlKey(v)) == (if fw.url != "" then fw.url else At(have, FirmwareUrlKey(v)))
            && At(want, FlavorKey(v)) == (if fw.flavor != "" then fw.flavor else At(have, FlavorKey(v)))
            && At(want, FirmwareNameKey(v)) == (if fw.name != "" then fw.name else At(have, FirmwareNameKey(v)))
  {
    StampKeys(d);
    FirmwareReads(fw, d.vendor);
    hide IdentityAnnotations, FirmwareFor, StripIdentity, At;
    var ident, f := IdentityAnnotations(d).value, FirmwareFor(fw, d.vendor);
    Overlaid(have, ident, f, FirmwareUrlKey(d.vendor));
    Overlaid(have, ident, f, FlavorKey(d.vendor));
    Overlaid(have, ident, f, FirmwareNameKey(d.vendor));
  }

  lemma StampKeys(d: Device)
    requires IdentityAnnotations(d).Some?
    ensures KnownVendor(d.vendor) && forall k :: k in IdentityAnnotations(d).value ==> IsIdentityKey(k)
  {
    hide Trim, DpfPciAddress;
  }

  lemma Overlaid(have: Annotations, ident: Annotations, f: Annotations, k: Key)
    requires !IsIdentityKey(k) && k !in ident
    ensures At(StripIdentity(have) + ident + f, k) == if k in f then f[k] else At(have, k)
  {
  }

  lemma FirmwareReads(fw: Firmware, v: Vendor)
    requires KnownVendor(v)
    ensures var f := FirmwareFor(fw, v);
            && (FirmwareUrlKey(v) in f <==> fw.url != "") && (fw.url != "" ==> f[FirmwareUrlKey(v)] == fw.url)
            && (FlavorKey(v) in f <==> fw.flavor != "") && (fw.flavor != "" ==> f[FlavorKey(v)] == fw.flavor)
            && (FirmwareNameKey(v) in f <==> fw.name != "") && (fw.name != "" ==> f[FirmwareNameKey(v)] == fw.name)
  {
  }

  // ----- One step of the protocol -----

  ghost predicate LiveClaim(a: Annotations, live: seq<Device>) {
    ClaimedSerial(a) != "" && IsLiveSerial(live, ClaimedSerial(a))
  }

  /** Nobody in the state claims this serial. */
  ghost predicate Unclaimed(st: State, s: string) {
    forall m :: m in st ==> ClaimedSerial(st[m]) != s
  }

  /** Nobody but n claims what n claims. */
  ghost predicate Unique(st: State, n: string)
    requires n in st
  {
    forall m :: m in st && m != n ==> ClaimedSerial(st[m]) != ClaimedSerial(st[n])
  }

  /** n is listed before every other DPU that claims the same serial. */
  ghost predicate First(st: State, order: seq<string>, n: string)
    requires n in st && n in order && forall m :: m in order ==> m in st
  {
    exists j :: 0 <= j < |order| && order[j] == n && FirstClaimant(ViewsOf(st, order), j)
  }

  lemma ViewsDistinct(st: State, order: seq<string>)
    requires Enumerates(order, st.Keys)
    ensures DistinctNames(ViewsOf(st, order))
  {
  }

  lemma ClaimedIsClaimed(st: State, order: seq<string>, s: string)
    requires Enumerates(order, st.Keys)
    ensures Claimed(ViewsOf(st, order), s) <==> !Unclaimed(st, s)
  {
    var views := ViewsOf(st, order);
    if Claimed(views, s) {
      var j :| 0 <= j < |views| && ClaimedSerial(views[j].ann) == s;
      assert order[j] in st;
    }
    if !Unclaimed(st, s) {
      var m :| m in st && ClaimedSerial(st[m]) == s;
      var j :| 0 <= j < |order| && order[j] == m;
      assert ClaimedSerial(views[j].ann) == s;
    }
  }

  lemma UniqueIsFirst(st: State, order: seq<string>, n: string)
    requires Enumerates(order, st.Keys) && n in st && Unique(st, n)
    ensures First(st, order, n)
  {
    var views := ViewsOf(st, order);
    var j :| 0 <= j < |order| && order[j] == n;
    assert FirstClaimant(views, j);
  }

  /** A bound DPU either won its serial claim or got a card nobody claims. */
  lemma BoundCard(views: seq<View>, live: seq<Device>, j: nat)
    requires DistinctNames(views) && LiveBus(live) && j < |views|
    ensures ClaimsLive(views[j], live) && FirstClaimant(views, j) ==>
              views[j].name in Allocation(views, live).bound &&
              Allocation(views, live).bound[views[j].name].serial == ClaimedSerial(views[j].ann)
    ensures !(ClaimsLive(views[j], live) && FirstClaimant(views, j)) &&
            views[j].name in Allocation(views, live).bound ==>
              !Claimed(views, Allocation(views, live).bound[views[j].name].serial)
    ensures views[j].name in Allocation(views, live).bound ==>
              Allocation(views, live).bound[views[j].name] in live
  {
    var n, a, b := views[j].name, SerialPass(views, live), Allocation(views, live);
    AllocationSound(views, live);
    AfterEmptySpec(views, live);
    AfterPciSpec(views, live);
    ExtendsTransitive(AfterPci(views, live), AfterEmpty(views, live), b);
    ExtendsTransitive(a, AfterPci(views, live), b);
    SerialPassFirst(views, live, j);
    if n in b.bound {
      SerialPassUses(views, live, b.bound[n].serial);
      var i :| 0 <= i < |live| && live[i] == b.bound[n];
      assert IsLiveSerial(live, b.bound[n].serial);
      assert live[i].serial != "" by { assert Trim(live[i].serial) == live[i].serial; }
    }
  }

  /** A DPU is marked for clearing exactly when it has a stamp and the first two passes left it. */
  lemma ClearMark(views: seq<View>, live: seq<Device>, j: nat)
    requires DistinctNames(views) && j < |views|
    ensures AssignmentFor(views, live, views[j].name).clear <==>
              views[j].name !in AfterPci(views, live).bound && HasIdentity(views[j].ann)
  {
    var n, a, c := views[j].name, AfterPci(views, live), Cleared(views, live);
    UnboundMember(views, a, true, views[j]);
    if NameIn(c, n) {
      var i :| 0 <= i < |c| && c[i].name == n;
      UnboundMember(views, a, true, c[i]);
      var k :| 0 <= k < |views| && views[k] == c[i];
      assert k == j;
    }
    if n !in a.bound && HasIdentity(views[j].ann) {
      var i :| 0 <= i < |c| && c[i] == views[j];
      assert c[i].name == n;
    }
  }

  /** Everything one reconcile may leave on the DPU it serves. */
  ghost predicate Outcome(st: State, order: seq<string>, live: seq<Device>, n: string, after: Annotations)
    requires Enumerates(order, st.Keys) && n in st
  {
    if LiveClaim(st[n], live) && First(st, order, n) then
      Exact(after, live) && ClaimedSerial(after) == ClaimedSerial(st[n])
    else
      || (Exact(after, live) && Unclaimed(st, ClaimedSerial(after)))
      || (HasIdentity(st[n]) && Stamp(after) == map[])
      || (!HasIdentity(st[n]) && Stamp(after) == Stamp(st[n]))
  }

  lemma OutcomeBound(st: State, order: seq<string>, live: seq<Device>, fw: Firmware, n: string, i: int)
    requires Enumerates(order, st.Keys) && n in st && LiveBus(live) && 0 <= i < |live|
    requires AssignmentFor(ViewsOf(st, order), live, n).device == Some(live[i])
    ensures var want := DesiredAnnotations(st[n], AssignmentFor(ViewsOf(st, order), live, n), fw);
            want.Some? && Outcome(st, order, live, n, want.value)
  {
    var views := ViewsOf(st, order);
    ViewsDistinct(st, order);
    var j :| 0 <= j < |order| && order[j] == n;
    assert views[j] == View(n, st[n]);
    BoundCard(views, live, j);
    FirstHere(st, order, n, j);
    ClaimedIsClaimed(st, order, live[i].serial);
    var asg := AssignmentFor(views, live, n);
    BoundStamp(st[n], asg, fw, live, i);
    StampedClaims(DesiredAnnotations(st[n], asg, fw).value, live, i);
  }

  lemma OutcomeUnbound(st: State, order: seq<string>, live: seq<Device>, fw: Firmware, n: string)
    requires Enumerates(order, st.Keys) && n in st && LiveBus(live)
    requires AssignmentFor(ViewsOf(st, order), live, n).device == None
    ensures var want := DesiredAnnotations(st[n], AssignmentFor(ViewsOf(st, order), live, n), fw);
            want.Some? && Outcome(st, order, live, n, want.value)
  {
    hide ClaimedSerial, HasIdentity, AfterPci, Allocation, StripIdentity, Stamp, IsLiveSerial, Claimed, Exact;
    var views := ViewsOf(st, order);
    ViewsDistinct(st, order);
    var j :| 0 <= j < |order| && order[j] == n;
    assert views[j] == View(n, st[n]);
    BoundCard(views, live, j);
    ClearMark(views, live, j);
    FirstHere(st, order, n, j);
    AllocationKeeps(views, live, n);
    ClearedStamp(st[n], fw);
  }

  lemma CardIsLive(st: State, order: seq<string>, live: seq<Device>, n: string)
    requires Enumerates(order, st.Keys) && n in st && LiveBus(live)
    ensures var asg := AssignmentFor(ViewsOf(st, order), live, n);
            asg.device.Some? ==> asg.device.value in live
  {
    ViewsDistinct(st, order);
    AllocationSound(ViewsOf(st, order), live);
  }

  lemma StepOutcome(st: State, order: seq<string>, live: seq<Device>, fw: Firmware, n: string)
    requires Enumerates(order, st.Keys) && n in st && LiveBus(live)
    ensures Step(st, order, live, fw, n).Keys == st.Keys
    ensures forall m :: m in st && m != n ==> Step(st, order, live, fw, n)[m] == st[m]
    ensures Outcome(st, order, live, n, Step(st, order, live, fw, n)[n])
  {
    hide Outcome, AssignmentFor, DesiredAnnotations, Step;
    CardIsLive(st, order, live, n);
    StepWritesDesired(st, order, live, fw, n);
    var asg := AssignmentFor(ViewsOf(st, order), live, n);
    if asg.device.Some? {
      var i :| 0 <= i < |live| && live[i] == asg.device.value;
      OutcomeBound(st, order, live, fw, n, i);
    } else {
      OutcomeUnbound(st, order, live, fw, n);
    }
  }

  lemma FirstHere(st: State, order: seq<string>, n: string, j: nat)
    requires Enumerates(order, st.Keys) && n in st && j < |order| && order[j] == n
    ensures First(st, order, n) <==> FirstClaimant(ViewsOf(st, order), j)
  {
  }

  lemma AllocationKeeps(views: seq<View>, live: seq<Device>, n: string)
    requires DistinctNames(views) && LiveBus(live)
    requires n !in Allocation(views, live).bound
    ensures n !in AfterPci(views, live).bound
  {
    AllocationSound(views, live);
    AfterEmptySpec(views, live);
  }

  lemma StepWritesDesired(st: State, order: seq<string>, live: seq<Device>, fw: Firmware, n: string)
    requires Enumerates(order, st.Keys) && n in st && LiveBus(live)
    requires var asg := AssignmentFor(ViewsOf(st, order), live, n);
             asg.device.Some? ==> asg.device.value in live
    ensures var asg := AssignmentFor(ViewsOf(st, order), live, n);
            var want := DesiredAnnotations(st[n], asg, fw);
            want.Some? ==> Step(st, order, live, fw, n) == st[n := want.value]
  {
    hide AssignmentFor, DesiredAnnotations, AnnotationsEqual, LiveBus;
    var asg := AssignmentFor(ViewsOf(st, order), live, n);
    var want := DesiredAnnotations(st[n], asg, fw);
    if want.Some? && AnnotationsEqual(st[n], want.value) {
      SkippedPatchIsNoChange(st[n], asg, fw, live);
    }
  }
}
