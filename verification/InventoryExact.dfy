/** The claim passes, the pairing and the stamp, said of the annotations and the
    cards themselves (pkg/discovery/inventory.go, types.go). */
module InventoryExact {
  import opened Text
  import opened Sorting
  import opened Inventory

  // ----- What is read from annotations -----

  /** The trimmed PCI annotation. */
  ghost function AddressIn(ann: Annotations): string {
    Trim(if PciAddressKey in ann then ann[PciAddressKey] else "")
  }

  /** Card i is the last card whose address, raw or in DPF form, is the annotation. */
  ghost predicate AddressedBy(ann: Annotations, live: seq<Device>, i: int) {
    && 0 <= i < |live| && AddressIn(ann) != ""
    && (live[i].pci == AddressIn(ann) || DpfPciAddress(live[i].pci) == AddressIn(ann))
    && forall k :: i < k < |live| ==> live[k].pci != AddressIn(ann) && DpfPciAddress(live[k].pci) != AddressIn(ann)
  }

  lemma {:induction false} ByPciIsLast(live: seq<Device>, p: string)
    requires p != ""
    ensures forall i :: 0 <= i < |live| ==>
              ((live[i].pci == p || DpfPciAddress(live[i].pci) == p)
               && (forall k :: i < k < |live| ==> live[k].pci != p && DpfPciAddress(live[k].pci) != p)
               ==> ByPCI(live, p) == Some(live[i]))
    ensures ByPCI(live, p).None? <==> forall k :: 0 <= k < |live| ==> live[k].pci != p && DpfPciAddress(live[k].pci) != p
  {
    hide DpfPciAddress;
    if live != [] {
      var front := live[..|live| - 1];
      ByPciIsLast(front, p);
      assert forall k :: 0 <= k < |front| ==> front[k] == live[k];
    }
  }

  /** The last card that answers, where some card does. */
  lemma {:induction false} LastAnswer(live: seq<Device>, ann: Annotations) returns (i: int)
    requires AddressIn(ann) != "" && ByPCI(live, AddressIn(ann)).Some?
    ensures AddressedBy(ann, live, i)
  {
    hide DpfPciAddress, AddressIn;
    var p := AddressIn(ann);
    if AnswersTo(live[|live| - 1], p) {
      i := |live| - 1;
    } else {
      i := LastAnswer(live[..|live| - 1], ann);
      assert forall k :: 0 <= k < |live| - 1 ==> live[..|live| - 1][k] == live[k];
    }
  }

  lemma WishIsAddressed(v: View, live: seq<Device>, i: int)
    requires AddressedBy(v.ann, live, i)
    ensures PciWish(v, live) == Some(live[i])
  {
    ByPciIsLast(live, AddressIn(v.ann));
    hide DpfPciAddress, Trim;
  }

  lemma WishHasAddress(v: View, live: seq<Device>) returns (i: int)
    requires PciWish(v, live).Some?
    ensures AddressedBy(v.ann, live, i) && PciWish(v, live) == Some(live[i])
  {
    hide DpfPciAddress, Trim;
    i := LastAnswer(live, v.ann);
    WishIsAddressed(v, live, i);
  }

  /** The claimed serial is the one vendor serial annotation that is not blank. */
  lemma ClaimedSerialIs(ann: Annotations, v: Vendor)
    requires KnownVendor(v)
    requires forall o :: KnownVendor(o) && o != v && SerialKey(o) in ann ==> Trim(ann[SerialKey(o)]) == ""
    ensures ClaimedSerial(ann) == if SerialKey(v) in ann then Trim(ann[SerialKey(v)]) else ""
  {
    assert Trim("") == "";
    hide Trim;
    assert KnownVendor(Nvidia) && KnownVendor(Amd) && KnownVendor(Marvell);
  }

  /** A DPU carries identity exactly when some vendor's serial, the PCI address or
      the product name is annotated with more than white space. */
  lemma HasIdentityIff(ann: Annotations)
    ensures HasIdentity(ann) <==>
            exists k :: k in ann && Trim(ann[k]) != "" &&
              k in {SerialKey(Nvidia), SerialKey(Amd), SerialKey(Marvell), PciAddressKey, ProductNameKey}
  {
    assert Trim("") == "";
    hide Trim;
    if HasIdentity(ann) {
      var k := if Trim(At(ann, SerialKey(Nvidia))) != "" then SerialKey(Nvidia)
               else if Trim(At(ann, SerialKey(Amd))) != "" then SerialKey(Amd)
               else if Trim(At(ann, SerialKey(Marvell))) != "" then SerialKey(Marvell)
               else if Trim(At(ann, PciAddressKey)) != "" then PciAddressKey
               else ProductNameKey;
      assert k in ann && Trim(ann[k]) != "";
    }
  }

  // ----- The PCI pass -----

  /** View j was left by the serial pass and its address leads to the card with serial s. */
  ghost predicate Wants(views: seq<View>, live: seq<Device>, start: Alloc, j: int, s: string) {
    && 0 <= j < |views| && views[j].name !in start.bound
    && PciWish(views[j], live).Some? && PciWish(views[j], live).value.serial == s
  }

  ghost predicate SomeWants(views: seq<View>, live: seq<Device>, start: Alloc, s: string) {
    exists j :: Wants(views, live, start, j, s)
  }

  lemma WantsSnoc(views: seq<View>, live: seq<Device>, start: Alloc, s: string)
    requires views != []
    ensures SomeWants(views, live, start, s) <==>
            SomeWants(views[..|views| - 1], live, start, s) || Wants(views, live, start, |views| - 1, s)
  {
    hide PciWish;
    var front := views[..|views| - 1];
    if SomeWants(front, live, start, s) {
      var j :| Wants(front, live, start, j, s);
      assert Wants(views, live, start, j, s);
    }
    if SomeWants(views, live, start, s) {
      var j :| Wants(views, live, start, j, s);
      if j < |front| {
        assert Wants(front, live, start, j, s);
      }
    }
  }

  lemma LastNotBound(views: seq<View>, live: seq<Device>, start: Alloc)
    requires DistinctNames(views) && views != []
    ensures var v := views[|views| - 1];
            v.name in PciPass(views[..|views| - 1], live, start).bound ==> v.name in start.bound
  {
    hide PciPass;
    var v, front := views[|views| - 1], views[..|views| - 1];
    if v.name in PciPass(front, live, start).bound {
      PciPassNames(front, live, start, v.name);
    }
  }

  lemma {:induction false} PciPassUses(views: seq<View>, live: seq<Device>, start: Alloc, s: string)
    requires DistinctNames(views)
    ensures s in PciPass(views, live, start).holder <==> s in start.holder || SomeWants(views, live, start, s)
    ensures forall n :: n in start.bound ==> n in PciPass(views, live, start).bound
  {
    hide PciWish;
    if views != [] {
      var front := views[..|views| - 1];
      PciPassUses(front, live, start, s);
      LastNotBound(views, live, start);
      WantsSnoc(views, live, start, s);
      hide SomeWants;
    }
  }

  lemma {:induction false} PciPassFirst(views: seq<View>, live: seq<Device>, start: Alloc, j: nat)
    requires DistinctNames(views) && j < |views| && views[j].name !in start.bound
    ensures var b := PciPass(views, live, start).bound;
            var wish := PciWish(views[j], live);
            && (views[j].name in b <==>
                  wish.Some? && wish.value.serial !in start.holder && !SomeWants(views[..j], live, start, wish.value.serial))
            && (views[j].name in b ==> b[views[j].name] == wish.value)
  {
    hide PciWish;
    var front := views[..|views| - 1];
    LastNotBound(views, live, start);
    if j < |front| {
      PciPassFirst(front, live, start, j);
      assert front[..j] == views[..j] && front[j] == views[j];
      assert views[j].name != views[|views| - 1].name;
      hide SomeWants;
    } else {
      assert views[..j] == front;
      if PciWish(views[j], live).Some? {
        PciPassUses(front, live, start, PciWish(views[j], live).value.serial);
      }
      hide SomeWants;
    }
  }

  /** View j got its card by its serial. */
  ghost predicate WonBySerial(views: seq<View>, live: seq<Device>, j: nat)
    requires j < |views|
  {
    ClaimsLive(views[j], live) && FirstClaimant(views, j)
  }

  /** View j gets card i by its address: nobody claims the card's serial, and no
      earlier view left by the serial pass has the same card's address. */
  ghost predicate WinsByAddress(views: seq<View>, live: seq<Device>, j: nat, i: int)
    requires j < |views|
  {
    && AddressedBy(views[j].ann, live, i)
    && (forall k :: 0 <= k < |views| ==> ClaimedSerial(views[k].ann) != live[i].serial)
    && (forall k :: 0 <= k < j && !WonBySerial(views, live, k) ==> !AddressedBy(views[k].ann, live, i))
  }

  lemma EarlierWants(views: seq<View>, live: seq<Device>, j: nat, i: int)
    requires DistinctNames(views) && LiveBus(live) && j < |views| && 0 <= i < |live|
    ensures SomeWants(views[..j], live, SerialPass(views, live), live[i].serial) <==>
            exists k: nat :: k < j && !WonBySerial(views, live, k) && AddressedBy(views[k].ann, live, i)
  {
    var a := SerialPass(views, live);
    hide SerialPass, PciWish, AddressedBy, FirstClaimant, ClaimsLive;
    if SomeWants(views[..j], live, a, live[i].serial) {
      var k :| Wants(views[..j], live, a, k, live[i].serial);
      assert views[..j][k] == views[k];
      SerialPassFirst(views, live, k);
      var c := WishHasAddress(views[k], live);
      SameCard(live, c, i, views[k].ann);
    }
    if k: nat :| k < j && !WonBySerial(views, live, k) && AddressedBy(views[k].ann, live, i) {
      assert views[..j][k] == views[k];
      SerialPassFirst(views, live, k);
      WishIsAddressed(views[k], live, i);
      assert Wants(views[..j], live, a, k, live[i].serial);
    }
  }

  lemma SameCard(live: seq<Device>, c: int, i: int, ann: Annotations)
    requires LiveBus(live) && AddressedBy(ann, live, c) && 0 <= i < |live| && live[c].serial == live[i].serial
    ensures c == i
  {
    hide DpfPciAddress, AddressIn;
  }

  lemma ClaimedCard(views: seq<View>, live: seq<Device>, i: int)
    requires LiveBus(live) && 0 <= i < |live|
    ensures live[i].serial in SerialPass(views, live).holder <==>
            exists k :: 0 <= k < |views| && ClaimedSerial(views[k].ann) == live[i].serial
  {
    SerialPassUses(views, live, live[i].serial);
    assert Trim(live[i].serial) == live[i].serial && live[i].serial != "";
    hide ClaimedSerial, SerialPass;
    assert IsLiveSerial(live, live[i].serial);
  }

  /** The second pass, exactly: a view that did not win by serial is bound when its
      address leads to a card nobody claims and nobody before it addresses, and to
      that card, whatever serial it carries. */
  lemma PciPassExact(views: seq<View>, live: seq<Device>, j: nat)
    requires DistinctNames(views) && LiveBus(live) && j < |views| && !WonBySerial(views, live, j)
    ensures var b := AfterPci(views, live).bound;
            && (views[j].name in b <==> exists i :: WinsByAddress(views, live, j, i))
            && (forall i :: WinsByAddress(views, live, j, i) ==> views[j].name in b && b[views[j].name] == live[i])
  {
    var a := SerialPass(views, live);
    SerialPassFirst(views, live, j);
    PciPassFirst(views, live, a, j);
    hide SerialPass, PciPass, PciWish, LiveBus, AddressedBy, ClaimedSerial, SomeWants, WonBySerial;
    if PciWish(views[j], live).Some? {
      var i := WishHasAddress(views[j], live);
      AddressedInside(views[j].ann, live, i);
      ClaimedCard(views, live, i);
      EarlierWants(views, live, j, i);
      assert views[j].name in AfterPci(views, live).bound ==> WinsByAddress(views, live, j, i);
    }
    forall i | WinsByAddress(views, live, j, i)
      ensures views[j].name in AfterPci(views, live).bound && AfterPci(views, live).bound[views[j].name] == live[i]
    {
      WishIsAddressed(views[j], live, i);
      AddressedInside(views[j].ann, live, i);
      ClaimedCard(views, live, i);
      EarlierWants(views, live, j, i);
    }
  }

  lemma AddressedInside(ann: Annotations, live: seq<Device>, i: int)
    requires AddressedBy(ann, live, i)
    ensures 0 <= i < |live|
  {
  }

  // ----- The pairing -----

  lemma {:induction false} PairUpGives(empty: seq<View>, cards: seq<Device>, n: nat, a: Alloc, i: nat)
    requires n <= |empty| && n <= |cards| && i < n && DistinctNames(empty)
    ensures var b := PairUp(empty, cards, n, a).bound; empty[i].name in b && b[empty[i].name] == cards[i]
  {
    if i < n - 1 {
      assert empty[i].name != empty[n - 1].name;
      PairUpGives(empty, cards, n - 1, a, i);
    }
  }

  ghost predicate DistinctAddresses(live: seq<Device>) {
    forall i, j :: 0 <= i < j < |live| ==> live[i].pci != live[j].pci
  }

  /** The addresses of some of the cards. */
  ghost function Addresses(ds: seq<Device>): set<string> {
    set i | 0 <= i < |ds| :: ds[i].pci
  }

  ghost function LowerAddresses(ds: seq<Device>, p: string): set<string> {
    set q | q in Addresses(ds) && q != p && Leq(q, p)
  }

  ghost predicate SortedByPci(ds: seq<Device>) {
    forall i, j :: 0 <= i < j < |ds| ==> Leq(ds[i].pci, ds[j].pci) && ds[i].pci != ds[j].pci
  }

  lemma {:induction false} AddressCount(ds: seq<Device>)
    requires SortedByPci(ds)
    ensures |Addresses(ds)| == |ds|
  {
    if ds != [] {
      var front, d := ds[..|ds| - 1], ds[|ds| - 1];
      AddressCount(front);
      assert d.pci !in Addresses(front);
      assert Addresses(ds) == Addresses(front) + {d.pci} by {
        forall p ensures p in Addresses(ds) <==> p in Addresses(front) || p == d.pci {
          if p in Addresses(ds) {
            var i :| 0 <= i < |ds| && ds[i].pci == p;
            assert i < |front| ==> front[i].pci == p;
          }
          if p in Addresses(front) {
            var i :| 0 <= i < |front| && front[i].pci == p;
            assert ds[i].pci == p;
          }
          assert ds[|ds| - 1].pci == d.pci;
        }
      }
    }
  }

  /** The i-th card of a list sorted by address has i cards at lower addresses. */
  lemma PlaceByAddress(ds: seq<Device>, i: nat)
    requires SortedByPci(ds) && i < |ds|
    ensures |LowerAddresses(ds, ds[i].pci)| == i
  {
    AddressCount(ds[..i]);
    var lower := LowerAddresses(ds, ds[i].pci);
    forall p ensures p in lower <==> p in Addresses(ds[..i]) {
      if p in lower {
        var j :| 0 <= j < |ds| && ds[j].pci == p;
        if i < j {
          LeqAntisymmetric(ds[i].pci, ds[j].pci);
        }
        assert ds[..i][j].pci == p;
      }
      if p in Addresses(ds[..i]) {
        var j :| 0 <= j < i && ds[..i][j].pci == p;
        assert ds[j].pci == p;
      }
    }
    assert lower == Addresses(ds[..i]);
  }

  lemma SpareIsSorted(views: seq<View>, live: seq<Device>)
    requires DistinctSerials(live) && DistinctAddresses(live)
    ensures SortedByPci(SortedSpare(views, live))
  {
    var key := (d: Device) => d.pci;
    var unused := Unused(live, AfterPci(views, live).Used());
    var spare := SortedSpare(views, live);
    SortPermutes(unused, key);
    assert SortedBy(spare, key);
    SortedSpareSpec(views, live);
    hide SortedSpare, AfterPci;
    forall i, j | 0 <= i < j < |spare| ensures Leq(spare[i].pci, spare[j].pci) && spare[i].pci != spare[j].pci {
      assert Leq(key(spare[i]), key(spare[j]));
      assert spare[i] in spare && spare[j] in spare;
      var a :| 0 <= a < |live| && live[a] == spare[i];
      var b :| 0 <= b < |live| && live[b] == spare[j];
      assert a != b;
    }
  }

  // ----- The address form and the stamp -----

  lemma {:induction false} DashedIs(s: string, k: nat)
    requires k < |s|
    ensures |Dashed(s)| == |s| && Dashed(s)[k] == if s[k] == ':' then '-' else s[k]
  {
    if k > 0 {
      DashedIs(s[1..], k - 1);
    } else if |s| > 1 {
      DashedIs(s[1..], 0);
    }
  }

  lemma {:induction false} CutAtLastDot(a: string, b: string)
    requires '.' !in b
    ensures CutLastDot(a + "." + b) == a
    decreases |b|
  {
    var s := a + "." + b;
    assert s[|a|] == '.';
    if b == [] {
      assert s[..|s| - 1] == a;
    } else {
      var c := b[..|b| - 1];
      assert s[..|s| - 1] == a + "." + c;
      assert b[|b| - 1] in b;
      CutAtLastDot(a, c);
    }
  }

  /** Domain, bus, device and function: the DPF form has dashes and no function. */
  lemma DpfFormIs(domain: string, bus: string, device: string, function_: string)
    requires ':' !in domain && ':' !in bus && ':' !in device && ':' !in function_ && '.' !in function_
    requires var pci := domain + ":" + bus + ":" + device + "." + function_; Trim(pci) == pci
    ensures DpfPciAddress(domain + ":" + bus + ":" + device + "." + function_) == domain + "-" + bus + "-" + device
  {
    var pci := domain + ":" + bus + ":" + device + "." + function_;
    var want := domain + "-" + bus + "-" + device + "." + function_;
    assert |pci| == |want|;
    DashedIs(pci, 0);
    forall k | 0 <= k < |pci| ensures Dashed(pci)[k] == want[k] {
      DashedIs(pci, k);
      DashPlaces(domain, bus, device + "." + function_, k);
      assert pci == domain + ":" + bus + ":" + (device + "." + function_);
      assert want == domain + "-" + bus + "-" + (device + "." + function_);
    }
    assert Dashed(pci) == want;
    assert want == (domain + "-" + bus + "-" + device) + "." + function_;
    CutAtLastDot(domain + "-" + bus + "-" + device, function_);
  }

  lemma DashPlaces(a: string, b: string, c: string, k: nat)
    requires ':' !in a && ':' !in b && ':' !in c && k < |a| + |b| + |c| + 2
    ensures var x, y := a + ":" + b + ":" + c, a + "-" + b + "-" + c;
            y[k] == if x[k] == ':' then '-' else x[k]
  {
    var x, y := a + ":" + b + ":" + c, a + "-" + b + "-" + c;
    if k < |a| {
      assert x[k] == a[k] && y[k] == a[k] && a[k] in a;
    } else if k == |a| {
      assert x[k] == ':' && y[k] == '-';
    } else if k < |a| + 1 + |b| {
      assert x[k] == b[k - |a| - 1] && y[k] == b[k - |a| - 1] && b[k - |a| - 1] in b;
    } else if k == |a| + 1 + |b| {
      assert x[k] == ':' && y[k] == '-';
    } else {
      assert x[k] == c[k - |a| - |b| - 2] && y[k] == c[k - |a| - |b| - 2] && c[k - |a| - |b| - 2] in c;
    }
  }

  /** The stamp, entry by entry: the vendor's serial key, the product name, and for
      NVIDIA alone the DPF address. */
  lemma StampIs(d: Device)
    requires ValidIdentity(d) && KnownVendor(d.vendor)
    ensures IdentityAnnotations(d).Some?
    ensures var a := IdentityAnnotations(d).value;
            && SerialKey(d.vendor) in a && a[SerialKey(d.vendor)] == d.serial
            && ProductNameKey in a && a[ProductNameKey] == d.product
            && (PciAddressKey in a <==> d.vendor == Nvidia && DpfPciAddress(d.pci) != "")
            && (PciAddressKey in a ==> a[PciAddressKey] == DpfPciAddress(d.pci))
            && forall k :: k in a ==> k in {SerialKey(d.vendor), ProductNameKey, PciAddressKey}
  {
    hide DpfPciAddress, Trim;
  }

  /** No identity for a device without an address or serial, or of an unknown vendor. */
  lemma NoStampIff(d: Device)
    ensures IdentityAnnotations(d).None? <==>
            Trim(d.pci) == "" || Trim(d.serial) == "" || (d.vendor != Nvidia && d.vendor != Amd && d.vendor != Marvell)
  {
    hide DpfPciAddress, Trim;
  }
}
