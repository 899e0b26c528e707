/** The match in numbers: who gets a card after the claim passes. */
module AnnotatorCounts {
  import opened Text
  import opened Sorting
  import opened Inventory
  import opened Annotator
  import opened AnnotatorRuns
  import InventoryExact

  ghost function Unstamped(st: State): set<string> {
    set n | n in st && !HasIdentity(st[n])
  }

  /** The live serials somebody claims. */
  ghost function Taken(st: State, live: seq<Device>): set<string> {
    set s | s in Serials(live) && !Unclaimed(st, s)
  }

  /** Cards nobody claims. */
  ghost function Spare(st: State, live: seq<Device>): int {
    |live| - |Taken(st, live)|
  }

  /** Stamped DPUs beyond one per claimed live card: they have no card of their own. */
  ghost function Losers(st: State, live: seq<Device>): int {
    |st| - |Unstamped(st)| - |Taken(st, live)|
  }

  /** The unstamped DPUs served before m. */
  ghost function Below(st: State, m: string): set<string> {
    set n | n in st && !HasIdentity(st[n]) && n != m && Leq(n, m)
  }

  /** A PCI address leads to a card only where that card's serial is claimed anyway. */
  ghost predicate SerialLed(st: State, live: seq<Device>) {
    forall n :: n in st ==> PciIdle(st, st[n], live)
  }

  ghost predicate PciIdle(st: State, a: Annotations, live: seq<Device>) {
    ClaimedPCI(a) == "" || ByPCI(live, ClaimedPCI(a)).None? || !Unclaimed(st, ByPCI(live, ClaimedPCI(a)).value.serial)
  }

  /** The cards the two claim passes hand out under a listing. */
  ghost function Used(st: State, order: seq<string>, live: seq<Device>): set<string>
    requires Enumerates(order, st.Keys)
  {
    AfterPci(ViewsOf(st, order), live).holder.Keys
  }

  /** The cards they leave. */
  ghost function Left(st: State, order: seq<string>, live: seq<Device>): int
    requires Enumerates(order, st.Keys)
  {
    |live| - |Used(st, order, live)|
  }

  /** The stamped DPUs they leave. */
  ghost function Loose(st: State, order: seq<string>, live: seq<Device>): int
    requires Enumerates(order, st.Keys)
  {
    |st| - |Unstamped(st)| - |Used(st, order, live)|
  }

  // ----- The passes -----

  lemma {:induction false} PciPassIdle(views: seq<View>, live: seq<Device>, start: Alloc)
    requires forall v :: v in views ==> PciWish(v, live).None? || PciWish(v, live).value.serial in start.holder
    ensures PciPass(views, live, start) == start
  {
    hide PciWish;
    if views != [] {
      assert views[|views| - 1] in views;
      PciPassIdle(views[..|views| - 1], live, start);
    }
  }

  lemma UsedIsTaken(st: State, order: seq<string>, live: seq<Device>)
    requires Enumerates(order, st.Keys) && LiveBus(live)
    ensures SerialPass(ViewsOf(st, order), live).holder.Keys == Taken(st, live)
  {
    var views := ViewsOf(st, order);
    forall s ensures s in SerialPass(views, live).holder <==> s in Taken(st, live) {
      SerialPassUses(views, live, s);
      ClaimedIsClaimed(st, order, s);
      LiveSerialIff(live, s);
    }
  }

  lemma LiveSerialIff(live: seq<Device>, s: string)
    requires LiveBus(live)
    ensures s in Serials(live) <==> IsLiveSerial(live, s)
    ensures s in Serials(live) ==> s != ""
  {
    if s in Serials(live) {
      var i :| 0 <= i < |live| && live[i].serial == s;
      assert Trim(live[i].serial) != "";
    }
  }

  lemma PciPassDoesNothing(st: State, order: seq<string>, live: seq<Device>)
    requires Enumerates(order, st.Keys) && LiveBus(live) && SerialLed(st, live)
    ensures AfterPci(ViewsOf(st, order), live) == SerialPass(ViewsOf(st, order), live)
  {
    var views := ViewsOf(st, order);
    var a := SerialPass(views, live);
    UsedIsTaken(st, order, live);
    forall v | v in views ensures PciWish(v, live).None? || PciWish(v, live).value.serial in a.holder {
      var j :| 0 <= j < |views| && views[j] == v;
      assert PciIdle(st, st[order[j]], live);
      if PciWish(v, live).Some? {
        var d := PciWish(v, live).value;
        var i :| 0 <= i < |live| && live[i] == d;
        assert d.serial in Serials(live);
      }
    }
    PciPassIdle(views, live, a);
  }

  /** There the claim passes hand out exactly the claimed live cards, in any listing. */
  lemma UsedWhenSerialLed(st: State, order: seq<string>, live: seq<Device>)
    requires Enumerates(order, st.Keys) && LiveBus(live) && SerialLed(st, live)
    ensures Used(st, order, live) == Taken(st, live)
    ensures Left(st, order, live) == Spare(st, live) && Loose(st, order, live) == Losers(st, live)
  {
    hide SerialPass, AfterPci, Taken;
    PciPassDoesNothing(st, order, live);
    UsedIsTaken(st, order, live);
  }

  // ----- Counting -----

  ghost function NamesOf(views: seq<View>): set<string> {
    set v | v in views :: v.name
  }

  lemma {:induction false} NamesCount(views: seq<View>)
    requires DistinctNames(views)
    ensures |NamesOf(views)| == |views|
  {
    if views != [] {
      var front, v := views[..|views| - 1], views[|views| - 1];
      NamesCount(front);
      assert views == front + [v];
      assert v.name !in NamesOf(front);
      assert NamesOf(views) == NamesOf(front) + {v.name};
    }
  }

  lemma SpareCount(st: State, order: seq<string>, live: seq<Device>)
    requires Enumerates(order, st.Keys) && LiveBus(live)
    ensures |SortedSpare(ViewsOf(st, order), live)| == Left(st, order, live)
  {
    var views := ViewsOf(st, order);
    var spare := SortedSpare(views, live);
    SortedSpareSpec(views, live);
    UsedIsLive(st, order, live);
    hide AfterPci, SortedSpare;
    SerialsCount(live);
    SerialsCount(spare);
    SpareSerials(spare, live, Used(st, order, live));
  }

  lemma SpareSerials(spare: seq<Device>, live: seq<Device>, taken: set<string>)
    requires forall d :: d in spare <==> d in live && d.serial !in taken
    requires taken <= Serials(live)
    ensures Serials(spare) == Serials(live) - taken && |Serials(spare)| == |Serials(live)| - |taken|
  {
    forall s ensures s in Serials(spare) <==> s in Serials(live) && s !in taken {
      if s in Serials(spare) {
        var i :| 0 <= i < |spare| && spare[i].serial == s;
        assert spare[i] in spare;
        var k :| 0 <= k < |live| && live[k] == spare[i];
      }
      if s in Serials(live) && s !in taken {
        var i :| 0 <= i < |live| && live[i].serial == s;
        assert live[i] in spare;
        var k :| 0 <= k < |spare| && spare[k] == live[i];
      }
    }
  }

  /** The PCI pass binds only DPUs that name an address. */
  lemma {:induction false} PciPassSparesUnaddressed(views: seq<View>, live: seq<Device>, start: Alloc, n: string)
    requires n !in start.bound && forall v :: v in views && v.name == n ==> ClaimedPCI(v.ann) == ""
    ensures n !in PciPass(views, live, start).bound
  {
    hide ClaimedPCI, ByPCI;
    if views != [] {
      assert views[|views| - 1] in views;
      PciPassSparesUnaddressed(views[..|views| - 1], live, start, n);
    }
  }

  /** No card for who claims none. */
  lemma UnstampedNotBound(st: State, order: seq<string>, live: seq<Device>, n: string)
    requires Enumerates(order, st.Keys) && LiveBus(live) && n in Unstamped(st)
    ensures n !in AfterPci(ViewsOf(st, order), live).bound
  {
    hide SerialPass, PciPass, ClaimedPCI, ClaimedSerial, LiveBus;
    var views := ViewsOf(st, order);
    ViewsDistinct(st, order);
    var j :| 0 <= j < |order| && order[j] == n;
    assert views[j].name == n;
    SerialPassFirst(views, live, j);
    ClaimIsIdentity(st[n]);
    forall v | v in views && v.name == n ensures ClaimedPCI(v.ann) == "" {
      var k :| 0 <= k < |views| && views[k] == v;
      assert order[k] == n;
    }
    PciPassSparesUnaddressed(views, live, SerialPass(views, live), n);
  }

  lemma EmptyNames(st: State, order: seq<string>, live: seq<Device>)
    requires Enumerates(order, st.Keys) && LiveBus(live)
    ensures NamesOf(SortedEmpty(ViewsOf(st, order), live)) == Unstamped(st)
    ensures |SortedEmpty(ViewsOf(st, order), live)| == |Unstamped(st)|
  {
    var views := ViewsOf(st, order);
    var empty := SortedEmpty(views, live);
    ViewsDistinct(st, order);
    SortedEmptySpec(views, live);
    NamesCount(empty);
    hide HasIdentity, SortedEmpty;
    forall n | n in Unstamped(st) ensures n in NamesOf(empty) {
      UnstampedNotBound(st, order, live, n);
      var j :| 0 <= j < |order| && order[j] == n;
      assert views[j] in views && views[j] in empty;
    }
    forall n | n in NamesOf(empty) ensures n in Unstamped(st) {
      var v :| v in empty && v.name == n;
      var j :| 0 <= j < |views| && views[j] == v;
      assert order[j] in st;
    }
  }

  /** In a list sorted by name, what comes before an entry is what is smaller. */
  lemma RankInSorted(e: seq<View>, i: nat)
    requires DistinctNames(e) && SortedBy(e, (v: View) => v.name) && i < |e|
    ensures NamesOf(e[..i]) == set n | n in NamesOf(e) && n != e[i].name && Leq(n, e[i].name)
    ensures |NamesOf(e[..i])| == i
  {
    NamesCount(e[..i]);
    forall n ensures n in NamesOf(e[..i]) <==> n in NamesOf(e) && n != e[i].name && Leq(n, e[i].name) {
      if n in NamesOf(e) && n != e[i].name && Leq(n, e[i].name) {
        var v :| v in e && v.name == n;
        var j :| 0 <= j < |e| && e[j] == v;
        SmallerIsEarlier(e, i, j);
        assert e[..i][j] == v;
      }
      if n in NamesOf(e[..i]) {
        var v :| v in e[..i] && v.name == n;
        var j :| 0 <= j < i && e[..i][j] == v;
        assert e[j] == v && v in e;
        var key := (v: View) => v.name;
        assert Leq(key(e[j]), key(e[i]));
      }
    }
  }

  lemma SmallerIsEarlier(e: seq<View>, i: nat, j: nat)
    requires SortedBy(e, (v: View) => v.name) && i < |e| && j < |e| && e[j].name != e[i].name && Leq(e[j].name, e[i].name)
    ensures j < i
  {
    var key := (v: View) => v.name;
    if i < j {
      assert Leq(key(e[i]), key(e[j]));
      LeqAntisymmetric(e[i].name, e[j].name);
    }
  }

  /** The place of an unstamped DPU in the queue. */
  lemma PlaceInQueue(st: State, order: seq<string>, live: seq<Device>, i: nat)
    requires Enumerates(order, st.Keys) && LiveBus(live)
    requires i < |SortedEmpty(ViewsOf(st, order), live)|
    ensures |Below(st, SortedEmpty(ViewsOf(st, order), live)[i].name)| == i
  {
    var views := ViewsOf(st, order);
    var empty := SortedEmpty(views, live);
    ViewsDistinct(st, order);
    SortedEmptySpec(views, live);
    EmptyNames(st, order, live);
    SortPermutes(Unbound(views, AfterPci(views, live), false), (v: View) => v.name);
    assert SortedBy(empty, (v: View) => v.name);
    hide SortedEmpty, HasIdentity;
    RankInSorted(empty, i);
    assert Below(st, empty[i].name) == NamesOf(empty[..i]);
  }

  lemma LosersCount(st: State, order: seq<string>, live: seq<Device>)
    requires Enumerates(order, st.Keys) && LiveBus(live)
    ensures |Cleared(ViewsOf(st, order), live)| == Loose(st, order, live)
  {
    var views := ViewsOf(st, order);
    var a := AfterPci(views, live);
    var cleared := Cleared(views, live);
    ViewsDistinct(st, order);
    AfterPciSpec(views, live);
    UnboundDistinct(views, a, true);
    NamesCount(cleared);
    ClearedNames(st, order, live);
    assert |a.bound.Keys| == |Used(st, order, live)| by {
      assert |a.bound| == |a.bound.Keys| && |a.holder| == |a.holder.Keys|;
    }
    BoundAreStamped(st, order, live);
    hide AfterPci, Cleared, Unstamped;
    assert |st.Keys - Unstamped(st) - a.bound.Keys| == |st.Keys| - |Unstamped(st)| - |a.bound.Keys|;
    assert |st| == |st.Keys|;
  }

  lemma BoundAreStamped(st: State, order: seq<string>, live: seq<Device>)
    requires Enumerates(order, st.Keys) && LiveBus(live)
    ensures AfterPci(ViewsOf(st, order), live).bound.Keys <= st.Keys - Unstamped(st)
    ensures Unstamped(st) <= st.Keys
  {
    hide AfterPci;
    var views := ViewsOf(st, order);
    ViewsDistinct(st, order);
    AfterPciSpec(views, live);
    forall n | n in AfterPci(views, live).bound ensures n in st && n !in Unstamped(st) {
      var j :| 0 <= j < |views| && views[j].name == n;
      assert order[j] in st;
      if n in Unstamped(st) {
        UnstampedNotBound(st, order, live, n);
      }
    }
  }

  lemma ClearedNames(st: State, order: seq<string>, live: seq<Device>)
    requires Enumerates(order, st.Keys) && LiveBus(live)
    ensures NamesOf(Cleared(ViewsOf(st, order), live)) ==
            st.Keys - Unstamped(st) - AfterPci(ViewsOf(st, order), live).bound.Keys
  {
    var views := ViewsOf(st, order);
    var a := AfterPci(views, live);
    var cleared := Cleared(views, live);
    hide HasIdentity;
    forall n ensures n in NamesOf(cleared) <==> n in st && n !in Unstamped(st) && n !in a.bound {
      if n in NamesOf(cleared) {
        var v :| v in cleared && v.name == n;
        UnboundMember(views, a, true, v);
        var j :| 0 <= j < |views| && views[j] == v;
        assert order[j] in st;
      }
      if n in st && n !in Unstamped(st) && n !in a.bound {
        var j :| 0 <= j < |order| && order[j] == n;
        assert views[j] in views;
        UnboundMember(views, a, true, views[j]);
      }
    }
  }

  // ----- Who is bound -----

  /** An unstamped DPU gets a card exactly when there are more spare cards than
      unstamped DPUs before it. */
  lemma UnstampedBoundIff(st: State, order: seq<string>, live: seq<Device>, n: string)
    requires Enumerates(order, st.Keys) && LiveBus(live) && n in Unstamped(st)
    ensures n in Allocation(ViewsOf(st, order), live).bound <==> |Below(st, n)| < Left(st, order, live)
  {
    hide HasIdentity, AfterPci, SortedEmpty, SortedSpare, Allocation, Below, Left, Unstamped, LiveBus;
    var views := ViewsOf(st, order);
    var empty, spare := SortedEmpty(views, live), SortedSpare(views, live);
    ViewsDistinct(st, order);
    SortedEmptySpec(views, live);
    EmptyNames(st, order, live);
    SpareCount(st, order, live);
    var v :| v in empty && v.name == n;
    var i :| 0 <= i < |empty| && empty[i] == v;
    PlaceInQueue(st, order, live, i);
    UnstampedNotBound(st, order, live, n);
    var k := Min(|empty|, |spare|);
    PairUpBound(empty, spare, k, AfterPci(views, live), n);
    InPrefixIff(empty, k, i);
    assert n in AfterEmpty(views, live).bound <==> i < k;
    LastPassSparesUnstamped(st, order, live, n);
  }

  /** The unstamped DPU with i unstamped DPUs before it gets the card with i free
      cards at lower addresses. */
  lemma UnstampedGets(st: State, order: seq<string>, live: seq<Device>, n: string)
    requires Enumerates(order, st.Keys) && LiveBus(live) && n in Unstamped(st)
    requires InventoryExact.DistinctAddresses(live) && |Below(st, n)| < Left(st, order, live)
    ensures var b := Allocation(ViewsOf(st, order), live).bound;
            && n in b && b[n] in live && b[n].serial !in Used(st, order, live)
            && |FreeBelow(live, Used(st, order, live), b[n].pci)| == |Below(st, n)|
  {
    hide HasIdentity, AfterPci, SortedEmpty, SortedSpare, Allocation, Below, Left, Unstamped, LiveBus;
    var views := ViewsOf(st, order);
    var empty, spare := SortedEmpty(views, live), SortedSpare(views, live);
    ViewsDistinct(st, order);
    LiveDistinct(live);
    SortedEmptySpec(views, live);
    SortedSpareSpec(views, live);
    EmptyNames(st, order, live);
    SpareCount(st, order, live);
    var v :| v in empty && v.name == n;
    var i :| 0 <= i < |empty| && empty[i] == v;
    PlaceInQueue(st, order, live, i);
    InventoryExact.PairUpGives(empty, spare, Min(|empty|, |spare|), AfterPci(views, live), i);
    assert AfterEmpty(views, live).bound[n] == spare[i];
    LastPassKeeps(views, live, n);
    InventoryExact.SpareIsSorted(views, live);
    InventoryExact.PlaceByAddress(spare, i);
    assert spare[i] in spare;
    hide Used;
    FreeIsSpare(spare, live, Used(st, order, live), spare[i].pci);
  }

  /** The addresses of the free cards below an address. */
  ghost function FreeBelow(live: seq<Device>, used: set<string>, p: string): set<string> {
    set i | 0 <= i < |live| && live[i].serial !in used && live[i].pci != p && Leq(live[i].pci, p) :: live[i].pci
  }

  lemma FreeIsSpare(spare: seq<Device>, live: seq<Device>, used: set<string>, p: string)
    requires forall d :: d in spare <==> d in live && d.serial !in used
    ensures FreeBelow(live, used, p) == InventoryExact.LowerAddresses(spare, p)
  {
    forall q ensures q in FreeBelow(live, used, p) <==> q in InventoryExact.Addresses(spare) && q != p && Leq(q, p) {
      if q in FreeBelow(live, used, p) {
        var i :| 0 <= i < |live| && live[i].serial !in used && live[i].pci == q && q != p && Leq(q, p);
        assert live[i] in spare;
        var k :| 0 <= k < |spare| && spare[k] == live[i];
        assert spare[k].pci == q;
      }
      if q in InventoryExact.Addresses(spare) && q != p && Leq(q, p) {
        var k :| 0 <= k < |spare| && spare[k].pci == q;
        assert spare[k] in spare;
        var i :| 0 <= i < |live| && live[i] == spare[k];
        assert live[i].serial !in used;
      }
    }
  }

  lemma LastPassKeeps(views: seq<View>, live: seq<Device>, n: string)
    requires DistinctNames(views) && DistinctSerials(live) && n in AfterEmpty(views, live).bound
    ensures n in Allocation(views, live).bound && Allocation(views, live).bound[n] == AfterEmpty(views, live).bound[n]
  {
    AllocationSound(views, live);
  }

  lemma InPrefixIff(e: seq<View>, k: nat, i: nat)
    requires DistinctNames(e) && k <= |e| && i < |e|
    ensures NameIn(e[..k], e[i].name) <==> i < k
  {
    if NameIn(e[..k], e[i].name) {
      var j :| 0 <= j < k && e[..k][j].name == e[i].name;
      assert e[j].name == e[i].name;
    }
    if i < k {
      assert e[..k][i].name == e[i].name;
    }
  }

  /** The last pass binds only stamped DPUs. */
  lemma LastPassSparesUnstamped(st: State, order: seq<string>, live: seq<Device>, n: string)
    requires Enumerates(order, st.Keys) && LiveBus(live) && n in Unstamped(st)
    ensures n in Allocation(ViewsOf(st, order), live).bound <==> n in AfterEmpty(ViewsOf(st, order), live).bound
  {
    hide AfterEmpty, Cleared, ViewsOf, LiveBus, StillUnbound, Unused, AfterPci, Unstamped, HasIdentity;
    var views := ViewsOf(st, order);
    var a := AfterEmpty(views, live);
    var still := StillUnbound(Cleared(views, live), a);
    ClearedNames(st, order, live);
    if |still| == 1 {
      assert still[0] in still;
      StillUnboundMember(Cleared(views, live), a, still[0]);
      assert still[0].name in NamesOf(Cleared(views, live));
      assert still[0].name != n;
    }
  }

  /** The third pass leaves the DPUs that are to be cleared as they are. */
  lemma {:induction false} AllStill(cleared: seq<View>, a: Alloc)
    requires forall i :: 0 <= i < |cleared| ==> cleared[i].name !in a.bound
    ensures StillUnbound(cleared, a) == cleared
  {
    if cleared != [] {
      var front, v := cleared[..|cleared| - 1], cleared[|cleared| - 1];
      AllStill(front, a);
      assert StillUnbound(cleared, a) == StillUnbound(front, a) + [v];
      assert cleared == front + [v];
    }
  }

  lemma ClearedAreStill(st: State, order: seq<string>, live: seq<Device>)
    requires Enumerates(order, st.Keys) && LiveBus(live)
    ensures var views := ViewsOf(st, order);
            StillUnbound(Cleared(views, live), AfterEmpty(views, live)) == Cleared(views, live)
  {
    var views := ViewsOf(st, order);
    var cleared, a := Cleared(views, live), AfterEmpty(views, live);
    ViewsDistinct(st, order);
    AfterEmptySpec(views, live);
    ClearedNames(st, order, live);
    EmptyNames(st, order, live);
    forall i | 0 <= i < |cleared| ensures cleared[i].name !in a.bound {
      assert cleared[i] in cleared && cleared[i].name in NamesOf(cleared);
      NotQueued(SortedEmpty(views, live), cleared[i].name);
    }
    AllStill(cleared, a);
  }

  lemma NotQueued(e: seq<View>, n: string)
    requires n !in NamesOf(e)
    ensures !NameIn(e, n)
  {
    forall i | 0 <= i < |e| ensures e[i].name != n {
      assert e[i] in e;
    }
  }

  lemma LeftoverCount(st: State, order: seq<string>, live: seq<Device>)
    requires Enumerates(order, st.Keys) && LiveBus(live)
    ensures var a := AfterEmpty(ViewsOf(st, order), live);
            |Unused(live, a.Used())| == if Left(st, order, live) < |Unstamped(st)| then 0 else Left(st, order, live) - |Unstamped(st)|
  {
    hide AfterPci, AfterEmpty, SortedSpare, SortedEmpty, Unstamped, Used, Unused;
    var views := ViewsOf(st, order);
    var spare := SortedSpare(views, live);
    var k := Min(|SortedEmpty(views, live)|, |spare|);
    EmptyNames(st, order, live);
    SpareCount(st, order, live);
    UsedAfterEmpty(st, order, live);
    SortedSpareSpec(views, live);
    SpareIsUntaken(st, order, live);
    SerialsCount(spare[..k]);
    PrefixIsFresh(spare, k, live, Used(st, order, live));
    UsedIsLive(st, order, live);
    UnusedCount(live, Used(st, order, live) + Serials(spare[..k]));
  }

  lemma UsedIsLive(st: State, order: seq<string>, live: seq<Device>)
    requires Enumerates(order, st.Keys) && LiveBus(live)
    ensures Used(st, order, live) <= Serials(live)
  {
    hide AfterPci;
    ViewsDistinct(st, order);
    AfterPciSpec(ViewsOf(st, order), live);
    HandedOutIsLive(AfterPci(ViewsOf(st, order), live), live);
  }

  lemma SpareIsUntaken(st: State, order: seq<string>, live: seq<Device>)
    requires Enumerates(order, st.Keys) && LiveBus(live)
    ensures forall d :: d in SortedSpare(ViewsOf(st, order), live) <==> d in live && d.serial !in Used(st, order, live)
  {
    SortedSpareSpec(ViewsOf(st, order), live);
  }

  lemma UsedAfterEmpty(st: State, order: seq<string>, live: seq<Device>)
    requires Enumerates(order, st.Keys) && LiveBus(live)
    ensures var views := ViewsOf(st, order);
            var spare := SortedSpare(views, live);
            AfterEmpty(views, live).Used() == Used(st, order, live) + Serials(spare[..Min(|SortedEmpty(views, live)|, |spare|)])
  {
    hide AfterPci, SortedSpare, SortedEmpty, Serials;
    var views := ViewsOf(st, order);
    var a, b := AfterPci(views, live), AfterEmpty(views, live);
    var empty, spare := SortedEmpty(views, live), SortedSpare(views, live);
    var k := Min(|empty|, |spare|);
    forall s ensures s in b.holder <==> s in Used(st, order, live) || s in Serials(spare[..k]) {
      PairUpUsed(empty, spare, k, a, s);
      InPrefixSerials(spare, k, s);
    }
  }

  lemma InPrefixSerials(spare: seq<Device>, k: nat, s: string)
    requires k <= |spare|
    ensures s in Serials(spare[..k]) <==> exists i :: 0 <= i < k && spare[i].serial == s
  {
    if s in Serials(spare[..k]) {
      var i :| 0 <= i < k && spare[..k][i].serial == s;
      assert spare[i].serial == s;
    }
    if i :| 0 <= i < k && spare[i].serial == s {
      assert spare[..k][i].serial == s;
    }
  }

  lemma PrefixIsFresh(spare: seq<Device>, k: nat, live: seq<Device>, taken: set<string>)
    requires k <= |spare| && forall d :: d in spare <==> d in live && d.serial !in taken
    ensures Serials(spare[..k]) !! taken && Serials(spare[..k]) <= Serials(live)
  {
    forall s | s in Serials(spare[..k]) ensures s !in taken && s in Serials(live) {
      var i :| 0 <= i < k && spare[..k][i].serial == s;
      assert spare[i] in spare;
      var j :| 0 <= j < |live| && live[j] == spare[i];
    }
  }

  lemma UnusedCount(live: seq<Device>, used: set<string>)
    requires DistinctSerials(live) && used <= Serials(live)
    ensures |Unused(live, used)| == |live| - |used|
  {
    var u := Unused(live, used);
    forall d ensures d in u <==> d in live && d.serial !in used {
      UnusedMember(live, used, d);
    }
    UnusedDistinct(live, used);
    SerialsCount(u);
    SerialsCount(live);
    SpareSerials(u, live, used);
  }

  /** A stamped DPU without a card of its own gets one exactly when it is the only
      such DPU and one card is left after the unstamped are served. */
  lemma LoserBoundIff(st: State, order: seq<string>, live: seq<Device>, n: string)
    requires Enumerates(order, st.Keys) && LiveBus(live)
    requires n in st && HasIdentity(st[n]) && n !in AfterPci(ViewsOf(st, order), live).bound
    ensures n in Allocation(ViewsOf(st, order), live).bound <==> Loose(st, order, live) == 1 && Left(st, order, live) == |Unstamped(st)| + 1
  {
    hide Cleared, AfterEmpty, Unused, StillUnbound, HasIdentity, Loose, Left, AfterPci, Allocation;
    var views := ViewsOf(st, order);
    ClearedNames(st, order, live);
    assert n in NamesOf(Cleared(views, live));
    var v :| v in Cleared(views, live) && v.name == n;
    ClearedAreStill(st, order, live);
    LosersCount(st, order, live);
    LeftoverCount(st, order, live);
    LastPass(views, live, v);
  }

  lemma LastPass(views: seq<View>, live: seq<Device>, v: View)
    requires v in Cleared(views, live) && StillUnbound(Cleared(views, live), AfterEmpty(views, live)) == Cleared(views, live)
    ensures v.name in Allocation(views, live).bound <==>
            |Cleared(views, live)| == 1 && |Unused(live, AfterEmpty(views, live).Used())| == 1
  {
    StillUnboundMember(Cleared(views, live), AfterEmpty(views, live), v);
    hide Cleared, AfterEmpty, Unused, StillUnbound;
  }
}
