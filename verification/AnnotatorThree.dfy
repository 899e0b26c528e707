/** Exactly when a third change of a stamp is possible, if reconciles may list the
    DPUs in orders that differ. */
module AnnotatorThree {
  import opened Text
  import opened Inventory
  import opened Annotator
  import opened AnnotatorRuns
  import opened AnnotatorCounts

  /** The address in a card's stamp leads to no other card. */
  ghost predicate OwnAddresses(live: seq<Device>) {
    forall a, i :: StampedAs(a, live, i) ==> OwnAddress(a, live, i)
  }

  ghost predicate OwnAddress(a: Annotations, live: seq<Device>, i: int)
    requires 0 <= i < |live|
  {
    ClaimedPCI(a) == "" || ByPCI(live, ClaimedPCI(a)).None? || ByPCI(live, ClaimedPCI(a)).value == live[i]
  }

  ghost predicate Setting(st: State, live: seq<Device>) {
    LiveBus(live) && OwnAddresses(live) && SerialLed(st, live)
  }

  /** There are more spare cards than unstamped DPUs before m. */
  ghost predicate Room(st: State, live: seq<Device>, m: string) {
    |Below(st, m)| < Spare(st, live)
  }

  /** The last pass applies: one DPU without a card of its own, one card left over. */
  ghost predicate Single(st: State, live: seq<Device>) {
    Losers(st, live) == 1 && Spare(st, live) == |Unstamped(st)| + 1
  }

  /** m shares a live claim without that card's stamp, a spare card is within its
      reach, and it would not be moved there directly. */
  ghost predicate CanThree(st: State, live: seq<Device>, m: string)
    requires m in st
  {
    LiveClaim(st[m], live) && !Unique(st, m) && !Exact(st[m], live) && Room(st, live, m) && !Single(st, live)
  }

  // ----- What a step does to the numbers -----

  ghost predicate Kept(st: State, st': State, live: seq<Device>) {
    Unstamped(st') == Unstamped(st) && Taken(st', live) == Taken(st, live)
  }

  ghost predicate Won(st: State, st': State, live: seq<Device>, n: string, c: string) {
    c in Serials(live) && c !in Taken(st, live) && Taken(st', live) == Taken(st, live) + {c} && Unstamped(st') == Unstamped(st) - {n}
  }

  ghost predicate Lost(st: State, st': State, live: seq<Device>, n: string) {
    n !in Unstamped(st) && Unstamped(st') == Unstamped(st) + {n} && Taken(st', live) == Taken(st, live)
  }

  /** Who is listed after another claimant shares its claim. */
  lemma NotFirstIsShared(st: State, order: seq<string>, n: string)
    requires Enumerates(order, st.Keys) && n in st && !First(st, order, n)
    ensures !Unique(st, n)
  {
    if Unique(st, n) {
      UniqueIsFirst(st, order, n);
    }
  }

  lemma ClaimsAfter(st: State, st': State, n: string, s: string)
    requires st'.Keys == st.Keys && n in st && forall m :: m in st && m != n ==> st'[m] == st[m]
    requires ClaimedSerial(st[n]) == s ==> ClaimedSerial(st'[n]) == s || !Unique(st, n)
    ensures !Unclaimed(st', s) <==> !Unclaimed(st, s) || ClaimedSerial(st'[n]) == s
  {
    hide ClaimedSerial;
    if !Unclaimed(st, s) && ClaimedSerial(st'[n]) != s {
      if ClaimedSerial(st[n]) == s {
        var k :| k in st && k != n && ClaimedSerial(st[k]) == ClaimedSerial(st[n]);
        assert ClaimedSerial(st'[k]) == s;
      } else {
        var k :| k in st && ClaimedSerial(st[k]) == s;
        assert ClaimedSerial(st'[k]) == s;
      }
    }
  }

  /** A step keeps the numbers, wins an unclaimed card for n, or clears n. */
  lemma StepNumbers(st: State, order: seq<string>, live: seq<Device>, fw: Firmware, n: string)
    requires Enumerates(order, st.Keys) && n in st && LiveBus(live)
    ensures var st' := Step(st, order, live, fw, n);
            && st'.Keys == st.Keys && (forall m :: m in st && m != n ==> st'[m] == st[m])
            && (Kept(st, st', live) || Won(st, st', live, n, ClaimedSerial(st'[n])) || Lost(st, st', live, n))
            && (Stamp(st'[n]) == map[] && HasIdentity(st[n]) ==> Lost(st, st', live, n))
            && (LiveClaim(st[n], live) && First(st, order, n) ==> Kept(st, st', live))
            && Taken(st, live) <= Taken(st', live)
  {
    hide Step, First, Exact, Stamp, ClaimedSerial, HasIdentity, LiveBus, Kept, Won, Lost, Unique, Unclaimed, IsLiveSerial;
    var st' := Step(st, order, live, fw, n);
    StepOutcome(st, order, live, fw, n);
    if LiveClaim(st[n], live) && First(st, order, n) {
      FirstCase(st, st', live, n);
    } else {
      if LiveClaim(st[n], live) {
        NotFirstIsShared(st, order, n);
      }
      if Exact(st'[n], live) && Unclaimed(st, ClaimedSerial(st'[n])) {
        WonCase(st, st', live, n);
      } else if Stamp(st'[n]) == map[] && HasIdentity(st[n]) {
        LostCase(st, st', live, n);
      } else {
        RestCase(st, st', live, n);
      }
    }
  }

  ghost predicate OnlyAt(st: State, st': State, n: string) {
    st'.Keys == st.Keys && n in st && forall m :: m in st && m != n ==> st'[m] == st[m]
  }

  lemma FirstCase(st: State, st': State, live: seq<Device>, n: string)
    requires LiveBus(live) && OnlyAt(st, st', n) && LiveClaim(st[n], live)
    requires Exact(st'[n], live) && ClaimedSerial(st'[n]) == ClaimedSerial(st[n])
    ensures Kept(st, st', live) && Taken(st, live) <= Taken(st', live) && Stamp(st'[n]) != map[]
  {
    ExactClaims(st'[n], live);
    ClaimIsIdentity(st[n]);
    StampedNotEmpty(st'[n]);
    hide ClaimedSerial, HasIdentity, Exact, Stamp, LiveBus;
    SameClaims(st, st', live, n);
  }

  lemma WonCase(st: State, st': State, live: seq<Device>, n: string)
    requires LiveBus(live) && OnlyAt(st, st', n) && (LiveClaim(st[n], live) ==> !Unique(st, n))
    requires Exact(st'[n], live) && Unclaimed(st, ClaimedSerial(st'[n]))
    ensures Won(st, st', live, n, ClaimedSerial(st'[n])) && Taken(st, live) <= Taken(st', live) && Stamp(st'[n]) != map[]
  {
    var c := ClaimedSerial(st'[n]);
    ExactClaims(st'[n], live);
    StampedNotEmpty(st'[n]);
    LiveSerialIff(live, c);
    OtherClaims(st, st', live, n);
    hide ClaimedSerial, HasIdentity, Exact, Stamp, LiveBus, Unclaimed;
    assert c !in Taken(st, live);
    assert (set s | s in Serials(live) && s == c) == {c};
  }

  lemma LostCase(st: State, st': State, live: seq<Device>, n: string)
    requires LiveBus(live) && OnlyAt(st, st', n) && (LiveClaim(st[n], live) ==> !Unique(st, n))
    requires Stamp(st'[n]) == map[] && HasIdentity(st[n])
    ensures Lost(st, st', live, n) && Taken(st, live) <= Taken(st', live)
  {
    StrippedIsEmpty(st'[n]);
    LiveSerialIff(live, "");
    OtherClaims(st, st', live, n);
    hide ClaimedSerial, HasIdentity, Stamp, LiveBus, Unclaimed;
    assert (set s | s in Serials(live) && s == "") == {};
  }

  lemma RestCase(st: State, st': State, live: seq<Device>, n: string)
    requires LiveBus(live) && OnlyAt(st, st', n) && !HasIdentity(st[n]) && Stamp(st'[n]) == Stamp(st[n])
    ensures Kept(st, st', live) && Taken(st, live) <= Taken(st', live)
  {
    StampDecides(st'[n], st[n]);
    hide ClaimedSerial, HasIdentity, Stamp, LiveBus;
    SameClaims(st, st', live, n);
  }

  lemma StampedNotEmpty(a: Annotations)
    requires HasIdentity(a)
    ensures Stamp(a) != map[]
  {
    if Stamp(a) == map[] {
      StrippedIsEmpty(a);
    }
  }

  lemma SameClaims(st: State, st': State, live: seq<Device>, n: string)
    requires st'.Keys == st.Keys && n in st && forall m :: m in st && m != n ==> st'[m] == st[m]
    requires ClaimedSerial(st'[n]) == ClaimedSerial(st[n]) && HasIdentity(st'[n]) == HasIdentity(st[n])
    ensures Kept(st, st', live)
  {
    hide ClaimedSerial, HasIdentity;
    forall s | s in Serials(live) ensures Unclaimed(st', s) <==> Unclaimed(st, s) {
      ClaimsAfter(st, st', n, s);
    }
  }

  /** The claimed live serials are those before the step, and what n claims now. */
  lemma OtherClaims(st: State, st': State, live: seq<Device>, n: string)
    requires LiveBus(live) && st'.Keys == st.Keys && n in st && forall m :: m in st && m != n ==> st'[m] == st[m]
    requires LiveClaim(st[n], live) ==> !Unique(st, n)
    ensures Taken(st', live) == Taken(st, live) + set s | s in Serials(live) && s == ClaimedSerial(st'[n])
    ensures Unstamped(st') == (if HasIdentity(st'[n]) then Unstamped(st) - {n} else Unstamped(st) + {n})
  {
    hide ClaimedSerial, HasIdentity;
    forall s | s in Serials(live) ensures !Unclaimed(st', s) <==> !Unclaimed(st, s) || ClaimedSerial(st'[n]) == s {
      LiveSerialIff(live, s);
      ClaimsAfter(st, st', n, s);
    }
  }

  // ----- The setting is kept -----

  lemma IdleStays(st: State, st': State, a: Annotations, live: seq<Device>)
    requires LiveBus(live) && Taken(st, live) <= Taken(st', live) && PciIdle(st, a, live)
    ensures PciIdle(st', a, live)
  {
    if ClaimedPCI(a) != "" && ByPCI(live, ClaimedPCI(a)).Some? {
      var d := ByPCI(live, ClaimedPCI(a)).value;
      var i :| 0 <= i < |live| && live[i] == d;
      assert d.serial in Serials(live) && d.serial in Taken(st, live);
    }
  }

  lemma ExactIdle(st: State, n: string, live: seq<Device>)
    requires LiveBus(live) && OwnAddresses(live) && n in st && Exact(st[n], live)
    ensures PciIdle(st, st[n], live)
  {
    var i :| StampedAs(st[n], live, i);
    StampedClaims(st[n], live, i);
    assert OwnAddress(st[n], live, i);
  }

  lemma StrippedIdle(st: State, a: Annotations, live: seq<Device>)
    requires Stamp(a) == map[]
    ensures PciIdle(st, a, live)
  {
    StampDecides(a, map[]);
    assert Trim("") == "";
  }

  lemma SameStampIdle(st: State, a: Annotations, b: Annotations, live: seq<Device>)
    requires Stamp(a) == Stamp(b) && PciIdle(st, a, live)
    ensures PciIdle(st, b, live)
  {
    StampDecides(a, b);
  }

  lemma SettingStays(st: State, order: seq<string>, live: seq<Device>, fw: Firmware, n: string)
    requires Enumerates(order, st.Keys) && n in st && Setting(st, live)
    ensures Setting(Step(st, order, live, fw, n), live)
  {
    hide Step, First, Exact, Stamp, ClaimedSerial, HasIdentity, LiveBus, Kept, Won, Lost, Unique, Unclaimed, Taken, PciIdle, OwnAddresses, LiveClaim;
    var st' := Step(st, order, live, fw, n);
    StepNumbers(st, order, live, fw, n);
    StepOutcome(st, order, live, fw, n);
    forall m | m in st' ensures PciIdle(st', st'[m], live) {
      assert PciIdle(st, st[m], live);
      IdleStays(st, st', st[m], live);
      if m == n {
        if Exact(st'[n], live) {
          ExactIdle(st', n, live);
        } else if Stamp(st'[n]) == map[] {
          StrippedIdle(st', st'[n], live);
        } else {
          SameStampIdle(st', st[n], st'[n], live);
        }
      }
    }
  }

  // ----- Room never grows, and the last pass keeps waiting -----

  /** Room and losers only shrink, and what they are measured against stays. */
  ghost predicate Shrinks(st: State, st': State, live: seq<Device>, m: string) {
    && (Room(st', live, m) ==> Room(st, live, m))
    && Losers(st', live) <= Losers(st, live)
    && Spare(st', live) - |Unstamped(st')| - Losers(st', live) == Spare(st, live) - |Unstamped(st)| - Losers(st, live)
  }

  lemma RoomShrinks(st: State, st': State, live: seq<Device>, n: string, m: string)
    requires st'.Keys == st.Keys && n in st
    requires Kept(st, st', live) || Won(st, st', live, n, ClaimedSerial(st'[n])) || Lost(st, st', live, n)
    ensures Shrinks(st, st', live, m)
  {
    hide ClaimedSerial, HasIdentity, Unstamped, Taken, Below;
    assert |st| == |st.Keys| && |st'| == |st'.Keys|;
    BelowCounts(st, st', n, m);
    var c := ClaimedSerial(st'[n]);
    if Won(st, st', live, n, c) {
      assert |Taken(st, live) + {c}| == |Taken(st, live)| + 1;
    }
  }

  lemma BelowCounts(st: State, st': State, n: string, m: string)
    ensures Unstamped(st') == Unstamped(st) ==> |Below(st', m)| == |Below(st, m)|
    ensures Unstamped(st') == Unstamped(st) - {n} ==> |Below(st', m)| + 1 >= |Below(st, m)| && |Unstamped(st')| + 1 >= |Unstamped(st)|
    ensures Unstamped(st') == Unstamped(st) + {n} && n !in Unstamped(st) ==>
              |Below(st', m)| >= |Below(st, m)| && |Unstamped(st')| == |Unstamped(st)| + 1
  {
    BelowIn(st, m);
    BelowIn(st', m);
    var u, u', b, b' := Unstamped(st), Unstamped(st'), Below(st, m), Below(st', m);
    hide Unstamped, Below;
    if u' == u {
      assert b' == b;
    }
    if u' == u - {n} {
      CardLeq(b, b' + {n});
      CardLeq(u, u' + {n});
    }
    if u' == u + {n} {
      CardLeq(b, b');
    }
  }

  lemma BelowIn(st: State, m: string)
    ensures forall n :: n in Below(st, m) <==> n in Unstamped(st) && n != m && Leq(n, m)
  {
  }

  /** Of two DPUs that share a live claim one has no card of its own. */
  lemma SharedLoses(st: State, order: seq<string>, live: seq<Device>, m: string)
    requires Enumerates(order, st.Keys) && LiveBus(live) && SerialLed(st, live)
    requires m in st && LiveClaim(st[m], live) && !Unique(st, m)
    ensures Losers(st, live) >= 1
  {
    var k :| k in st && k != m && ClaimedSerial(st[k]) == ClaimedSerial(st[m]);
    var views := ViewsOf(st, order);
    ClaimIsIdentity(st[m]);
    ClaimIsIdentity(st[k]);
    LosersCount(st, order, live);
    UsedWhenSerialLed(st, order, live);
    PciPassDoesNothing(st, order, live);
    ClearedNames(st, order, live);
    var bound := SerialPass(views, live).bound;
    assert m !in bound || k !in bound by {
      BoundIsFirst(st, order, live, m);
      BoundIsFirst(st, order, live, k);
      if m in bound && k in bound {
        FirstIsAlone(st, order, m, k);
      }
    }
    hide ClaimedSerial, HasIdentity, SerialPass, Cleared, Losers;
    var x := if m !in bound then m else k;
    assert x in NamesOf(Cleared(views, live));
    SomeName(Cleared(views, live), x);
  }

  lemma SomeName(views: seq<View>, x: string)
    requires x in NamesOf(views)
    ensures |views| >= 1
  {
  }

  lemma BoundIsFirst(st: State, order: seq<string>, live: seq<Device>, n: string)
    requires Enumerates(order, st.Keys) && LiveBus(live) && n in st
    ensures n in SerialPass(ViewsOf(st, order), live).bound <==> LiveClaim(st[n], live) && First(st, order, n)
  {
    var views := ViewsOf(st, order);
    ViewsDistinct(st, order);
    var j :| 0 <= j < |order| && order[j] == n;
    assert views[j] == View(n, st[n]);
    SerialPassFirst(views, live, j);
    FirstHere(st, order, n, j);
  }

  // ----- Single steps of m -----

  lemma DeviceIff(st: State, order: seq<string>, live: seq<Device>, n: string)
    requires Enumerates(order, st.Keys) && n in st
    ensures AssignmentFor(ViewsOf(st, order), live, n).device.Some? <==> n in Allocation(ViewsOf(st, order), live).bound
  {
    hide Allocation, Cleared;
  }

  /** An unstamped DPU's stamp changes exactly when there is room. */
  lemma UnstampedStep(st: State, order: seq<string>, live: seq<Device>, fw: Firmware, m: string)
    requires Enumerates(order, st.Keys) && Setting(st, live) && m in Unstamped(st)
    ensures var st' := Step(st, order, live, fw, m);
            m in st' && (Stamp(st'[m]) != Stamp(st[m]) <==> Room(st, live, m)) && (Room(st, live, m) ==> Exact(st'[m], live))
  {
    hide Step, AssignmentFor, Allocation, Stamp, LiveBus, SerialLed, OwnAddresses, Below, Spare, HasIdentity, DesiredAnnotations, Exact;
    UnstampedBoundIff(st, order, live, m);
    UsedWhenSerialLed(st, order, live);
    DeviceIff(st, order, live, m);
    CardIsLive(st, order, live, m);
    StepWritesDesired(st, order, live, fw, m);
    var asg := AssignmentFor(ViewsOf(st, order), live, m);
    if asg.device.Some? {
      var i :| 0 <= i < |live| && live[i] == asg.device.value;
      BoundStamp(st[m], asg, fw, live, i);
      var after := DesiredAnnotations(st[m], asg, fw).value;
      ExactAt(after, live, i);
      ExactClaims(after, live);
      if Stamp(after) == Stamp(st[m]) {
        StampDecides(after, st[m]);
      }
    } else {
      NotMarked(st, order, live, m);
      UntouchedWhenUnbound(st[m], fw);
    }
  }

  lemma ExactAt(a: Annotations, live: seq<Device>, i: int)
    requires StampedAs(a, live, i)
    ensures Exact(a, live)
  {
  }

  lemma UntouchedWhenUnbound(a: Annotations, fw: Firmware)
    ensures DesiredAnnotations(a, Assignment(None, false), fw) == Some(a)
  {
  }

  lemma NotMarked(st: State, order: seq<string>, live: seq<Device>, m: string)
    requires Enumerates(order, st.Keys) && m in Unstamped(st)
    ensures !AssignmentFor(ViewsOf(st, order), live, m).clear
  {
    hide AssignmentFor, AfterPci;
    ViewsDistinct(st, order);
    var j :| 0 <= j < |order| && order[j] == m;
    assert ViewsOf(st, order)[j] == View(m, st[m]);
    ClearMark(ViewsOf(st, order), live, j);
  }

  /** A stamped DPU without a card of its own is cleared, unless the last pass applies. */
  lemma LoserStep(st: State, order: seq<string>, live: seq<Device>, fw: Firmware, m: string)
    requires Enumerates(order, st.Keys) && Setting(st, live)
    requires m in st && LiveClaim(st[m], live) && !First(st, order, m)
    ensures var st' := Step(st, order, live, fw, m);
            m in st' && (Stamp(st'[m]) == map[] <==> !Single(st, live)) && (Single(st, live) ==> Exact(st'[m], live))
  {
    ClaimIsIdentity(st[m]);
    hide Step, AssignmentFor, Allocation, Stamp, LiveBus, SerialLed, OwnAddresses, HasIdentity, DesiredAnnotations, Exact, Losers, Spare;
    BoundIsFirst(st, order, live, m);
    PciPassDoesNothing(st, order, live);
    UsedWhenSerialLed(st, order, live);
    LoserBoundIff(st, order, live, m);
    DeviceIff(st, order, live, m);
    CardIsLive(st, order, live, m);
    StepWritesDesired(st, order, live, fw, m);
    var asg := AssignmentFor(ViewsOf(st, order), live, m);
    if asg.device.Some? {
      var i :| 0 <= i < |live| && live[i] == asg.device.value;
      BoundStamp(st[m], asg, fw, live, i);
      var after := DesiredAnnotations(st[m], asg, fw).value;
      ExactAt(after, live, i);
      ExactClaims(after, live);
      StampedNotEmpty(after);
    } else {
      Marked(st, order, live, m);
      ClearedStamp(st[m], fw);
      ClearedIsSome(st[m], fw);
    }
  }

  lemma ClearedIsSome(a: Annotations, fw: Firmware)
    ensures DesiredAnnotations(a, Assignment(None, true), fw).Some?
  {
  }

  lemma Marked(st: State, order: seq<string>, live: seq<Device>, m: string)
    requires Enumerates(order, st.Keys) && LiveBus(live) && SerialLed(st, live)
    requires m in st && HasIdentity(st[m]) && m !in SerialPass(ViewsOf(st, order), live).bound
    ensures AssignmentFor(ViewsOf(st, order), live, m).clear
  {
    PciPassDoesNothing(st, order, live);
    hide AssignmentFor, AfterPci, SerialPass;
    ViewsDistinct(st, order);
    var j :| 0 <= j < |order| && order[j] == m;
    assert ViewsOf(st, order)[j] == View(m, st[m]);
    ClearMark(ViewsOf(st, order), live, j);
  }
}
