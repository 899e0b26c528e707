/** Whole runs of the annotator on a fixed bus: any DPU may reconcile at any
    time, and each reconcile may list the DPUs in any order. */
module AnnotatorRuns {
  import opened Text
  import opened Inventory
  import opened Annotator

  datatype Move = Move(dpu: string, order: seq<string>)

  ghost predicate Legal(st: State, moves: seq<Move>) {
    forall i :: 0 <= i < |moves| ==> moves[i].dpu in st && Enumerates(moves[i].order, st.Keys)
  }

  lemma StepKeys(st: State, order: seq<string>, live: seq<Device>, fw: Firmware, n: string)
    requires Enumerates(order, st.Keys) && n in st
    ensures Step(st, order, live, fw, n).Keys == st.Keys
  {
  }

  ghost function Run(st: State, moves: seq<Move>, live: seq<Device>, fw: Firmware): (end: State)
    requires Legal(st, moves)
    ensures end.Keys == st.Keys
    decreases |moves|
  {
    if moves == [] then st
    else
      StepKeys(st, moves[0].order, live, fw, moves[0].dpu);
      Run(Step(st, moves[0].order, live, fw, moves[0].dpu), moves[1..], live, fw)
  }

  /** How many moves of the run change the identity stamp of `m`. */
  ghost function Changes(st: State, moves: seq<Move>, live: seq<Device>, fw: Firmware, m: string): nat
    requires Legal(st, moves) && m in st
    decreases |moves|
  {
    if moves == [] then 0
    else
      StepKeys(st, moves[0].order, live, fw, moves[0].dpu);
      var st' := Step(st, moves[0].order, live, fw, moves[0].dpu);
      (if Stamp(st'[m]) != Stamp(st[m]) then 1 else 0) + Changes(st', moves[1..], live, fw, m)
  }

  // ----- Exact stamps -----

  lemma ExactClaims(a: Annotations, live: seq<Device>)
    requires LiveBus(live) && Exact(a, live)
    ensures LiveClaim(a, live) && HasIdentity(a)
  {
    var i :| StampedAs(a, live, i);
    StampedClaims(a, live, i);
    assert live[i].serial == ClaimedSerial(a);
  }

  lemma ExactSame(a: Annotations, b: Annotations, live: seq<Device>)
    requires LiveBus(live) && Exact(a, live) && Exact(b, live)
    requires ClaimedSerial(a) == ClaimedSerial(b)
    ensures Stamp(a) == Stamp(b)
  {
    var i :| StampedAs(a, live, i);
    var j :| StampedAs(b, live, j);
    StampedClaims(a, live, i);
    StampedClaims(b, live, j);
    assert live[i].serial == live[j].serial;
    assert i == j;
  }

  lemma ExactByStamp(a: Annotations, b: Annotations, live: seq<Device>)
    requires Stamp(a) == Stamp(b) && Exact(a, live)
    ensures Exact(b, live)
  {
    var i :| StampedAs(a, live, i);
    assert StampedAs(b, live, i);
  }

  // ----- Safety of claims -----

  /** What a step by n does to the set of claims: n keeps its claim, drops it, or
      claims a serial nobody claimed. */
  lemma StepClaims(st: State, order: seq<string>, live: seq<Device>, fw: Firmware, n: string)
    requires Enumerates(order, st.Keys) && n in st && LiveBus(live)
    ensures Step(st, order, live, fw, n).Keys == st.Keys
    ensures var s := ClaimedSerial(Step(st, order, live, fw, n)[n]);
            s == ClaimedSerial(st[n]) || s == "" || Unclaimed(st, s)
  {
    StepOutcome(st, order, live, fw, n);
    var after := Step(st, order, live, fw, n)[n];
    if Stamp(after) == map[] {
      StrippedIsEmpty(after);
    } else if Stamp(after) == Stamp(st[n]) {
      StampDecides(after, st[n]);
    }
  }

  /** A sole claimant of a live serial keeps the serial, and keeps it alone,
      whoever reconciles. */
  lemma SoleClaimStays(st: State, order: seq<string>, live: seq<Device>, fw: Firmware, n: string, m: string)
    requires Enumerates(order, st.Keys) && n in st && m in st && LiveBus(live)
    requires LiveClaim(st[m], live) && Unique(st, m)
    ensures var st' := Step(st, order, live, fw, n);
            st'.Keys == st.Keys && ClaimedSerial(st'[m]) == ClaimedSerial(st[m]) && Unique(st', m)
  {
    StepOutcome(st, order, live, fw, n);
    StepClaims(st, order, live, fw, n);
    UniqueIsFirst(st, order, m);
  }

  /** No two DPUs claim the same live serial. */
  ghost predicate NoDoubleClaim(st: State, live: seq<Device>) {
    forall m :: m in st && LiveClaim(st[m], live) ==> Unique(st, m)
  }

  lemma StepKeepsNoDoubleClaim(st: State, order: seq<string>, live: seq<Device>, fw: Firmware, n: string)
    requires Enumerates(order, st.Keys) && n in st && LiveBus(live) && NoDoubleClaim(st, live)
    ensures NoDoubleClaim(Step(st, order, live, fw, n), live)
  {
    var st' := Step(st, order, live, fw, n);
    StepOutcome(st, order, live, fw, n);
    StepClaims(st, order, live, fw, n);
    forall m | m in st' && LiveClaim(st'[m], live) ensures Unique(st', m) {
      if m != n || ClaimedSerial(st'[n]) == ClaimedSerial(st[n]) {
        SoleClaimStays(st, order, live, fw, n, m);
      }
    }
  }

  /** Over every run: no live serial is ever claimed twice, and whoever claims a
      live serial still claims that serial at the end. */
  lemma {:induction false} RunIsSafe(st: State, moves: seq<Move>, live: seq<Device>, fw: Firmware, m: string)
    requires Legal(st, moves) && LiveBus(live) && NoDoubleClaim(st, live) && m in st
    ensures NoDoubleClaim(Run(st, moves, live, fw), live)
    ensures LiveClaim(st[m], live) ==> ClaimedSerial(Run(st, moves, live, fw)[m]) == ClaimedSerial(st[m])
    decreases |moves|
  {
    if moves != [] {
      var st' := Step(st, moves[0].order, live, fw, moves[0].dpu);
      StepKeepsNoDoubleClaim(st, moves[0].order, live, fw, moves[0].dpu);
      StepKeys(st, moves[0].order, live, fw, moves[0].dpu);
      if LiveClaim(st[m], live) {
        SoleClaimStays(st, moves[0].order, live, fw, moves[0].dpu, m);
      }
      RunIsSafe(st', moves[1..], live, fw, m);
    }
  }

  /** A key the annotator never writes: neither identity nor firmware. */
  ghost predicate ForeignKey(k: Key) {
    !IsIdentityKey(k) && !k.FirmwareUrlKey? && !k.FlavorKey? && !k.FirmwareNameKey?
  }

  lemma StepKeepsForeign(st: State, order: seq<string>, live: seq<Device>, fw: Firmware, n: string, m: string, k: Key)
    requires Enumerates(order, st.Keys) && n in st && m in st && ForeignKey(k)
    ensures var st' := Step(st, order, live, fw, n);
            m in st' && (k in st'[m] <==> k in st[m]) && (k in st[m] ==> st'[m][k] == st[m][k])
  {
    hide AssignmentFor, AnnotationsEqual, IsIdentityKey;
    var asg := AssignmentFor(ViewsOf(st, order), live, n);
    if DesiredAnnotations(st[n], asg, fw).Some? {
      DesiredKeepsTheRest(st[n], asg, fw, k);
    }
    hide DesiredAnnotations;
  }

  /** Over every run an annotation that is neither identity nor firmware stays as it was. */
  lemma {:induction false} RunKeepsForeign(st: State, moves: seq<Move>, live: seq<Device>, fw: Firmware, m: string, k: Key)
    requires Legal(st, moves) && m in st && ForeignKey(k)
    ensures var end := Run(st, moves, live, fw); (k in end[m] <==> k in st[m]) && (k in st[m] ==> end[m][k] == st[m][k])
    decreases |moves|
  {
    hide ForeignKey;
    if moves != [] {
      StepKeys(st, moves[0].order, live, fw, moves[0].dpu);
      StepKeepsForeign(st, moves[0].order, live, fw, moves[0].dpu, m, k);
      hide Step;
      RunKeepsForeign(Step(st, moves[0].order, live, fw, moves[0].dpu), moves[1..], live, fw, m, k);
    }
  }

  // ----- Convergence: how often a stamp can change -----

  /** An upper bound on the stamp changes DPU n can still see. */
  ghost function Rank(st: State, live: seq<Device>, n: string): (r: nat)
    requires n in st
    ensures r <= 3
    ensures r == 3 <==> LiveClaim(st[n], live) && !Unique(st, n) && !Exact(st[n], live)
  {
    if LiveClaim(st[n], live) then
      (if Unique(st, n) then 0 else 2) + (if Exact(st[n], live) then 0 else 1)
    else if HasIdentity(st[n]) then 2 else 1
  }

  lemma StepRankSelf(st: State, order: seq<string>, live: seq<Device>, fw: Firmware, n: string)
    requires Enumerates(order, st.Keys) && n in st && LiveBus(live)
    ensures var st' := Step(st, order, live, fw, n);
            && n in st' && Rank(st', live, n) <= Rank(st, live, n)
            && (Stamp(st'[n]) != Stamp(st[n]) ==> Rank(st', live, n) < Rank(st, live, n))
  {
    var st' := Step(st, order, live, fw, n);
    StepOutcome(st, order, live, fw, n);
    if LiveClaim(st[n], live) && First(st, order, n) {
      assert Unique(st, n) == Unique(st', n);
      if Exact(st[n], live) {
        ExactSame(st[n], st'[n], live);
      }
    } else if Exact(st'[n], live) && Unclaimed(st, ClaimedSerial(st'[n])) {
      ExactClaims(st'[n], live);
      assert Unique(st', n);
      if LiveClaim(st[n], live) && Unique(st, n) {
        UniqueIsFirst(st, order, n);
      }
    } else if Stamp(st'[n]) == map[] {
      StrippedIsEmpty(st'[n]);
      if LiveClaim(st[n], live) && Unique(st, n) {
        UniqueIsFirst(st, order, n);
      }
    } else {
      StampDecides(st'[n], st[n]);
    }
  }

  lemma StepRankOther(st: State, order: seq<string>, live: seq<Device>, fw: Firmware, n: string, m: string)
    requires Enumerates(order, st.Keys) && n in st && m in st && m != n && LiveBus(live)
    ensures var st' := Step(st, order, live, fw, n);
            m in st' && st'[m] == st[m] && Rank(st', live, m) <= Rank(st, live, m)
  {
    StepOutcome(st, order, live, fw, n);
    if LiveClaim(st[m], live) && Unique(st, m) {
      SoleClaimStays(st, order, live, fw, n, m);
    }
  }

  /** In every run the stamp of a DPU changes at most Rank times: at most three,
      and at most two unless it starts out sharing a live serial with a stamp
      that is not that card's. */
  lemma {:induction false} ChangesBounded(st: State, moves: seq<Move>, live: seq<Device>, fw: Firmware, m: string)
    requires Legal(st, moves) && LiveBus(live) && m in st
    ensures Changes(st, moves, live, fw, m) + Rank(Run(st, moves, live, fw), live, m) <= Rank(st, live, m)
    decreases |moves|
  {
    if moves != [] {
      var n := moves[0].dpu;
      var st' := Step(st, moves[0].order, live, fw, n);
      StepKeys(st, moves[0].order, live, fw, n);
      ChangesBounded(st', moves[1..], live, fw, m);
      if m == n {
        StepRankSelf(st, moves[0].order, live, fw, n);
      } else {
        StepRankOther(st, moves[0].order, live, fw, n, m);
      }
    }
  }

  lemma ChangesAtMostTwice(st: State, moves: seq<Move>, live: seq<Device>, fw: Firmware, m: string)
    requires Legal(st, moves) && LiveBus(live) && m in st && NoDoubleClaim(st, live)
    ensures Changes(st, moves, live, fw, m) <= 2
  {
    ChangesBounded(st, moves, live, fw, m);
  }

  // ----- The same bound when every reconcile lists in the same order -----

  ghost function RankListed(st: State, order: seq<string>, live: seq<Device>, n: string): (r: nat)
    requires n in st && Enumerates(order, st.Keys)
    ensures r <= 2
  {
    if LiveClaim(st[n], live) && First(st, order, n) then (if Exact(st[n], live) then 0 else 1)
    else if HasIdentity(st[n]) then 2 else 1
  }

  lemma FirstKept(st: State, st': State, order: seq<string>, m: string)
    requires st'.Keys == st.Keys && m in st && Enumerates(order, st.Keys)
    requires ClaimedSerial(st'[m]) == ClaimedSerial(st[m])
    requires forall k :: k in st && k != m ==>
               ClaimedSerial(st'[k]) == ClaimedSerial(st[k]) || ClaimedSerial(st'[k]) != ClaimedSerial(st[m])
    requires First(st, order, m)
    ensures First(st', order, m)
  {
    var v, v' := ViewsOf(st, order), ViewsOf(st', order);
    var j :| 0 <= j < |order| && order[j] == m && FirstClaimant(v, j);
    forall i | 0 <= i < j ensures ClaimedSerial(v'[..j][i].ann) != ClaimedSerial(v'[j].ann) {
      assert ClaimedSerial(v[..j][i].ann) != ClaimedSerial(v[j].ann);
      assert order[i] in st && order[i] != m;
    }
    assert FirstClaimant(v', j);
  }

  lemma StepRankListedSelf(st: State, order: seq<string>, live: seq<Device>, fw: Firmware, n: string)
    requires Enumerates(order, st.Keys) && n in st && LiveBus(live)
    ensures var st' := Step(st, order, live, fw, n);
            && st'.Keys == st.Keys && RankListed(st', order, live, n) <= RankListed(st, order, live, n)
            && (Stamp(st'[n]) != Stamp(st[n]) ==> RankListed(st', order, live, n) < RankListed(st, order, live, n))
  {
    hide Step, ClaimedSerial, HasIdentity, First, Exact, Stamp, IsLiveSerial;
    var st' := Step(st, order, live, fw, n);
    StepOutcome(st, order, live, fw, n);
    if LiveClaim(st[n], live) && First(st, order, n) {
      FirstKept(st, st', order, n);
      if Exact(st[n], live) {
        ExactSame(st[n], st'[n], live);
      }
    } else if Exact(st'[n], live) && Unclaimed(st, ClaimedSerial(st'[n])) {
      ExactClaims(st'[n], live);
      assert Unique(st', n);
      UniqueIsFirst(st', order, n);
    } else if Stamp(st'[n]) == map[] {
      StrippedIsEmpty(st'[n]);
    } else {
      StampDecides(st'[n], st[n]);
      ClaimIsIdentity(st[n]);
    }
  }

  lemma StepRankListedOther(st: State, order: seq<string>, live: seq<Device>, fw: Firmware, n: string, m: string)
    requires Enumerates(order, st.Keys) && n in st && m in st && m != n && LiveBus(live)
    ensures var st' := Step(st, order, live, fw, n);
            st'.Keys == st.Keys && st'[m] == st[m] && RankListed(st', order, live, m) <= RankListed(st, order, live, m)
  {
    hide Step, ClaimedSerial, HasIdentity, First, Exact, IsLiveSerial;
    var st' := Step(st, order, live, fw, n);
    StepOutcome(st, order, live, fw, n);
    StepClaims(st, order, live, fw, n);
    ClaimIsIdentity(st[m]);
    if LiveClaim(st[m], live) && First(st, order, m) {
      FirstKept(st, st', order, m);
    }
  }

  lemma ClaimIsIdentity(a: Annotations)
    ensures ClaimedSerial(a) != "" ==> HasIdentity(a)
  {
  }

  /** From any state whatever, with one listing order: clear once, bind once. */
  lemma {:induction false} ListedChangesAtMostTwice(st: State, moves: seq<Move>, order: seq<string>,
                                                    live: seq<Device>, fw: Firmware, m: string)
    requires Legal(st, moves) && LiveBus(live) && m in st && Enumerates(order, st.Keys)
    requires forall i :: 0 <= i < |moves| ==> moves[i].order == order
    ensures Changes(st, moves, live, fw, m) + RankListed(Run(st, moves, live, fw), order, live, m)
            <= RankListed(st, order, live, m)
    ensures Changes(st, moves, live, fw, m) <= 2
    decreases |moves|
  {
    if moves != [] {
      var st' := Step(st, moves[0].order, live, fw, moves[0].dpu);
      if m == moves[0].dpu {
        StepRankListedSelf(st, order, live, fw, m);
      } else {
        StepRankListedOther(st, order, live, fw, moves[0].dpu, m);
      }
      ListedChangesAtMostTwice(st', moves[1..], order, live, fw, m);
    }
  }

  // ----- Quiescence: nothing left to do means a maximum match -----

  /** No reconcile that lists in this order changes any stamp. */
  ghost predicate Quiet(st: State, order: seq<string>, live: seq<Device>, fw: Firmware)
    requires Enumerates(order, st.Keys)
  {
    forall n :: n in st ==> Stamp(Step(st, order, live, fw, n)[n]) == Stamp(st[n])
  }

  ghost function BoundDpus(st: State, live: seq<Device>): set<string> {
    set n | n in st && Exact(st[n], live)
  }

  /** As many DPUs as possible carry a card of their own; the rest carry no identity. */
  ghost predicate MaximumMatch(st: State, live: seq<Device>) {
    && (forall n :: n in st ==> (Exact(st[n], live) && Unique(st, n)) || !HasIdentity(st[n]))
    && |BoundDpus(st, live)| == Min(|st|, |live|)
  }

  ghost function Serials(live: seq<Device>): set<string> {
    set i | 0 <= i < |live| :: live[i].serial
  }

  lemma {:induction false} SerialsCount(live: seq<Device>)
    requires DistinctSerials(live)
    ensures |Serials(live)| == |live|
  {
    if live != [] {
      var front, d := live[..|live| - 1], live[|live| - 1];
      SerialsCount(front);
      assert d.serial !in Serials(front);
      assert Serials(live) == Serials(front) + {d.serial} by {
        forall s | s in Serials(live) ensures s in Serials(front) + {d.serial} {
          var i :| 0 <= i < |live| && live[i].serial == s;
          assert i < |front| ==> front[i].serial == s;
        }
        forall s | s in Serials(front) + {d.serial} ensures s in Serials(live) {
          if s in Serials(front) {
            var i :| 0 <= i < |front| && front[i].serial == s;
            assert live[i].serial == s;
          } else {
            assert live[|live| - 1].serial == s;
          }
        }
      }
    }
  }

  /** Where all is quiet each DPU is the owner of an exact stamp or carries none. */
  lemma QuietDpu(st: State, order: seq<string>, live: seq<Device>, fw: Firmware, n: string)
    requires Enumerates(order, st.Keys) && LiveBus(live) && Quiet(st, order, live, fw) && n in st
    ensures (Exact(st[n], live) && First(st, order, n)) || !HasIdentity(st[n])
  {
    StepOutcome(st, order, live, fw, n);
    var after := Step(st, order, live, fw, n)[n];
    StampDecides(after, st[n]);
    if LiveClaim(st[n], live) && First(st, order, n) {
      ExactByStamp(after, st[n], live);
    } else if Stamp(after) == map[] {
      StrippedIsEmpty(after);
    }
  }

  lemma FirstBeats(st: State, order: seq<string>, i: nat, j: nat)
    requires Enumerates(order, st.Keys) && i < j < |order| && FirstClaimant(ViewsOf(st, order), j)
    ensures ClaimedSerial(st[order[i]]) != ClaimedSerial(st[order[j]])
  {
    var v := ViewsOf(st, order);
    assert ClaimedSerial(v[..j][i].ann) != ClaimedSerial(v[j].ann);
  }

  lemma FirstIsAlone(st: State, order: seq<string>, m: string, n: string)
    requires Enumerates(order, st.Keys) && m in st && n in st
    requires First(st, order, m) && First(st, order, n) && ClaimedSerial(st[m]) == ClaimedSerial(st[n])
    ensures m == n
  {
    var v := ViewsOf(st, order);
    var i :| 0 <= i < |order| && order[i] == m && FirstClaimant(v, i);
    var j :| 0 <= j < |order| && order[j] == n && FirstClaimant(v, j);
    if i < j {
      FirstBeats(st, order, i, j);
    } else if j < i {
      FirstBeats(st, order, j, i);
    }
  }

  lemma QuietPartition(st: State, order: seq<string>, live: seq<Device>, fw: Firmware)
    requires Enumerates(order, st.Keys) && LiveBus(live) && Quiet(st, order, live, fw)
    ensures forall n :: n in st ==> (Exact(st[n], live) && Unique(st, n)) || !HasIdentity(st[n])
  {
    forall n | n in st && HasIdentity(st[n]) ensures Exact(st[n], live) && Unique(st, n) {
      QuietDpu(st, order, live, fw, n);
      ExactClaims(st[n], live);
      forall m | m in st && m != n ensures ClaimedSerial(st[m]) != ClaimedSerial(st[n]) {
        QuietDpu(st, order, live, fw, m);
        if ClaimedSerial(st[m]) == ClaimedSerial(st[n]) {
          ClaimIsIdentity(st[m]);
          FirstIsAlone(st, order, m, n);
        }
      }
    }
  }

  /** Where all is quiet the match binds nobody who is not already stamped with that card. */
  lemma QuietBound(st: State, order: seq<string>, live: seq<Device>, fw: Firmware, n: string)
    requires Enumerates(order, st.Keys) && LiveBus(live) && Quiet(st, order, live, fw) && n in st
    requires n in Allocation(ViewsOf(st, order), live).bound
    ensures Exact(st[n], live)
    ensures ClaimedSerial(st[n]) == Allocation(ViewsOf(st, order), live).bound[n].serial
  {
    CardIsLive(st, order, live, n);
    StepWritesDesired(st, order, live, fw, n);
    var asg := AssignmentFor(ViewsOf(st, order), live, n);
    var i :| 0 <= i < |live| && live[i] == asg.device.value;
    BoundStamp(st[n], asg, fw, live, i);
    var after := Step(st, order, live, fw, n)[n];
    StampedClaims(after, live, i);
    StampDecides(after, st[n]);
    ExactByStamp(after, st[n], live);
  }

  lemma AllocatedNames(st: State, order: seq<string>, live: seq<Device>, n: string)
    requires Enumerates(order, st.Keys) && LiveBus(live)
    requires n in Allocation(ViewsOf(st, order), live).bound
    ensures n in st
  {
    var views := ViewsOf(st, order);
    ViewsDistinct(st, order);
    AllocationNames(views, live, n);
    var i :| 0 <= i < |views| && views[i].name == n;
    assert order[i] in st;
  }

  lemma MemberName(views: seq<View>, v: View)
    requires v in views
    ensures NameIn(views, v.name)
  {
    var k :| 0 <= k < |views| && views[k] == v;
    assert views[k].name == v.name;
  }

  lemma AfterEmptyNames(views: seq<View>, live: seq<Device>, n: string)
    requires DistinctNames(views) && LiveBus(live) && n in AfterEmpty(views, live).bound
    ensures NameIn(views, n)
  {
    AfterPciSpec(views, live);
    AfterEmptySpec(views, live);
    if n !in AfterPci(views, live).bound {
      SortedEmptySpec(views, live);
      var e := SortedEmpty(views, live);
      var i :| 0 <= i < |e| && e[i].name == n;
      assert e[i] in e;
      MemberName(views, e[i]);
    }
  }

  lemma AllocationNames(views: seq<View>, live: seq<Device>, n: string)
    requires DistinctNames(views) && LiveBus(live) && n in Allocation(views, live).bound
    ensures NameIn(views, n)
  {
    var a := AfterEmpty(views, live);
    if n in a.bound {
      AfterEmptyNames(views, live, n);
    } else {
      var still := StillUnbound(Cleared(views, live), a);
      assert still[0] in still && still[0].name == n;
      StillUnboundMember(Cleared(views, live), a, still[0]);
      UnboundMember(views, AfterPci(views, live), true, still[0]);
      MemberName(views, still[0]);
    }
  }

  /** An unstamped DPU the match leaves out is among the DPUs that wait for a spare card. */
  lemma WaitsForCard(st: State, order: seq<string>, live: seq<Device>, n: string)
    requires Enumerates(order, st.Keys) && LiveBus(live) && n in st && !HasIdentity(st[n])
    requires n !in Allocation(ViewsOf(st, order), live).bound
    ensures SortedEmpty(ViewsOf(st, order), live) != []
  {
    var views := ViewsOf(st, order);
    ViewsDistinct(st, order);
    AllocationKeeps(views, live, n);
    SortedEmptySpec(views, live);
    var j :| 0 <= j < |order| && order[j] == n;
    assert views[j] == View(n, st[n]) && views[j] in views;
    assert views[j] in SortedEmpty(views, live);
  }

  lemma StaysSpare(views: seq<View>, live: seq<Device>, d: Device)
    requires DistinctNames(views) && LiveBus(live) && d in live
    requires d.serial !in Allocation(views, live).holder
    ensures SortedSpare(views, live) != []
  {
    AllocationSound(views, live);
    AfterEmptySpec(views, live);
    SortedSpareSpec(views, live);
    assert d in SortedSpare(views, live);
  }

  lemma FirstWaiting(st: State, order: seq<string>, live: seq<Device>)
    requires Enumerates(order, st.Keys) && LiveBus(live)
    requires SortedEmpty(ViewsOf(st, order), live) != []
    ensures var n := SortedEmpty(ViewsOf(st, order), live)[0].name; n in st && !HasIdentity(st[n])
  {
    var views := ViewsOf(st, order);
    ViewsDistinct(st, order);
    SortedEmptySpec(views, live);
    var m := SortedEmpty(views, live)[0];
    assert m in SortedEmpty(views, live);
    var k :| 0 <= k < |views| && views[k] == m;
    assert m.name == order[k] && m.ann == st[order[k]];
  }

  /** While a DPU has no stamp every card must be handed out. */
  lemma QuietHasNoSlack(st: State, order: seq<string>, live: seq<Device>, fw: Firmware, n: string, d: Device)
    requires Enumerates(order, st.Keys) && LiveBus(live) && Quiet(st, order, live, fw)
    requires n in st && !HasIdentity(st[n]) && d in live
    ensures d.serial in Allocation(ViewsOf(st, order), live).holder
  {
    var views := ViewsOf(st, order);
    ViewsDistinct(st, order);
    if d.serial !in Allocation(views, live).holder {
      QuietUnstamped(st, order, live, fw, n);
      WaitsForCard(st, order, live, n);
      StaysSpare(views, live, d);
      FirstPairIsBound(views, live);
      FirstWaiting(st, order, live);
      QuietUnstamped(st, order, live, fw, SortedEmpty(views, live)[0].name);
    }
  }

  lemma QuietUnstamped(st: State, order: seq<string>, live: seq<Device>, fw: Firmware, n: string)
    requires Enumerates(order, st.Keys) && LiveBus(live) && Quiet(st, order, live, fw)
    requires n in st && !HasIdentity(st[n])
    ensures n !in Allocation(ViewsOf(st, order), live).bound
  {
    if n in Allocation(ViewsOf(st, order), live).bound {
      QuietBound(st, order, live, fw, n);
      ExactClaims(st[n], live);
    }
  }

  lemma FirstPairIsBound(views: seq<View>, live: seq<Device>)
    requires DistinctNames(views) && LiveBus(live)
    requires SortedEmpty(views, live) != [] && SortedSpare(views, live) != []
    ensures SortedEmpty(views, live)[0].name in Allocation(views, live).bound
  {
    AllocationSound(views, live);
    var empty, spare := SortedEmpty(views, live), SortedSpare(views, live);
    var n := Min(|empty|, |spare|);
    PairUpBound(empty, spare, n, AfterPci(views, live), empty[0].name);
    assert empty[..n][0].name == empty[0].name;
  }

  lemma QuietBoundKeys(st: State, order: seq<string>, live: seq<Device>, fw: Firmware)
    requires Enumerates(order, st.Keys) && LiveBus(live) && Quiet(st, order, live, fw)
    ensures Allocation(ViewsOf(st, order), live).bound.Keys == BoundDpus(st, live)
  {
    var views, b := ViewsOf(st, order), Allocation(ViewsOf(st, order), live);
    ViewsDistinct(st, order);
    forall n | n in b.bound ensures n in BoundDpus(st, live) {
      AllocatedNames(st, order, live, n);
      QuietBound(st, order, live, fw, n);
    }
    forall n | n in BoundDpus(st, live) ensures n in b.bound {
      ExactClaims(st[n], live);
      QuietDpu(st, order, live, fw, n);
      var j :| 0 <= j < |order| && order[j] == n && FirstClaimant(views, j);
      BoundCard(views, live, j);
    }
  }

  lemma HandedOutIsLive(a: Alloc, live: seq<Device>)
    requires SoundAlloc(a, live)
    ensures a.holder.Keys <= Serials(live)
  {
    forall s | s in a.holder ensures s in Serials(live) {
      var i :| 0 <= i < |live| && live[i] == a.bound[a.holder[s]];
      assert live[i].serial == s;
    }
  }

  lemma QuietHandsOutAll(st: State, order: seq<string>, live: seq<Device>, fw: Firmware, n: string)
    requires Enumerates(order, st.Keys) && LiveBus(live) && Quiet(st, order, live, fw)
    requires n in st && !HasIdentity(st[n])
    ensures Serials(live) <= Allocation(ViewsOf(st, order), live).holder.Keys
  {
    forall s | s in Serials(live) ensures s in Allocation(ViewsOf(st, order), live).holder {
      var i :| 0 <= i < |live| && live[i].serial == s;
      QuietHasNoSlack(st, order, live, fw, n, live[i]);
    }
  }

  lemma HandedOutCount(st: State, order: seq<string>, live: seq<Device>, fw: Firmware)
    requires Enumerates(order, st.Keys) && LiveBus(live) && Quiet(st, order, live, fw)
    ensures var held := Allocation(ViewsOf(st, order), live).holder.Keys;
            |BoundDpus(st, live)| == |held| && held <= Serials(live)
  {
    var b := Allocation(ViewsOf(st, order), live);
    ViewsDistinct(st, order);
    AllocationSound(ViewsOf(st, order), live);
    QuietBoundKeys(st, order, live, fw);
    HandedOutIsLive(b, live);
    assert |b.bound| == |b.bound.Keys|;
  }

  lemma QuietCount(st: State, order: seq<string>, live: seq<Device>, fw: Firmware)
    requires Enumerates(order, st.Keys) && LiveBus(live) && Quiet(st, order, live, fw)
    requires forall n :: n in st ==> Exact(st[n], live) || !HasIdentity(st[n])
    ensures |BoundDpus(st, live)| == Min(|st|, |live|)
  {
    hide Step, Exact, HasIdentity, Allocation, Quiet;
    var held := Allocation(ViewsOf(st, order), live).holder.Keys;
    HandedOutCount(st, order, live, fw);
    SerialsCount(live);
    CardLeq(held, Serials(live));
    CardLeq(BoundDpus(st, live), st.Keys);
    if n :| n in st && n !in BoundDpus(st, live) {
      QuietHandsOutAll(st, order, live, fw, n);
      assert Serials(live) == held;
    } else {
      assert BoundDpus(st, live) == st.Keys;
    }
  }

  lemma QuietIsMaximum(st: State, order: seq<string>, live: seq<Device>, fw: Firmware)
    requires Enumerates(order, st.Keys) && LiveBus(live) && Quiet(st, order, live, fw)
    ensures MaximumMatch(st, live)
  {
    QuietPartition(st, order, live, fw);
    QuietCount(st, order, live, fw);
  }

  lemma CardLeq<T>(a: set<T>, b: set<T>)
    requires a <= b
    ensures |a| <= |b|
    ensures |a| == |b| ==> a == b
  {
    assert b == a + (b - a);
  }

  /** The serials claimed by a set of sole claimants. */
  lemma {:induction false} SoleClaimsCount(st: State, names: set<string>, claims: set<string>)
    requires names <= st.Keys && forall n :: n in names ==> Unique(st, n)
    requires claims == set n | n in names :: ClaimedSerial(st[n])
    ensures |claims| == |names|
    decreases |names|
  {
    hide ClaimedSerial;
    if n :| n in names {
      var rest := names - {n};
      var fewer := set m | m in rest :: ClaimedSerial(st[m]);
      assert claims == fewer + {ClaimedSerial(st[n])} by {
        forall s | s in claims ensures s in fewer + {ClaimedSerial(st[n])} {
          var m :| m in names && ClaimedSerial(st[m]) == s;
          assert m != n ==> m in rest;
        }
      }
      SoleClaimsCount(st, rest, fewer);
    }
  }

  lemma MaximumLeavesNothing(st: State, live: seq<Device>, n: string, s: string)
    requires LiveBus(live) && MaximumMatch(st, live) && n in st && !HasIdentity(st[n])
    requires IsLiveSerial(live, s)
    ensures !Unclaimed(st, s)
  {
    hide ClaimedSerial, HasIdentity, Exact, LiveBus;
    var bound := BoundDpus(st, live);
    var claims := set m | m in bound :: ClaimedSerial(st[m]);
    forall m | m in bound ensures Unique(st, m) && m != n {
      ExactClaims(st[m], live);
    }
    SoleClaimsCount(st, bound, claims);
    LiveDistinct(live);
    SerialsCount(live);
    forall c | c in claims ensures c in Serials(live) {
      var m :| m in bound && ClaimedSerial(st[m]) == c;
      ExactClaims(st[m], live);
      var i :| 0 <= i < |live| && live[i].serial == c;
    }
    assert bound <= st.Keys - {n};
    CardLeq(bound, st.Keys - {n});
    CardLeq(claims, Serials(live));
    assert |st| == |st.Keys|;
    assert s in claims;
  }

  lemma LiveDistinct(live: seq<Device>)
    requires LiveBus(live)
    ensures DistinctSerials(live)
  {
  }

  lemma MaximumIsQuiet(st: State, order: seq<string>, live: seq<Device>, fw: Firmware)
    requires Enumerates(order, st.Keys) && LiveBus(live) && MaximumMatch(st, live)
    ensures Quiet(st, order, live, fw)
  {
    forall n | n in st ensures Stamp(Step(st, order, live, fw, n)[n]) == Stamp(st[n]) {
      StepOutcome(st, order, live, fw, n);
      var after := Step(st, order, live, fw, n)[n];
      if HasIdentity(st[n]) {
        ExactClaims(st[n], live);
        UniqueIsFirst(st, order, n);
        ExactSame(after, st[n], live);
      } else {
        ClaimIsIdentity(st[n]);
        if Exact(after, live) {
          ExactClaims(after, live);
          MaximumLeavesNothing(st, live, n, ClaimedSerial(after));
        }
      }
    }
  }

  /** The quiescent states are exactly the maximum matches, in every listing order. */
  lemma QuietIffMaximum(st: State, order: seq<string>, live: seq<Device>, fw: Firmware)
    requires Enumerates(order, st.Keys) && LiveBus(live)
    ensures Quiet(st, order, live, fw) <==> MaximumMatch(st, live)
  {
    if Quiet(st, order, live, fw) {
      QuietIsMaximum(st, order, live, fw);
    }
    if MaximumMatch(st, live) {
      MaximumIsQuiet(st, order, live, fw);
    }
  }
}
