/** Convergence of the annotator: under one listing order a bounded number of full
    rounds ends in a maximum match, and a maximum match is for good. */
module AnnotatorConvergence {
  import opened Text
  import opened Sorting
  import opened Inventory
  import opened Annotator
  import opened AnnotatorRuns

  // ----- The match depends on the stamps alone -----

  ghost predicate Alike(v: View, w: View) {
    && v.name == w.name && ClaimedSerial(v.ann) == ClaimedSerial(w.ann)
    && ClaimedPCI(v.ann) == ClaimedPCI(w.ann) && HasIdentity(v.ann) == HasIdentity(w.ann)
  }

  ghost predicate AlikeAll(a: seq<View>, b: seq<View>) {
    |a| == |b| && forall i :: 0 <= i < |a| ==> Alike(a[i], b[i])
  }

  lemma AlikeInit(a: seq<View>, b: seq<View>)
    requires AlikeAll(a, b) && a != []
    ensures AlikeAll(a[..|a| - 1], b[..|b| - 1]) && Alike(a[|a| - 1], b[|b| - 1])
  {
    hide Alike;
  }

  lemma {:induction false} SerialPassAlike(a: seq<View>, b: seq<View>, live: seq<Device>)
    requires AlikeAll(a, b)
    ensures SerialPass(a, live) == SerialPass(b, live)
  {
    hide ClaimedSerial, ClaimedPCI, HasIdentity;
    if a != [] {
      AlikeInit(a, b);
      SerialPassAlike(a[..|a| - 1], b[..|b| - 1], live);
    }
  }

  lemma {:induction false} PciPassAlike(a: seq<View>, b: seq<View>, live: seq<Device>, start: Alloc)
    requires AlikeAll(a, b)
    ensures PciPass(a, live, start) == PciPass(b, live, start)
  {
    hide ClaimedSerial, ClaimedPCI, HasIdentity;
    if a != [] {
      AlikeInit(a, b);
      PciPassAlike(a[..|a| - 1], b[..|b| - 1], live, start);
    }
  }

  lemma {:induction false} UnboundAlike(a: seq<View>, b: seq<View>, alloc: Alloc, stamped: bool)
    requires AlikeAll(a, b)
    ensures AlikeAll(Unbound(a, alloc, stamped), Unbound(b, alloc, stamped))
  {
    hide ClaimedSerial, ClaimedPCI, HasIdentity;
    if a != [] {
      AlikeInit(a, b);
      UnboundAlike(a[..|a| - 1], b[..|b| - 1], alloc, stamped);
    }
  }

  lemma {:induction false} InsertAlike(x: View, y: View, a: seq<View>, b: seq<View>)
    requires Alike(x, y) && AlikeAll(a, b)
    ensures AlikeAll(Insert(x, a, (v: View) => v.name), Insert(y, b, (v: View) => v.name))
  {
    hide ClaimedSerial, ClaimedPCI, HasIdentity;
    if a != [] {
      InsertAlike(x, y, a[1..], b[1..]);
    }
  }

  lemma {:induction false} SortAlike(a: seq<View>, b: seq<View>)
    requires AlikeAll(a, b)
    ensures AlikeAll(Sort(a, (v: View) => v.name), Sort(b, (v: View) => v.name))
  {
    hide Alike;
    if a != [] {
      SortAlike(a[1..], b[1..]);
      InsertAlike(a[0], b[0], Sort(a[1..], (v: View) => v.name), Sort(b[1..], (v: View) => v.name));
    }
  }

  lemma {:induction false} PairUpAlike(a: seq<View>, b: seq<View>, cards: seq<Device>, n: nat, alloc: Alloc)
    requires AlikeAll(a, b) && n <= |a| && n <= |cards|
    ensures PairUp(a, cards, n, alloc) == PairUp(b, cards, n, alloc)
  {
    if n > 0 {
      assert Alike(a[n - 1], b[n - 1]);
      PairUpAlike(a, b, cards, n - 1, alloc);
    }
  }

  lemma {:induction false} StillUnboundAlike(a: seq<View>, b: seq<View>, alloc: Alloc)
    requires AlikeAll(a, b)
    ensures AlikeAll(StillUnbound(a, alloc), StillUnbound(b, alloc))
  {
    hide ClaimedSerial, ClaimedPCI, HasIdentity;
    if a != [] {
      AlikeInit(a, b);
      StillUnboundAlike(a[..|a| - 1], b[..|b| - 1], alloc);
    }
  }

  lemma AllocationAlike(a: seq<View>, b: seq<View>, live: seq<Device>)
    requires AlikeAll(a, b)
    ensures AfterPci(a, live) == AfterPci(b, live) && Allocation(a, live) == Allocation(b, live)
    ensures AlikeAll(Cleared(a, live), Cleared(b, live))
  {
    hide SerialPass, PciPass, Unbound, Sort, PairUp, StillUnbound, Unused;
    SerialPassAlike(a, b, live);
    PciPassAlike(a, b, live, SerialPass(a, live));
    var alloc := AfterPci(a, live);
    UnboundAlike(a, b, alloc, false);
    UnboundAlike(a, b, alloc, true);
    SortAlike(Unbound(a, alloc, false), Unbound(b, alloc, false));
    var e, spare := SortedEmpty(a, live), SortedSpare(a, live);
    PairUpAlike(e, SortedEmpty(b, live), spare, Min(|e|, |spare|), alloc);
    var after := AfterEmpty(a, live);
    assert AfterEmpty(b, live) == after;
    StillUnboundAlike(Cleared(a, live), Cleared(b, live), after);
    var still := StillUnbound(Cleared(a, live), after);
    if |still| == 1 {
      assert Alike(still[0], StillUnbound(Cleared(b, live), after)[0]);
    }
  }

  lemma AssignmentAlike(a: seq<View>, b: seq<View>, live: seq<Device>, n: string)
    requires AlikeAll(a, b)
    ensures AssignmentFor(a, live, n) == AssignmentFor(b, live, n)
  {
    AllocationAlike(a, b, live);
    NamesAlike(Cleared(a, live), Cleared(b, live), n);
    NamesAlike(Cleared(b, live), Cleared(a, live), n);
  }

  lemma NamesAlike(a: seq<View>, b: seq<View>, n: string)
    requires |a| == |b| && forall i :: 0 <= i < |a| ==> a[i].name == b[i].name
    ensures NameIn(a, n) ==> NameIn(b, n)
  {
    if NameIn(a, n) {
      var i :| 0 <= i < |a| && a[i].name == n;
      assert b[i].name == n;
    }
  }

  ghost predicate SameStamps(st: State, st': State) {
    st.Keys == st'.Keys && forall n :: n in st ==> Stamp(st[n]) == Stamp(st'[n])
  }

  lemma ViewsAlike(st: State, st': State, order: seq<string>)
    requires SameStamps(st, st') && Enumerates(order, st.Keys)
    ensures AlikeAll(ViewsOf(st, order), ViewsOf(st', order))
  {
    var a, b := ViewsOf(st, order), ViewsOf(st', order);
    forall i | 0 <= i < |a| ensures Alike(a[i], b[i]) {
      StampDecides(st[order[i]], st'[order[i]]);
    }
  }

  /** The stamp a reconcile leaves depends on the stamps it finds. */
  lemma StepByStamp(st: State, st': State, order: seq<string>, live: seq<Device>, fw: Firmware, n: string)
    requires SameStamps(st, st') && Enumerates(order, st.Keys) && n in st && LiveBus(live)
    ensures n in Step(st, order, live, fw, n) && n in Step(st', order, live, fw, n)
    ensures Stamp(Step(st, order, live, fw, n)[n]) == Stamp(Step(st', order, live, fw, n)[n])
  {
    hide Step, AssignmentFor, LiveBus, Stamp, DesiredAnnotations;
    ViewsAlike(st, st', order);
    AssignmentAlike(ViewsOf(st, order), ViewsOf(st', order), live, n);
    CardIsLive(st, order, live, n);
    StepWritesDesired(st, order, live, fw, n);
    StepWritesDesired(st', order, live, fw, n);
    DesiredByStamp(st[n], st'[n], AssignmentFor(ViewsOf(st, order), live, n), fw, live);
  }

  lemma DesiredByStamp(a: Annotations, b: Annotations, asg: Assignment, fw: Firmware, live: seq<Device>)
    requires Stamp(a) == Stamp(b) && LiveBus(live) && (asg.device.Some? ==> asg.device.value in live)
    ensures DesiredAnnotations(a, asg, fw).Some? && DesiredAnnotations(b, asg, fw).Some?
    ensures Stamp(DesiredAnnotations(a, asg, fw).value) == Stamp(DesiredAnnotations(b, asg, fw).value)
  {
    if asg.device.Some? {
      var i :| 0 <= i < |live| && live[i] == asg.device.value;
      BoundStamp(a, asg, fw, live, i);
      BoundStamp(b, asg, fw, live, i);
    } else if asg.clear {
      ClearedStamp(a, fw);
      ClearedStamp(b, fw);
    }
  }

  lemma MaximumByStamp(st: State, st': State, live: seq<Device>)
    requires SameStamps(st, st') && MaximumMatch(st, live)
    ensures MaximumMatch(st', live)
  {
    hide ClaimedSerial, HasIdentity, Exact, Stamp;
    forall n | n in st ensures ClaimedSerial(st[n]) == ClaimedSerial(st'[n]) && HasIdentity(st[n]) == HasIdentity(st'[n])
                            && Exact(st[n], live) == Exact(st'[n], live) {
      StampDecides(st[n], st'[n]);
      ExactIffByStamp(st[n], st'[n], live);
    }
    assert BoundDpus(st, live) == BoundDpus(st', live);
    assert |st| == |st.Keys| && |st'| == |st'.Keys|;
  }

  lemma ExactIffByStamp(a: Annotations, b: Annotations, live: seq<Device>)
    requires Stamp(a) == Stamp(b)
    ensures Exact(a, live) == Exact(b, live)
  {
    if Exact(a, live) {
      ExactByStamp(a, b, live);
    } else if Exact(b, live) {
      ExactByStamp(b, a, live);
    }
  }

  /** A maximum match stays one, with the same stamps, whoever reconciles and in whatever order they are listed. */
  lemma {:induction false} MaximumIsForever(st: State, moves: seq<Move>, live: seq<Device>, fw: Firmware)
    requires Legal(st, moves) && LiveBus(live) && MaximumMatch(st, live)
    ensures MaximumMatch(Run(st, moves, live, fw), live) && SameStamps(st, Run(st, moves, live, fw))
    decreases |moves|
  {
    hide Stamp, LiveBus, MaximumMatch, Step;
    if moves != [] {
      var n, order := moves[0].dpu, moves[0].order;
      var st' := Step(st, order, live, fw, n);
      MaximumIsQuiet(st, order, live, fw);
      StepOutcome(st, order, live, fw, n);
      assert SameStamps(st, st');
      MaximumByStamp(st, st', live);
      MaximumIsForever(st', moves[1..], live, fw);
    }
  }

  // ----- Rounds -----

  /** The changes all DPUs can still see, for the first k listed. */
  ghost function Total(st: State, order: seq<string>, live: seq<Device>, k: nat): nat
    requires Enumerates(order, st.Keys) && k <= |order|
  {
    if k == 0 then 0 else Total(st, order, live, k - 1) + RankListed(st, order, live, order[k - 1])
  }

  lemma {:induction false} TotalAtMost(st: State, order: seq<string>, live: seq<Device>, k: nat)
    requires Enumerates(order, st.Keys) && k <= |order|
    ensures Total(st, order, live, k) <= 2 * k
  {
    if k > 0 {
      TotalAtMost(st, order, live, k - 1);
    }
  }

  lemma {:induction false} TotalLeq(st: State, st': State, order: seq<string>, live: seq<Device>, k: nat, n: string)
    requires Enumerates(order, st.Keys) && st'.Keys == st.Keys && k <= |order|
    requires forall m :: m in st ==> RankListed(st', order, live, m) <= RankListed(st, order, live, m)
    ensures Total(st', order, live, k) <= Total(st, order, live, k)
    ensures n in order[..k] && RankListed(st', order, live, n) < RankListed(st, order, live, n) ==>
              Total(st', order, live, k) < Total(st, order, live, k)
  {
    hide RankListed;
    if k > 0 {
      TotalLeq(st, st', order, live, k - 1, n);
      assert order[..k] == order[..k - 1] + [order[k - 1]];
      assert order[k - 1] in st;
    }
  }

  lemma StepTotal(st: State, order: seq<string>, live: seq<Device>, fw: Firmware, n: string)
    requires Enumerates(order, st.Keys) && n in st && LiveBus(live)
    ensures var st' := Step(st, order, live, fw, n);
            && st'.Keys == st.Keys && (forall m :: m in st && m != n ==> st'[m] == st[m])
            && Total(st', order, live, |order|) <= Total(st, order, live, |order|)
            && (Stamp(st'[n]) != Stamp(st[n]) ==> Total(st', order, live, |order|) < Total(st, order, live, |order|))
  {
    hide RankListed, Step, Stamp, Total, LiveBus;
    var st' := Step(st, order, live, fw, n);
    StepRankListedSelf(st, order, live, fw, n);
    forall m | m in st ensures RankListed(st', order, live, m) <= RankListed(st, order, live, m) && (m != n ==> st'[m] == st[m]) {
      if m != n {
        StepRankListedOther(st, order, live, fw, n, m);
      }
    }
    assert order[..|order|] == order;
    TotalLeq(st, st', order, live, |order|, n);
  }

  ghost predicate InOrder(moves: seq<Move>, order: seq<string>) {
    forall i :: 0 <= i < |moves| ==> moves[i].order == order
  }

  /** A run that leaves the total where it was changed no stamp, and found every DPU
      it visited with nothing to do. */
  lemma {:induction false} FlatRun(st0: State, st: State, moves: seq<Move>, order: seq<string>, live: seq<Device>, fw: Firmware)
    requires Legal(st, moves) && LiveBus(live) && Enumerates(order, st.Keys) && InOrder(moves, order) && SameStamps(st0, st)
    ensures Total(Run(st, moves, live, fw), order, live, |order|) <= Total(st, order, live, |order|)
    ensures Total(Run(st, moves, live, fw), order, live, |order|) == Total(st, order, live, |order|) ==>
              forall i :: 0 <= i < |moves| ==> Rests(st0, order, live, fw, moves[i].dpu)
    decreases |moves|
  {
    hide Stamp, LiveBus, Step, Total, Rests;
    if moves != [] {
      var n := moves[0].dpu;
      var st' := Step(st, order, live, fw, n);
      StepTotal(st, order, live, fw, n);
      assert moves[0].order == order;
      if Stamp(st'[n]) == Stamp(st[n]) {
        assert SameStamps(st0, st');
        FlatRun(st0, st', moves[1..], order, live, fw);
        RestsHere(st0, st, order, live, fw, n);
        forall i | 0 <= i < |moves| && Total(Run(st, moves, live, fw), order, live, |order|) == Total(st, order, live, |order|)
          ensures Rests(st0, order, live, fw, moves[i].dpu)
        {
          assert i > 0 ==> moves[i] == moves[1..][i - 1];
        }
      } else {
        FlatRun(st', st', moves[1..], order, live, fw);
      }
    }
  }

  /** A reconcile of n changes no stamp. */
  ghost predicate Rests(st: State, order: seq<string>, live: seq<Device>, fw: Firmware, n: string)
    requires Enumerates(order, st.Keys)
  {
    n in st && Stamp(Step(st, order, live, fw, n)[n]) == Stamp(st[n])
  }

  lemma RestsHere(st0: State, st: State, order: seq<string>, live: seq<Device>, fw: Firmware, n: string)
    requires SameStamps(st0, st) && Enumerates(order, st.Keys) && n in st && LiveBus(live)
    requires var st' := Step(st, order, live, fw, n); n in st' && Stamp(st'[n]) == Stamp(st[n])
    ensures Rests(st0, order, live, fw, n)
  {
    hide Stamp, LiveBus, Step, Enumerates;
    StepByStamp(st0, st, order, live, fw, n);
  }

  /** Every DPU reconciles at least once, in any sequence. */
  ghost predicate Round(st: State, moves: seq<Move>, order: seq<string>) {
    Legal(st, moves) && InOrder(moves, order) && forall n :: n in st ==> Visited(moves, n)
  }

  ghost predicate Visited(moves: seq<Move>, n: string) {
    exists i :: 0 <= i < |moves| && moves[i].dpu == n
  }

  /** A full round makes progress or finds a maximum match. */
  lemma RoundProgress(st: State, moves: seq<Move>, order: seq<string>, live: seq<Device>, fw: Firmware)
    requires Round(st, moves, order) && LiveBus(live) && Enumerates(order, st.Keys)
    ensures MaximumMatch(Run(st, moves, live, fw), live)
         || Total(Run(st, moves, live, fw), order, live, |order|) < Total(st, order, live, |order|)
  {
    hide Stamp, LiveBus, Step, Total, Enumerates, MaximumMatch, Run;
    FlatRun(st, st, moves, order, live, fw);
    if Total(Run(st, moves, live, fw), order, live, |order|) == Total(st, order, live, |order|) {
      forall n | n in st ensures Rests(st, order, live, fw, n) {
        assert Visited(moves, n);
      }
      QuietFromRest(st, order, live, fw);
      QuietIsMaximum(st, order, live, fw);
      MaximumIsForever(st, moves, live, fw);
    }
  }

  lemma QuietFromRest(st: State, order: seq<string>, live: seq<Device>, fw: Firmware)
    requires Enumerates(order, st.Keys) && forall n :: n in st ==> Rests(st, order, live, fw, n)
    ensures Quiet(st, order, live, fw)
  {
    hide Stamp;
    forall n | n in st ensures n in Step(st, order, live, fw, n) && Stamp(Step(st, order, live, fw, n)[n]) == Stamp(st[n]) {
      assert Rests(st, order, live, fw, n);
    }
  }

  /** Nothing left to change is nothing left to do. */
  lemma NoTotalIsMaximum(st: State, order: seq<string>, live: seq<Device>, fw: Firmware)
    requires Enumerates(order, st.Keys) && LiveBus(live) && Total(st, order, live, |order|) == 0
    ensures MaximumMatch(st, live)
  {
    hide Stamp, Step, Enumerates, Total, LiveBus, MaximumMatch, Quiet;
    forall n | n in st ensures Rests(st, order, live, fw, n) {
      StepTotal(st, order, live, fw, n);
    }
    QuietFromRest(st, order, live, fw);
    QuietIsMaximum(st, order, live, fw);
  }

  /** The rounds one after another. */
  ghost function Flatten(rounds: seq<seq<Move>>): seq<Move> {
    if rounds == [] then [] else rounds[0] + Flatten(rounds[1..])
  }

  lemma {:induction false} FlattenLegal(st: State, rounds: seq<seq<Move>>)
    requires forall i :: 0 <= i < |rounds| ==> Legal(st, rounds[i])
    ensures Legal(st, Flatten(rounds))
  {
    hide Enumerates;
    if rounds != [] {
      FlattenLegal(st, rounds[1..]);
    }
  }

  lemma AppendLegal(st: State, a: seq<Move>, b: seq<Move>)
    requires Legal(st, a) && Legal(st, b)
    ensures Legal(st, a + b)
  {
    hide Enumerates;
  }

  lemma LegalRest(st: State, st': State, moves: seq<Move>)
    requires Legal(st, moves) && st'.Keys == st.Keys && moves != []
    ensures Legal(st', moves[1..])
  {
    hide Enumerates;
  }

  lemma {:induction false} RunAppend(st: State, a: seq<Move>, b: seq<Move>, live: seq<Device>, fw: Firmware) returns (mid: State)
    requires Legal(st, a) && Legal(st, b)
    ensures mid == Run(st, a, live, fw) && Legal(mid, b)
    ensures Legal(st, a + b) && Run(st, a + b, live, fw) == Run(mid, b, live, fw)
    decreases |a|
  {
    hide Step, Enumerates, Legal, Run;
    if a == [] {
      RunNone(st, live, fw);
      assert a + b == b;
      mid := st;
    } else {
      AppendLegal(st, a, b);
      var st' := RunHead(st, a, live, fw);
      assert (a + b)[1..] == a[1..] + b && (a + b)[0] == a[0];
      var st'' := RunHead(st, a + b, live, fw);
      LegalByKeys(st, st', b);
      mid := RunAppend(st', a[1..], b, live, fw);
    }
  }

  lemma RunNone(st: State, live: seq<Device>, fw: Firmware)
    ensures Legal(st, []) && Run(st, [], live, fw) == st
  {
  }

  lemma RunHead(st: State, moves: seq<Move>, live: seq<Device>, fw: Firmware) returns (st': State)
    requires Legal(st, moves) && moves != []
    ensures moves[0].dpu in st && (forall m :: m in moves[0].order ==> m in st)
    ensures st' == Step(st, moves[0].order, live, fw, moves[0].dpu) && st'.Keys == st.Keys
    ensures Legal(st', moves[1..]) && Run(st, moves, live, fw) == Run(st', moves[1..], live, fw)
  {
    st' := Step(st, moves[0].order, live, fw, moves[0].dpu);
    StepKeys(st, moves[0].order, live, fw, moves[0].dpu);
    hide Step;
    LegalRest(st, st', moves);
  }

  lemma LegalByKeys(st: State, st': State, moves: seq<Move>)
    requires Legal(st, moves) && st'.Keys == st.Keys
    ensures Legal(st', moves)
  {
    hide Enumerates;
  }

  lemma {:induction false} RoundsConverge(st: State, rounds: seq<seq<Move>>, order: seq<string>, live: seq<Device>, fw: Firmware)
    requires Enumerates(order, st.Keys) && LiveBus(live)
    requires forall i :: 0 <= i < |rounds| ==> Round(st, rounds[i], order)
    requires MaximumMatch(st, live) || |rounds| >= Total(st, order, live, |order|)
    ensures Legal(st, Flatten(rounds)) && MaximumMatch(Run(st, Flatten(rounds), live, fw), live)
    decreases |rounds|
  {
    hide LiveBus, Total, Enumerates, MaximumMatch;
    forall i | 0 <= i < |rounds| ensures Legal(st, rounds[i]) {
      assert Round(st, rounds[i], order);
    }
    FlattenLegal(st, rounds);
    if rounds == [] {
      if !MaximumMatch(st, live) {
        NoTotalIsMaximum(st, order, live, fw);
      }
    } else {
      hide Run;
      assert Round(st, rounds[0], order);
      var st' := Run(st, rounds[0], live, fw);
      if MaximumMatch(st, live) {
        MaximumIsForever(st, rounds[0], live, fw);
      } else {
        RoundProgress(st, rounds[0], order, live, fw);
      }
      forall i | 0 <= i < |rounds[1..]| ensures Round(st', rounds[1..][i], order) {
        RoundByKeys(st, st', rounds[i + 1], order);
      }
      RoundsConverge(st', rounds[1..], order, live, fw);
      assert forall i :: 0 <= i < |rounds[1..]| ==> Legal(st, rounds[1..][i]);
      FlattenLegal(st, rounds[1..]);
      var mid := RunAppend(st, rounds[0], Flatten(rounds[1..]), live, fw);
    }
  }

  lemma RoundByKeys(st: State, st': State, moves: seq<Move>, order: seq<string>)
    requires st.Keys == st'.Keys && Round(st, moves, order)
    ensures Round(st', moves, order)
  {
    hide Enumerates;
  }

  lemma {:induction false} OrderCounts(order: seq<string>, names: set<string>)
    requires Enumerates(order, names)
    ensures |order| == |names|
    decreases |order|
  {
    if order == [] {
      assert names == {};
    } else {
      var n, front := order[|order| - 1], order[..|order| - 1];
      assert order == front + [n];
      OrderCounts(front, names - {n});
    }
  }

  /** From any state whatever, two full rounds per DPU under one listing order end in
      a maximum match: min(#DPUs, #cards) DPUs with a card of their own, the others
      without identity. */
  lemma Converges(st: State, rounds: seq<seq<Move>>, order: seq<string>, live: seq<Device>, fw: Firmware)
    requires Enumerates(order, st.Keys) && LiveBus(live)
    requires (forall i :: 0 <= i < |rounds| ==> Round(st, rounds[i], order)) && |rounds| >= 2 * |st|
    ensures Legal(st, Flatten(rounds)) && MaximumMatch(Run(st, Flatten(rounds), live, fw), live)
  {
    OrderCounts(order, st.Keys);
    assert |st| == |st.Keys|;
    TotalAtMost(st, order, live, |order|);
    RoundsConverge(st, rounds, order, live, fw);
  }
}
