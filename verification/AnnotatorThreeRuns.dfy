/** The third change over whole runs: necessary and sufficient. */
module AnnotatorThreeRuns {
  import opened Text
  import opened Inventory
  import opened Annotator
  import opened AnnotatorRuns
  import opened AnnotatorCounts
  import opened AnnotatorThree

  lemma ChangesHead(st: State, moves: seq<Move>, live: seq<Device>, fw: Firmware, m: string) returns (st': State)
    requires Legal(st, moves) && m in st && moves != []
    ensures moves[0].dpu in st && Enumerates(moves[0].order, st.Keys)
    ensures st' == Step(st, moves[0].order, live, fw, moves[0].dpu) && st'.Keys == st.Keys && Legal(st', moves[1..])
    ensures Changes(st, moves, live, fw, m) ==
            (if Stamp(st'[m]) != Stamp(st[m]) then 1 else 0) + Changes(st', moves[1..], live, fw, m)
  {
    assert Enumerates(moves[0].order, st.Keys);
    st' := Step(st, moves[0].order, live, fw, moves[0].dpu);
    StepKeys(st, moves[0].order, live, fw, moves[0].dpu);
    hide Step, Stamp, Enumerates;
  }

  /** One step of a run in the setting: the setting stays, room and losers shrink. */
  lemma OneMove(st: State, move: Move, live: seq<Device>, fw: Firmware, m: string)
    requires move.dpu in st && Enumerates(move.order, st.Keys) && Setting(st, live) && m in st
    ensures var st' := Step(st, move.order, live, fw, move.dpu);
            && st'.Keys == st.Keys && Setting(st', live) && Shrinks(st, st', live, m)
            && (m != move.dpu ==> st'[m] == st[m])
  {
    hide Step, Setting, Shrinks, Kept, Won, Lost;
    SettingStays(st, move.order, live, fw, move.dpu);
    SettingIsLive(st, live);
    StepNumbers(st, move.order, live, fw, move.dpu);
    RoomShrinks(st, Step(st, move.order, live, fw, move.dpu), live, move.dpu, m);
  }

  lemma SettingIsLive(st: State, live: seq<Device>)
    requires Setting(st, live)
    ensures LiveBus(live) && SerialLed(st, live)
  {
  }

  lemma StillUnstamped(st: State, st': State, m: string)
    requires m in Unstamped(st) && m in st' && Stamp(st'[m]) == Stamp(st[m])
    ensures m in Unstamped(st')
  {
    StampDecides(st'[m], st[m]);
  }

  // ----- What three changes need -----

  lemma {:induction false} OneNeedsRoom(st: State, moves: seq<Move>, live: seq<Device>, fw: Firmware, m: string)
    requires Legal(st, moves) && Setting(st, live) && m in st && m in Unstamped(st)
    requires Changes(st, moves, live, fw, m) >= 1
    ensures Room(st, live, m)
    decreases |moves|
  {
    hide Step, Setting, Stamp, Legal, Enumerates, Room, Unstamped;
    if moves != [] {
      var st' := ChangesHead(st, moves, live, fw, m);
      OneMove(st, moves[0], live, fw, m);
      if moves[0].dpu == m {
        UnstampedStep(st, moves[0].order, live, fw, m);
      }
      if Stamp(st'[m]) == Stamp(st[m]) {
        StillUnstamped(st, st', m);
        OneNeedsRoom(st', moves[1..], live, fw, m);
      }
    }
  }

  /** Where the last pass would apply, it still would have before. */
  lemma SingleBefore(st: State, st': State, live: seq<Device>, m: string)
    requires Shrinks(st, st', live, m) && Losers(st', live) >= 1 && !Single(st', live)
    ensures !Single(st, live)
  {
    hide Losers, Spare, Unstamped;
  }

  lemma SameStampFacts(a: Annotations, b: Annotations, live: seq<Device>)
    requires Stamp(a) == Stamp(b)
    ensures LiveClaim(a, live) == LiveClaim(b, live) && Exact(a, live) == Exact(b, live)
  {
    StampDecides(a, b);
    if Exact(a, live) {
      ExactByStamp(a, b, live);
    } else if Exact(b, live) {
      ExactByStamp(b, a, live);
    }
  }

  lemma SharedLosesHere(st: State, order: seq<string>, live: seq<Device>, m: string)
    requires Enumerates(order, st.Keys) && Setting(st, live) && m in st && LiveClaim(st[m], live) && !Unique(st, m)
    ensures Losers(st, live) >= 1
  {
    SharedLoses(st, order, live, m);
  }

  lemma Before(st: State, st': State, order: seq<string>, live: seq<Device>, m: string)
    requires Shrinks(st, st', live, m) && Enumerates(order, st'.Keys) && Setting(st', live)
    requires m in st' && LiveClaim(st'[m], live) && !Unique(st', m) && Room(st', live, m) && !Single(st', live)
    ensures Room(st, live, m) && !Single(st, live)
  {
    hide Setting, Single, LiveClaim, Unique, Enumerates;
    SharedLosesHere(st', order, live, m);
    SingleBefore(st, st', live, m);
  }

  /** A loser's own step leaves it at most one more change, and one only when it is cleared. */
  lemma LoserRank(st: State, order: seq<string>, live: seq<Device>, fw: Firmware, m: string)
    requires Enumerates(order, st.Keys) && Setting(st, live) && m in st && LiveClaim(st[m], live) && !First(st, order, m)
    ensures var st' := Step(st, order, live, fw, m);
            && m in st' && Rank(st', live, m) <= 1
            && (Single(st, live) ==> Rank(st', live, m) == 0)
            && (!Single(st, live) ==> m in Unstamped(st'))
  {
    SettingIsLive(st, live);
    hide Step, Setting, Stamp, LiveBus, Exact, ClaimedSerial, HasIdentity, IsLiveSerial, First;
    var st' := Step(st, order, live, fw, m);
    StepOutcome(st, order, live, fw, m);
    LoserStep(st, order, live, fw, m);
    if Single(st, live) {
      ExactClaims(st'[m], live);
      StampedNotEmpty(st'[m]);
      ClaimIsIdentity(st[m]);
      assert Unclaimed(st, ClaimedSerial(st'[m]));
      assert Unique(st', m);
    } else {
      StrippedIsEmpty(st'[m]);
    }
  }

  lemma {:induction false} TwoNeedRoom(st: State, moves: seq<Move>, live: seq<Device>, fw: Firmware, m: string)
    requires Legal(st, moves) && Setting(st, live) && m in st && LiveClaim(st[m], live) && Exact(st[m], live)
    requires Changes(st, moves, live, fw, m) >= 2
    ensures Room(st, live, m) && !Single(st, live)
    decreases |moves|
  {
    SettingIsLive(st, live);
    hide Step, Setting, Stamp, Legal, Enumerates, Room, Unstamped, Single, LiveBus, LiveClaim, Exact, Unique;
    ChangesBounded(st, moves, live, fw, m);
    if moves != [] {
      var order, n, rest := moves[0].order, moves[0].dpu, moves[1..];
      var st' := ChangesHead(st, moves, live, fw, m);
      OneMove(st, moves[0], live, fw, m);
      if Stamp(st'[m]) == Stamp(st[m]) {
        SameStampFacts(st[m], st'[m], live);
        TwoNeedRoom(st', rest, live, fw, m);
        ChangesBounded(st', rest, live, fw, m);
        Before(st, st', order, live, m);
      } else {
        MovedIsLoser(st, order, live, fw, m);
        LoserRank(st, order, live, fw, m);
        ChangesBounded(st', rest, live, fw, m);
        OneNeedsRoom(st', rest, live, fw, m);
      }
    }
  }

  lemma NoMoves(st: State, live: seq<Device>, fw: Firmware, m: string)
    requires m in st
    ensures Legal(st, []) && Changes(st, [], live, fw, m) == 0
  {
  }

  /** A first claimant with its card's stamp keeps it. */
  lemma MovedIsLoser(st: State, order: seq<string>, live: seq<Device>, fw: Firmware, m: string)
    requires Enumerates(order, st.Keys) && LiveBus(live) && m in st && LiveClaim(st[m], live) && Exact(st[m], live)
    requires var st' := Step(st, order, live, fw, m); m in st' && Stamp(st'[m]) != Stamp(st[m])
    ensures !First(st, order, m)
  {
    StepOutcome(st, order, live, fw, m);
    if First(st, order, m) {
      ExactSame(st[m], Step(st, order, live, fw, m)[m], live);
    }
  }

  lemma FirstLeaves(st: State, order: seq<string>, rest: seq<Move>, live: seq<Device>, fw: Firmware, m: string, st': State)
    requires Enumerates(order, st.Keys) && Setting(st, live) && m in st && LiveClaim(st[m], live) && First(st, order, m)
    requires st' == Step(st, order, live, fw, m) && Setting(st', live) && m in st' && Legal(st', rest)
    requires Changes(st', rest, live, fw, m) >= 2
    ensures Room(st, live, m) && !Single(st, live)
  {
    hide *;
    FirstMove(st, order, live, fw, m);
    TwoNeedRoom(st', rest, live, fw, m);
  }

  lemma LoserLeaves(st: State, order: seq<string>, rest: seq<Move>, live: seq<Device>, fw: Firmware, m: string, st': State)
    requires Enumerates(order, st.Keys) && Setting(st, live) && m in st && LiveClaim(st[m], live) && !First(st, order, m)
    requires st' == Step(st, order, live, fw, m) && m in st' && Legal(st', rest)
    ensures Changes(st', rest, live, fw, m) <= 1
  {
    hide *;
    SettingIsLive(st, live);
    LoserRank(st, order, live, fw, m);
    ChangesBounded(st', rest, live, fw, m);
  }

  lemma RankThree(st: State, moves: seq<Move>, live: seq<Device>, fw: Firmware, m: string)
    requires Legal(st, moves) && Setting(st, live) && m in st && Changes(st, moves, live, fw, m) >= 3
    ensures LiveClaim(st[m], live) && !Unique(st, m) && !Exact(st[m], live) && moves != []
  {
    hide *;
    SettingIsLive(st, live);
    ChangesBounded(st, moves, live, fw, m);
    NoMoves(st, live, fw, m);
  }

  lemma {:induction false} ThreeNeed(st: State, moves: seq<Move>, live: seq<Device>, fw: Firmware, m: string)
    requires Legal(st, moves) && Setting(st, live) && m in st && Changes(st, moves, live, fw, m) >= 3
    ensures CanThree(st, live, m)
    decreases |moves|
  {
    hide *;
    RankThree(st, moves, live, fw, m);
    var order, rest := moves[0].order, moves[1..];
    var st' := ChangesHead(st, moves, live, fw, m);
    OneMove(st, moves[0], live, fw, m);
    if Stamp(st'[m]) == Stamp(st[m]) {
      ThreeNeed(st', rest, live, fw, m);
      CanThreeParts(st', live, m);
      Before(st, st', order, live, m);
    } else {
      MovedLeaves(st, order, rest, live, fw, m, st');
    }
    CanThreeParts(st, live, m);
  }

  lemma MovedLeaves(st: State, order: seq<string>, rest: seq<Move>, live: seq<Device>, fw: Firmware, m: string, st': State)
    requires Enumerates(order, st.Keys) && Setting(st, live) && m in st && LiveClaim(st[m], live)
    requires st' == Step(st, order, live, fw, m) && Setting(st', live) && m in st' && Legal(st', rest)
    requires Changes(st', rest, live, fw, m) >= 2
    ensures Room(st, live, m) && !Single(st, live)
  {
    hide Setting, Step, LiveClaim, First, Legal, Changes, Room, Single;
    if First(st, order, m) {
      FirstLeaves(st, order, rest, live, fw, m, st');
    } else {
      LoserLeaves(st, order, rest, live, fw, m, st');
    }
  }

  lemma CanThreeParts(st: State, live: seq<Device>, m: string)
    requires m in st
    ensures CanThree(st, live, m) <==>
            LiveClaim(st[m], live) && !Unique(st, m) && !Exact(st[m], live) && Room(st, live, m) && !Single(st, live)
  {
  }

  /** The first claimant's own step: its card's stamp, and the numbers as they were. */
  lemma FirstMove(st: State, order: seq<string>, live: seq<Device>, fw: Firmware, m: string)
    requires Enumerates(order, st.Keys) && Setting(st, live) && m in st && LiveClaim(st[m], live) && First(st, order, m)
    ensures var st' := Step(st, order, live, fw, m);
            && m in st' && LiveClaim(st'[m], live) && Exact(st'[m], live) && ClaimedSerial(st'[m]) == ClaimedSerial(st[m])
            && (Room(st', live, m) <==> Room(st, live, m)) && (Single(st', live) <==> Single(st, live))
  {
    SettingIsLive(st, live);
    hide Step, Setting, Stamp, LiveBus, Exact, ClaimedSerial, HasIdentity, IsLiveSerial, First, Unstamped, Taken;
    var st' := Step(st, order, live, fw, m);
    StepOutcome(st, order, live, fw, m);
    StepNumbers(st, order, live, fw, m);
    BelowIn(st, m);
    BelowIn(st', m);
    hide Below;
    assert Below(st', m) == Below(st, m);
    assert |st| == |st.Keys| && |st'| == |st'.Keys|;
  }

  // ----- What gives three changes -----

  /** An order of all names that begins with the given ones. */
  lemma {:induction false} OrderFrom(names: set<string>, first: seq<string>) returns (order: seq<string>)
    requires (forall i, j :: 0 <= i < j < |first| ==> first[i] != first[j]) && forall n :: n in first ==> n in names
    ensures Enumerates(order, names) && first <= order
    decreases names - set n | n in first
  {
    if n :| n in names && n !in first {
      assert (set x | x in first + [n]) == (set x | x in first) + {n};
      order := OrderFrom(names, first + [n]);
    } else {
      order := first;
    }
  }

  lemma FirstInOrder(st: State, order: seq<string>, m: string)
    requires Enumerates(order, st.Keys) && m in st && [m] <= order
    ensures First(st, order, m)
  {
    FirstHere(st, order, m, 0);
  }

  lemma LaterInOrder(st: State, order: seq<string>, k: string, m: string)
    requires Enumerates(order, st.Keys) && k in st && m in st && k != m && [k, m] <= order
    requires ClaimedSerial(st[k]) == ClaimedSerial(st[m])
    ensures !First(st, order, m)
  {
    var views := ViewsOf(st, order);
    FirstHere(st, order, m, 1);
    assert views[..1][0] == views[0] && views[0].ann == st[k] && views[1].ann == st[m];
  }

  lemma ThreeInARow(st: State, a: Move, b: Move, c: Move, st1: State, st2: State, st3: State, live: seq<Device>, fw: Firmware, m: string)
    requires Legal(st, [a, b, c]) && m in st && a.dpu == m && b.dpu == m && c.dpu == m
    requires Enumerates(a.order, st.Keys) && Enumerates(b.order, st.Keys) && Enumerates(c.order, st.Keys)
    requires st1.Keys == st.Keys && st2.Keys == st.Keys && st3.Keys == st.Keys
    requires st1 == Step(st, a.order, live, fw, m) && Stamp(st1[m]) != Stamp(st[m])
    requires st2 == Step(st1, b.order, live, fw, m) && Stamp(st2[m]) != Stamp(st1[m])
    requires st3 == Step(st2, c.order, live, fw, m) && Stamp(st3[m]) != Stamp(st2[m])
    ensures Changes(st, [a, b, c], live, fw, m) == 3
  {
    hide Step, Stamp, Legal, Enumerates;
    assert [a, b, c][1..] == [b, c] && [b, c][1..] == [c] && [c][1..] == [];
    var s1 := ChangesHead(st, [a, b, c], live, fw, m);
    var s2 := ChangesHead(st1, [b, c], live, fw, m);
    var s3 := ChangesHead(st2, [c], live, fw, m);
  }

  lemma LegalThree(st: State, a: Move, b: Move, c: Move)
    requires a.dpu in st && b.dpu in st && c.dpu in st
    requires Enumerates(a.order, st.Keys) && Enumerates(b.order, st.Keys) && Enumerates(c.order, st.Keys)
    ensures Legal(st, [a, b, c])
  {
    hide Enumerates;
  }

  /** The second step: listed behind the other claimant, m is cleared and room stays. */
  lemma SecondMove(st: State, order: seq<string>, live: seq<Device>, fw: Firmware, m: string)
    requires Enumerates(order, st.Keys) && Setting(st, live) && m in st && LiveClaim(st[m], live) && !First(st, order, m)
    requires Room(st, live, m) && !Single(st, live)
    ensures var st' := Step(st, order, live, fw, m);
            && st'.Keys == st.Keys && Setting(st', live) && m in Unstamped(st') && Room(st', live, m) && Stamp(st'[m]) != Stamp(st[m])
  {
    SettingIsLive(st, live);
    ClaimIsIdentity(st[m]);
    StampedNotEmpty(st[m]);
    hide Step, Setting, Stamp, LiveBus, Exact, ClaimedSerial, HasIdentity, IsLiveSerial, First, Unstamped, Taken, Single, Kept, Won;
    var st' := Step(st, order, live, fw, m);
    SettingStays(st, order, live, fw, m);
    StepNumbers(st, order, live, fw, m);
    LoserStep(st, order, live, fw, m);
    BelowIn(st, m);
    BelowIn(st', m);
    hide Below;
    assert Below(st', m) == Below(st, m);
  }

  /** The schedule: m wins its claim, loses it to the other claimant, and is given a spare card. */
  lemma ThreeSuffice(st: State, live: seq<Device>, fw: Firmware, m: string) returns (moves: seq<Move>)
    requires Setting(st, live) && m in st && CanThree(st, live, m)
    ensures Legal(st, moves) && Changes(st, moves, live, fw, m) == 3
  {
    var k :| k in st && k != m && ClaimedSerial(st[k]) == ClaimedSerial(st[m]);
    SettingIsLive(st, live);
    hide Step, Setting, Stamp, LiveBus, Legal, Enumerates, Room, Unstamped, Single, LiveClaim, Exact, Unique, ClaimedSerial, First;
    var front := OrderFrom(st.Keys, [m]);
    var back := OrderFrom(st.Keys, [k, m]);
    var a, b := Move(m, front), Move(m, back);
    LegalThree(st, a, b, a);
    FirstInOrder(st, front, m);
    FirstMove(st, front, live, fw, m);
    OneMove(st, a, live, fw, m);
    OneMove(st, a, live, fw, k);
    var st1 := Step(st, front, live, fw, m);
    if Stamp(st1[m]) == Stamp(st[m]) {
      SameStampFacts(st1[m], st[m], live);
    }
    LaterInOrder(st1, back, k, m);
    SecondMove(st1, back, live, fw, m);
    var st2 := Step(st1, back, live, fw, m);
    UnstampedStep(st2, front, live, fw, m);
    OneMove(st2, a, live, fw, m);
    var st3 := Step(st2, front, live, fw, m);
    moves := [a, b, a];
    ThreeInARow(st, a, b, a, st1, st2, st3, live, fw, m);
  }

  /** Where addresses decide nothing, some run with changing listing orders gives m
      three changes exactly when it shares a live claim without that card's stamp, a
      spare card is within its reach, and it is not the one DPU left for one card. */
  lemma ThreeChangesIff(st: State, live: seq<Device>, fw: Firmware, m: string)
    requires Setting(st, live) && m in st
    ensures (exists moves :: Legal(st, moves) && Changes(st, moves, live, fw, m) >= 3) <==> CanThree(st, live, m)
  {
    hide Setting, CanThree, Legal;
    if moves :| Legal(st, moves) && Changes(st, moves, live, fw, m) >= 3 {
      ThreeNeed(st, moves, live, fw, m);
    }
    if CanThree(st, live, m) {
      var moves := ThreeSuffice(st, live, fw, m);
    }
  }
}
