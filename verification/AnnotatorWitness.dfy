/** Why the bound of two stamp changes needs a stable listing order: two DPUs that
    start out claiming one card, listed now one way and now the other. */
module AnnotatorWitness {
  import opened Text
  import opened Sorting
  import opened Inventory
  import opened Annotator
  import opened AnnotatorRuns
  import AnnotatorCounts
  import AnnotatorThree
  import AnnotatorThreeRuns

  function Card(c: char): Device {
    Device([c], Amd, [c], "p")
  }

  const BUS := [Card('1'), Card('2'), Card('3')]
  const CLAIM: Annotations := map[SerialKey(Amd) := "1"]
  const START: State := map["A" := CLAIM, "B" := CLAIM]
  const PLAIN := Firmware("", "", "")

  /** A wins its claim, loses it to B in another listing, and is given a spare card. */
  const MOVES := [Move("A", ["A", "B"]), Move("A", ["B", "A"]), Move("A", ["A", "B"])]

  lemma BusIsLive()
    ensures LiveBus(BUS)
  {
    CardIsValid('1');
    CardIsValid('2');
    CardIsValid('3');
    hide ValidIdentity, Trim;
  }

  lemma CardIsValid(c: char)
    requires !IsSpace(c)
    ensures ValidIdentity(Card(c)) && Trim(Card(c).serial) == Card(c).serial
  {
    TrimmedText([c]);
  }

  /** A DPU stamped for an AMD card claims by serial alone. */
  ghost predicate AmdClaim(a: Annotations, s: string) {
    ClaimedSerial(a) == s && ClaimedPCI(a) == ""
  }

  lemma FirstTakesCardOne(x: View, y: View)
    requires AmdClaim(x.ann, "1") && (AmdClaim(y.ann, "1") || AmdClaim(y.ann, "")) && x.name != y.name
    ensures AfterPci([x, y], BUS) == Give(NOTHING, x.name, Card('1'))
    ensures AfterPci([y, x], BUS) == if AmdClaim(y.ann, "") then Give(NOTHING, x.name, Card('1')) else Give(NOTHING, y.name, Card('1'))
  {
    hide ClaimedSerial, ClaimedPCI;
    OneTaken();
    PassOfTwo(x, y);
    PassOfTwo(y, x);
  }

  lemma OneTaken()
    ensures BySerial(BUS, "1") == Some(Card('1'))
  {
    assert BUS[..2] == [Card('1'), Card('2')] && BUS[..2][..1] == [Card('1')];
  }

  lemma PassOfTwo(x: View, y: View)
    requires ClaimedPCI(x.ann) == "" && ClaimedPCI(y.ann) == ""
    ensures AfterPci([x, y], BUS) == Offer(Offer(NOTHING, x.name, SerialWish(x, BUS)), y.name, SerialWish(y, BUS))
  {
    hide ClaimedSerial, ClaimedPCI, SerialWish, Offer;
    var vs := [x, y];
    assert vs[..1] == [x] && [x][..0] == [];
    assert SerialPass([x], BUS) == Offer(NOTHING, x.name, SerialWish(x, BUS));
    var s := SerialPass(vs, BUS);
    assert PciWish(x, BUS) == None && PciWish(y, BUS) == None;
    NoOffer(s, x.name);
    NoOffer(s, y.name);
    assert PciPass([x], BUS, s) == s;
  }

  lemma NoOffer(a: Alloc, name: string)
    ensures Offer(a, name, None) == a
  {
  }

  lemma UnboundOfTwo(x: View, y: View, a: Alloc, stamped: bool)
    ensures Unbound([x, y], a, stamped) ==
            (if x.name !in a.bound && HasIdentity(x.ann) == stamped then [x] else [])
          + (if y.name !in a.bound && HasIdentity(y.ann) == stamped then [y] else [])
  {
    hide HasIdentity;
    assert [x, y][..1] == [x] && [x][..0] == [];
    assert Unbound([x], a, stamped) == if x.name !in a.bound && HasIdentity(x.ann) == stamped then [x] else [];
  }

  lemma TwoSpare(name: string)
    ensures Unused(BUS, Give(NOTHING, name, Card('1')).Used()) == [Card('2'), Card('3')]
  {
    var used := Give(NOTHING, name, Card('1')).Used();
    assert used == {"1"};
    assert BUS[..2] == [Card('1'), Card('2')] && BUS[..2][..1] == [Card('1')] && [Card('1')][..0] == [];
    assert Unused([Card('1')], used) == [];
    assert Unused(BUS[..2], used) == [Card('2')];
  }

  /** The second claimant of a card loses its stamp when two cards are spare. */
  lemma LoserIsCleared(x: View, y: View)
    requires AmdClaim(x.ann, "1") && AmdClaim(y.ann, "1") && x.name != y.name
    ensures AssignmentFor([x, y], BUS, y.name) == Assignment(None, true)
  {
    var vs := [x, y];
    var a := AfterPci(vs, BUS);
    FirstTakesCardOne(x, y);
    assert HasIdentity(x.ann) && HasIdentity(y.ann);
    hide HasIdentity, AmdClaim, AfterPci, Unbound, Unused, StillUnbound, SortedSpare, PairUp;
    UnboundOfTwo(x, y, a, false);
    UnboundOfTwo(x, y, a, true);
    assert a.bound.Keys == {x.name};
    assert SortedEmpty(vs, BUS) == [];
    PairNone(SortedSpare(vs, BUS), a);
    assert AfterEmpty(vs, BUS) == a;
    assert Cleared(vs, BUS) == [y];
    StillOne(y, a);
    TwoSpare(x.name);
    assert Allocation(vs, BUS) == a;
    assert Cleared(vs, BUS)[0].name == y.name;
  }

  lemma PairNone(spare: seq<Device>, a: Alloc)
    ensures PairUp([], spare, 0, a) == a
  {
  }

  lemma StillOne(y: View, a: Alloc)
    requires y.name !in a.bound
    ensures StillUnbound([y], a) == [y]
  {
    assert [y][..0] == [];
  }

  lemma SortedOne(x: View)
    ensures Sort([x], (v: View) => v.name) == [x]
  {
    assert [x][1..] == [];
  }

  lemma SortedTwo()
    ensures |Sort([Card('2'), Card('3')], (d: Device) => d.pci)| == 2
  {
    SortPermutes([Card('2'), Card('3')], (d: Device) => d.pci);
  }

  /** An unstamped DPU beside a claimant is given a spare card. */
  lemma EmptyIsBound(x: View, y: View)
    requires !HasIdentity(x.ann) && AmdClaim(x.ann, "") && AmdClaim(y.ann, "1") && x.name != y.name
    ensures AssignmentFor([x, y], BUS, x.name).device.Some?
  {
    var vs := [x, y];
    var a := AfterPci(vs, BUS);
    FirstTakesCardOne(y, x);
    assert HasIdentity(y.ann);
    hide HasIdentity, AmdClaim, AfterPci, Sort, Unbound, Unused, StillUnbound;
    UnboundOfTwo(x, y, a, false);
    UnboundOfTwo(x, y, a, true);
    assert a.bound.Keys == {y.name};
    TwoSpare(y.name);
    SortedOne(x);
    SortedTwo();
    var spare := SortedSpare(vs, BUS);
    assert SortedEmpty(vs, BUS) == [x] && |spare| == 2;
    OnePair(x, spare, a);
    assert AfterEmpty(vs, BUS) == Give(a, x.name, spare[0]);
  }

  lemma OnePair(x: View, spare: seq<Device>, a: Alloc)
    requires |spare| >= 1
    ensures PairUp([x], spare, 1, a) == Give(a, x.name, spare[0])
  {
  }

  lemma StartFacts()
    ensures Legal(START, MOVES) && AmdClaim(CLAIM, "1") && LiveClaim(CLAIM, BUS) && !Exact(CLAIM, BUS)
  {
    assert BUS[0].serial == "1";
    forall i ensures !StampedAs(CLAIM, BUS, i) {
      NotStamped(i);
    }
  }

  lemma NotStamped(i: int)
    ensures !StampedAs(CLAIM, BUS, i)
  {
    assert ProductNameKey !in Stamp(CLAIM);
  }

  lemma MovesShape()
    ensures var forth, back := Move("A", ["A", "B"]), Move("A", ["B", "A"]); MOVES == [forth, back, forth]
  {
  }

  lemma OrdersFit()
    ensures START.Keys == {"A", "B"} && START["A"] == CLAIM
    ensures Enumerates(["A", "B"], START.Keys) && Enumerates(["B", "A"], START.Keys)
  {
  }

  lemma AFirst()
    ensures Enumerates(["A", "B"], START.Keys) && First(START, ["A", "B"], "A")
  {
    FirstHere(START, ["A", "B"], "A", 0);
  }

  /** Stamps of AMD cards carry no PCI address. */
  lemma ExactIsAmd(a: Annotations)
    requires Exact(a, BUS)
    ensures ClaimedPCI(a) == ""
  {
    var i :| StampedAs(a, BUS, i);
    assert PciAddressKey !in Stamp(a);
    assert PciAddressKey !in a;
  }

  /** The first listed of two claimants ends up exactly stamped. */
  lemma MoveOne() returns (st: State)
    ensures st == Step(START, ["A", "B"], BUS, PLAIN, "A")
    ensures st.Keys == START.Keys && st["B"] == CLAIM && AmdClaim(st["A"], "1")
    ensures Stamp(st["A"]) != Stamp(CLAIM) && Exact(st["A"], BUS)
  {
    st := Step(START, ["A", "B"], BUS, PLAIN, "A");
    BusIsLive();
    StartFacts();
    AFirst();
    hide Step, ClaimedSerial, HasIdentity, Stamp, First, Exact, IsLiveSerial, LiveBus, ClaimedPCI;
    StepOutcome(START, ["A", "B"], BUS, PLAIN, "A");
    ExactIsAmd(st["A"]);
    if Stamp(st["A"]) == Stamp(CLAIM) {
      ExactByStamp(st["A"], CLAIM, BUS);
    }
  }

  /** Listed second, it is cleared. */
  lemma MoveTwo(st: State) returns (st': State)
    requires st.Keys == START.Keys && st["B"] == CLAIM && AmdClaim(st["A"], "1") && Exact(st["A"], BUS)
    ensures st' == Step(st, ["B", "A"], BUS, PLAIN, "A")
    ensures st'.Keys == START.Keys && st'["B"] == CLAIM && Stamp(st'["A"]) == map[] && Stamp(st["A"]) != map[]
  {
    hide Step, LiveBus, HasIdentity, ClaimedSerial, AssignmentFor, Exact, Stamp, StripIdentity, Enumerates;
    st' := Step(st, ["B", "A"], BUS, PLAIN, "A");
    BusIsLive();
    StartFacts();
    OrdersFit();
    ClaimIsStamped(st["A"]);
    var views := ViewsOf(st, ["B", "A"]);
    assert views == [View("B", CLAIM), View("A", st["A"])];
    LoserIsCleared(View("B", CLAIM), View("A", st["A"]));
    StepWritesDesired(st, ["B", "A"], BUS, PLAIN, "A");
    ClearedStamp(st["A"], PLAIN);
  }

  lemma ClaimIsStamped(a: Annotations)
    requires AmdClaim(a, "1")
    ensures Stamp(a) != map[]
  {
    if Stamp(a) == map[] {
      StrippedIsEmpty(a);
    }
  }

  lemma CardStamp(i: nat)
    requires i < |BUS|
    ensures IdentityAnnotations(BUS[i]).Some? && IdentityAnnotations(BUS[i]).value != map[]
  {
    assert SerialKey(Amd) in IdentityAnnotations(BUS[i]).value;
  }

  /** Unstamped, it is given another card. */
  lemma MoveThree(st: State)
    requires st.Keys == START.Keys && st["B"] == CLAIM && Stamp(st["A"]) == map[]
    ensures var st' := Step(st, ["A", "B"], BUS, PLAIN, "A"); st'.Keys == st.Keys && Stamp(st'["A"]) != map[]
  {
    hide Step, LiveBus, HasIdentity, ClaimedSerial, AssignmentFor, Stamp, StripIdentity, IdentityAnnotations;
    hide DesiredAnnotations, AmdClaim, Enumerates;
    BusIsLive();
    OrdersFit();
    StartFacts();
    StrippedIsEmpty(st["A"]);
    StrippedAmd(st["A"]);
    var views := ViewsOf(st, ["A", "B"]);
    assert views == [View("A", st["A"]), View("B", CLAIM)];
    EmptyIsBound(View("A", st["A"]), View("B", CLAIM));
    var asg := AssignmentFor(views, BUS, "A");
    CardIsLive(st, ["A", "B"], BUS, "A");
    var i :| 0 <= i < |BUS| && BUS[i] == asg.device.value;
    BoundStamp(st["A"], asg, PLAIN, BUS, i);
    StepWritesDesired(st, ["A", "B"], BUS, PLAIN, "A");
    CardStamp(i);
  }

  lemma StrippedAmd(a: Annotations)
    requires Stamp(a) == map[]
    ensures AmdClaim(a, "")
  {
    StrippedIsEmpty(a);
    assert PciAddressKey !in Stamp(a);
    assert PciAddressKey !in a;
  }

  /** With listing orders that vary, a DPU that starts out sharing a live claim can
      see three changes of its stamp. */
  lemma ThreeChanges()
    ensures Legal(START, MOVES) && LiveBus(BUS) && Changes(START, MOVES, BUS, PLAIN, "A") == 3
  {
    hide *;
    BusIsLive();
    StartFacts();
    OrdersFit();
    var st1 := MoveOne();
    var st2 := MoveTwo(st1);
    MoveThree(st2);
    MovesShape();
    var forth, back := Move("A", ["A", "B"]), Move("A", ["B", "A"]);
    assert Legal(START, [forth, back, forth]);
    AnnotatorThreeRuns.ThreeInARow(START, forth, back, forth, st1, st2, Step(st2, ["A", "B"], BUS, PLAIN, "A"), BUS, PLAIN, "A");
  }

  lemma SettingHere()
    ensures AnnotatorThree.Setting(START, BUS)
  {
    BusIsLive();
    StartFacts();
    hide LiveBus;
    forall a, i | StampedAs(a, BUS, i) ensures AnnotatorThree.OwnAddress(a, BUS, i) {
      ExactIsAmd(a);
    }
    forall n | n in START ensures AnnotatorCounts.PciIdle(START, START[n], BUS) {
      assert START[n] == CLAIM;
    }
  }

  /** The exact condition holds of the witness. */
  lemma WitnessMeetsCondition()
    ensures AnnotatorThree.CanThree(START, BUS, "A")
  {
    hide *;
    ThreeChanges();
    OrdersFit();
    SettingHere();
    AnnotatorThreeRuns.ThreeNeed(START, MOVES, BUS, PLAIN, "A");
  }
}
