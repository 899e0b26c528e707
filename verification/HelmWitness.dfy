/** A stale memory: an outside change of the installed version between two calls,
    after which a healthy rollback is refused. */
module HelmWitness {
  import opened Text
  import opened Versions
  import opened Releases
  import opened Helm
  import opened HelmRuns

  const INTENT := Intent("nvidia", "", false)
  const INSTALLER := Installer(Client(true, true), false, 0)

  /** Every upgrade fails and leaves the store alone; the rollback is healthy. */
  const FAILING := Try(false, Outcome(Some(Other), Untouched), true)
  const FAULTS := Faults(false, true, None, None, [FAILING, FAILING], true, Outcome(None, Applied), true)

  ghost function At(v: Version): Release {
    OwnedRelease(1, "").(version := Tag(v))
  }

  ghost function WorldAt(v: Version, memory: Option<Version>): World {
    World(map[KEY := At(v)], if memory.Some? then map[KEY := At(memory.value)] else map[], [])
  }

  /** Somebody else, a Helm command line say, installs another version. */
  ghost function OutsideChange(w: World, v: Version): World {
    w.(rels := w.rels[KEY := At(v)])
  }

  lemma GateOpen()
    ensures Gate(INTENT, FAULTS).None?
  {
    hide Gate, Lower, Trim, LooksLikeUrl;
    OnlyNvidiaActs(WorldAt(WINDOW_MIN, None), INSTALLER, INTENT, FAULTS);
    NvidiaIsItself();
    NothingIsNoUrl();
  }

  lemma NvidiaIsItself()
    ensures Lower(Trim("nvidia")) == "nvidia"
  {
    TrimmedText("nvidia");
    hide Trim, Lower;
    forall k | 0 <= k < 6 ensures Lower("nvidia")[k] == "nvidia"[k] {
      LowerAt("nvidia", k);
    }
  }

  lemma NothingIsNoUrl()
    ensures !LooksLikeUrl(Trim(""))
  {
    assert Trim("") == "";
  }

  lemma BelowPinMoves(v: Version)
    requires Fits(v) && Precedes(v, WINDOW_MIN)
    ensures Movable(Tag(v), false)
  {
    TagIsRelease(v);
    DecideAgainstPin(Tag(v), false);
    hide ValidRelease, Parse, Tag, DecideReleaseAction;
  }

  lemma TagsEqualIff(a: Version, b: Version)
    requires Fits(a) && Fits(b)
    ensures VersionsEqual(Tag(a), Tag(b)) <==> a == b
  {
    TagIsRelease(a);
    TagIsRelease(b);
    CompareIsOrder(a, b, b);
    hide Parse, Tag;
  }

  lemma AllFail()
    ensures Attempts(INSTALLER) == 2 && forall j :: 0 <= j < 2 ==> Retried(Nth(FAULTS.tries, j))
  {
  }

  /** For every installed version below the pin and every remembered one: the
      failed upgrade is rolled back exactly when the two are the same version. */
  lemma RolledBackIffSame(v: Version, memory: Version)
    requires Fits(v) && Fits(memory) && Precedes(v, WINDOW_MIN)
    ensures Ensure(WorldAt(v, Some(memory)), INSTALLER, INTENT, FAULTS).1.action == RolledBack <==> v == memory
  {
    var w := WorldAt(v, Some(memory));
    GateOpen();
    AllFail();
    BelowPinMoves(v);
    TagIsRelease(memory);
    TagShape(memory);
    TagsEqualIff(v, memory);
    hide Ensure, Movable, Gate, ValidRelease, VersionsEqual, Tag, Parse, Retried;
    assert w.rels[KEY] == At(v) && LastGood(w, INSTALLER, At(v)) == Tag(memory);
    RolledBackIffMemoryFresh(w, INSTALLER, INTENT, FAULTS);
  }

  /** With nothing remembered the same call is rolled back. */
  lemma RolledBackWhenFresh(v: Version)
    requires Fits(v) && Precedes(v, WINDOW_MIN)
    ensures Ensure(WorldAt(v, None), INSTALLER, INTENT, FAULTS).1.action == RolledBack
  {
    var w := WorldAt(v, None);
    GateOpen();
    AllFail();
    BelowPinMoves(v);
    TagIsRelease(v);
    TagsEqualIff(v, v);
    hide Ensure, Movable, Gate, ValidRelease, VersionsEqual, Tag, Parse, Retried;
    assert w.rels[KEY] == At(v) && LastGood(w, INSTALLER, At(v)) == Tag(v);
    RolledBackIffMemoryFresh(w, INSTALLER, INTENT, FAULTS);
  }

  /** The two calls: the first is rolled back and remembers v24.0.0; then somebody
      installs v25.0.0; the second call, with the same faults, is not rolled back. */
  lemma OutsideChangeMakesMemoryStale()
    ensures var a, b := Version(24, 0, 0), Version(25, 0, 0);
            var (w1, r1) := Ensure(WorldAt(a, None), INSTALLER, INTENT, FAULTS);
            && r1.action == RolledBack && KEY in w1.lastGood && w1.lastGood[KEY].version == Tag(a)
            && Ensure(OutsideChange(w1, b), INSTALLER, INTENT, FAULTS).1.action != RolledBack
  {
    var a, b := Version(24, 0, 0), Version(25, 0, 0);
    var (w1, r1) := Ensure(WorldAt(a, None), INSTALLER, INTENT, FAULTS);
    RolledBackWhenFresh(a);
    FirstCallRemembers(a);
    var w2 := OutsideChange(w1, b);
    GateOpen();
    AllFail();
    BelowPinMoves(b);
    TagIsRelease(a);
    TagShape(a);
    TagsEqualIff(b, a);
    hide Ensure, Movable, Gate, ValidRelease, VersionsEqual, Tag, Parse, Retried, Attempts, Nth;
    assert w2.rels[KEY] == At(b) && LastGood(w2, INSTALLER, At(b)) == Tag(a);
    RolledBackIffMemoryFresh(w2, INSTALLER, INTENT, FAULTS);
  }

  lemma FirstCallRemembers(v: Version)
    requires Fits(v) && Precedes(v, WINDOW_MIN)
    ensures var w := Ensure(WorldAt(v, None), INSTALLER, INTENT, FAULTS).0;
            KEY in w.rels && KEY in w.lastGood && w.lastGood[KEY].version == Tag(v)
  {
    var w := WorldAt(v, None);
    assert Inv(w, Tag(v)) && FaithfulCalls(FAULTS);
    RolledBackWhenFresh(v);
    EnsureKeeps(w, INSTALLER, INTENT, FAULTS, Tag(v));
    MovedIsRemembered(w, v);
  }

  /** A call that moves the release leaves its version remembered. */
  lemma MovedIsRemembered(w: World, v: Version)
    requires w == WorldAt(v, None) && Fits(v) && Precedes(v, WINDOW_MIN)
    ensures KEY in Ensure(w, INSTALLER, INTENT, FAULTS).0.lastGood
  {
    GateOpen();
    BelowPinMoves(v);
    hide Gate, DecideReleaseAction, UpgradeOrRollback, VersionsEqual, ValidRelease, Tag;
    AttemptsRemember(Remember(w, INSTALLER, At(v)), 0, At(v), Tag(v), Other);
  }

  lemma {:induction false} AttemptsRemember(w: World, i: nat, before: Release, lastGood: string, lastErr: Err)
    requires i <= 2 && KEY in w.lastGood
    ensures KEY in UpgradeOrRollback(w, FAULTS, i, 2, before, lastGood, lastErr).0.lastGood
    decreases 2 - i
  {
    hide VersionsEqual, ValidRelease;
    if i < 2 {
      var a := Attempt(w, Nth(FAULTS.tries, i), lastGood);
      if a.answer.None? {
        AttemptsRemember(a.w, i + 1, before, lastGood, a.err);
      }
    }
  }
}
