/** Whole runs of `Ensure` calls against the in-process client's semantics:
    an upgrade either takes effect or does not, whatever it reports
    (pkg/lifecycle/helm_client.go). */
module HelmRuns {
  import opened Text
  import opened Versions
  import opened Releases
  import opened Helm

  /** A reported success took effect; a reported failure may have taken effect too. */
  ghost predicate Faithful(o: Outcome) {
    !o.effect.Wrote? && (o.err.None? ==> o.effect == Applied)
  }

  ghost predicate FaithfulCalls(f: Faults) {
    Faithful(f.rollback) && forall t :: t in f.tries ==> Faithful(t.upgrade)
  }

  ghost predicate OursAt(r: Release, version: string) {
    Managed(r) && r.status == DEPLOYED && r.version == version
  }

  /** One managed release at the starting version or at the pin; what is
      remembered is the starting version. */
  ghost predicate Inv(w: World, v0: string) {
    && KEY in w.rels
    && (OursAt(w.rels[KEY], v0) || OursAt(w.rels[KEY], PIN))
    && (if KEY in w.lastGood then OursAt(w.lastGood[KEY], v0) else OursAt(w.rels[KEY], v0))
  }

  /** The same releases exist, the revision did not go back, and an unchanged
      revision is an unchanged release. */
  ghost predicate Later(w: World, w': World) {
    && KEY in w.rels && w'.rels.Keys == w.rels.Keys
    && w'.rels[KEY].revision >= w.rels[KEY].revision
    && (w'.rels[KEY].revision == w.rels[KEY].revision ==> w'.rels == w.rels)
  }

  lemma UpgradeKeeps(w: World, o: Outcome, v0: string)
    requires Inv(w, v0) && Faithful(o)
    ensures var (w', err) := UpgradeCall(w, o);
            && Inv(w', v0) && Later(w, w') && KEY in w'.lastGood && err == o.err
            && (err.None? ==> OursAt(w'.rels[KEY], PIN))
  {
    hide VersionsEqual;
    var w' := UpgradeCall(w, o).0;
    assert w'.rels.Keys == w.rels.Keys;
  }

  lemma RollbackKeeps(w: World, to: string, o: Outcome, v0: string)
    requires Inv(w, v0) && Faithful(o)
    ensures var (w', err) := RollbackCall(w, to, o);
            && Inv(w', v0) && Later(w, w')
            && (err.None? ==> OursAt(w'.rels[KEY], v0))
            && (ValidRelease(to) && KEY in w.lastGood && VersionsEqual(v0, to) ==> err == o.err)
  {
    hide VersionsEqual, ValidRelease;
    var w' := RollbackCall(w, to, o).0;
    assert w'.rels.Keys == w.rels.Keys;
  }

  lemma AttemptKeeps(w: World, t: Try, lastGood: string, v0: string)
    requires Inv(w, v0) && Faithful(t.upgrade) && VersionsEqual(PIN, PIN)
    ensures var a := Attempt(w, t, lastGood);
            && Inv(a.w, v0) && Later(w, a.w)
            && (a.answer.Some? ==>
                  a.answer.value.action in {Upgraded, Failed} && a.answer.value.op in {OpSucceeded, OpUnknown, OpTimeout})
            && (a.answer.None? ==> KEY in a.w.lastGood)
  {
    hide VersionsEqual;
    var w1 := Logged(w, Checked(t.ctxDone));
    assert Inv(w1, v0);
    UpgradeKeeps(w1, t.upgrade, v0);
  }

  lemma RollbackAfterKeeps(w: World, f: Faults, actual: Release, before: Release, v0: string, lastErr: Err)
    requires Inv(w, v0) && Faithful(f.rollback) && KEY in w.lastGood
    requires before.version == v0 && v0 != "" && ValidRelease(v0) && !VersionsEqual(v0, PIN) && VersionsEqual(v0, v0)
    ensures var (w', r) := RollbackAfterFailure(w, f, actual, before, v0, lastErr);
            && Inv(w', v0) && Later(w, w')
            && (if f.rollback.err.None? then r.action == RolledBack && r.op == OpRolledBack && OursAt(w'.rels[KEY], v0)
                else r.action == Failed && r.op == OpRollbackFailed)
  {
    hide VersionsEqual, ValidRelease;
    RollbackKeeps(w, v0, f.rollback, v0);
  }

  /** Where a call that upgrades can end. */
  ghost predicate Ended(w: World, r: Result, f: Faults, v0: string) {
    match r.op
    case OpSucceeded => r.action == Upgraded
    case OpUnknown => r.action == Failed
    case OpTimeout => r.action == Failed
    case OpRolledBack => r.action == RolledBack && f.rollback.err.None? && KEY in w.rels && OursAt(w.rels[KEY], v0)
    case OpRollbackFailed => r.action == Failed && f.rollback.err.Some?
    case _ => false
  }

  lemma AttemptAnswers(w: World, t: Try, lastGood: string)
    ensures var a := Attempt(w, t, lastGood);
            a.answer.Some? ==> (a.answer.value.action == Upgraded <==> a.answer.value.op == OpSucceeded)
  {
    hide VersionsEqual;
  }

  lemma {:induction false} AttemptsKeep(w: World, f: Faults, i: nat, n: nat, before: Release, v0: string, lastErr: Err)
    requires i <= n && Inv(w, v0) && FaithfulCalls(f) && VersionsEqual(PIN, PIN)
    requires i == n ==> KEY in w.lastGood
    requires before.version == v0 && v0 != "" && ValidRelease(v0) && !VersionsEqual(v0, PIN) && VersionsEqual(v0, v0)
    ensures var (w', r) := UpgradeOrRollback(w, f, i, n, before, v0, lastErr);
            Inv(w', v0) && Later(w, w') && Ended(w', r, f, v0)
    decreases n - i
  {
    hide VersionsEqual, ValidRelease, Attempt, RollbackAfterFailure;
    if i == n {
      RollbackAfterKeeps(w, f, OrZero(Read(w, f.lastGetOk)), before, v0, lastErr);
    } else {
      var t := Nth(f.tries, i);
      var a := Attempt(w, t, v0);
      AttemptKeeps(w, t, v0, v0);
      AttemptAnswers(w, t, v0);
      if a.answer.None? {
        AttemptsKeep(a.w, f, i + 1, n, before, v0, a.err);
      }
    }
  }

  /** A version the installer would move to the pin. */
  ghost predicate Movable(v: string, allowDowngrade: bool) {
    DecideReleaseAction(v, PIN, allowDowngrade) in {Decision.Upgrade, Decision.Downgrade}
  }

  lemma MovableFacts(v: string, allowDowngrade: bool)
    ensures VersionsEqual(PIN, PIN) && !Movable(PIN, allowDowngrade)
    ensures Movable(v, allowDowngrade) ==> v != "" && ValidRelease(v) && !VersionsEqual(v, PIN) && VersionsEqual(v, v)
  {
    PinIsValid();
    DecideAgainstPin(v, allowDowngrade);
    DecideAgainstPin(PIN, allowDowngrade);
    hide Parse, ValidRelease, DecideReleaseAction;
    if Movable(v, allowDowngrade) {
      assert ValidRelease(v);
      EmptyIsNoRelease();
    }
  }

  lemma EmptyIsNoRelease()
    ensures !ValidRelease("")
  {
  }

  /** One call from the invariant: it keeps it, never goes back in revision, and
      where the release was to be moved it ends upgraded, timed out, unknown,
      rolled back to the starting version, or with a refused rollback. */
  lemma EnsureKeeps(w: World, h: Installer, intent: Intent, f: Faults, v0: string)
    requires Inv(w, v0) && FaithfulCalls(f)
    ensures var (w', r) := Ensure(w, h, intent, f);
            && Inv(w', v0) && Later(w, w')
            && (if Gate(intent, f).None? && f.getOk && Movable(w.rels[KEY].version, h.allowDowngrade)
                then Ended(w', r, f, v0) else w' == w)
  {
    hide VersionsEqual, ValidRelease, DecideReleaseAction, UpgradeOrRollback, Gate;
    var rel := w.rels[KEY];
    MovableFacts(rel.version, h.allowDowngrade);
    MovableFacts(PIN, h.allowDowngrade);
    if Movable(rel.version, h.allowDowngrade) {
      var w1 := Remember(w, h, rel);
      assert rel.version == v0;
      assert Inv(w1, v0) && Later(w, w1) && LastGood(w, h, rel) == v0;
      AttemptsKeep(w1, f, 0, Attempts(h), rel, v0, Other);
    }
  }

  /** Installed at a version equal to the pinned one, however it is written: the
      call changes nothing and calls nothing. */
  lemma PinnedIsInert(w: World, h: Installer, intent: Intent, f: Faults)
    requires KEY in w.rels && Managed(w.rels[KEY]) && VersionsEqual(w.rels[KEY].version, PIN)
    ensures Ensure(w, h, intent, f).0 == w
    ensures Gate(intent, f).None? && f.getOk && ValidRelease(w.rels[KEY].version) ==> Ensure(w, h, intent, f).1.op == OpNoop
  {
    var v := w.rels[KEY].version;
    EqualToPin(v);
    DecideAgainstPin(v, h.allowDowngrade);
    hide VersionsEqual, ValidRelease, DecideReleaseAction, UpgradeOrRollback, Gate, Parse;
  }

  // ----- Runs -----

  datatype Request = Request(h: Installer, intent: Intent, f: Faults)

  ghost function Run(w: World, reqs: seq<Request>): World
    decreases |reqs|
  {
    if reqs == [] then w
    else Run(Ensure(w, reqs[0].h, reqs[0].intent, reqs[0].f).0, reqs[1..])
  }

  ghost predicate FaithfulRun(reqs: seq<Request>) {
    forall q :: q in reqs ==> FaithfulCalls(q.f)
  }

  lemma LaterTransitive(a: World, b: World, c: World)
    requires Later(a, b) && Later(b, c)
    ensures Later(a, c)
  {
  }

  /** Every run of calls, each with its own installer settings, intent and
      faults: one release, at the starting version or the pin, at a revision
      that never goes back. */
  lemma {:induction false} RunIsSafe(w: World, reqs: seq<Request>, v0: string)
    requires Inv(w, v0) && FaithfulRun(reqs)
    ensures Inv(Run(w, reqs), v0) && Later(w, Run(w, reqs))
    decreases |reqs|
  {
    hide Ensure;
    if reqs != [] {
      var q := reqs[0];
      var w1 := Ensure(w, q.h, q.intent, q.f).0;
      EnsureKeeps(w, q.h, q.intent, q.f, v0);
      RunIsSafe(w1, reqs[1..], v0);
      LaterTransitive(w, w1, Run(w1, reqs[1..]));
    }
  }

  /** From one managed deployed release with nothing remembered. */
  lemma OneReleaseThroughout(r: Release, reqs: seq<Request>)
    requires OursAt(r, r.version) && FaithfulRun(reqs)
    ensures var w := Run(World(map[KEY := r], map[], []), reqs);
            && w.rels.Keys == {KEY}
            && (w.rels[KEY].version == r.version || w.rels[KEY].version == PIN)
            && Managed(w.rels[KEY]) && w.rels[KEY].status == DEPLOYED
            && w.rels[KEY].revision >= r.revision
  {
    var w0 := World(map[KEY := r], map[], []);
    assert Inv(w0, r.version);
    RunIsSafe(w0, reqs, r.version);
  }

  /** Once at the pinned version, in any spelling, every later call leaves the whole
      world as it is: no upgrade, no rollback, no install. */
  lemma {:induction false} PinIsForever(w: World, reqs: seq<Request>)
    requires KEY in w.rels && Managed(w.rels[KEY]) && VersionsEqual(w.rels[KEY].version, PIN)
    ensures Run(w, reqs) == w
    decreases |reqs|
  {
    hide Ensure, VersionsEqual;
    if reqs != [] {
      PinnedIsInert(w, reqs[0].h, reqs[0].intent, reqs[0].f);
      PinIsForever(w, reqs[1..]);
    }
  }

  /** However often it is called, a release that is not ours is left alone while no
      call asks for adoption. */
  lemma {:induction false} UnmanagedForever(w: World, reqs: seq<Request>)
    requires KEY in w.rels && !Managed(w.rels[KEY]) && forall q :: q in reqs ==> !q.intent.adopt
    ensures Run(w, reqs).rels == w.rels && Run(w, reqs).lastGood == w.lastGood
    decreases |reqs|
  {
    hide Ensure, MatchesPinned;
    if reqs != [] {
      assert reqs[0] in reqs;
      UnmanagedUntouched(w, reqs[0].h, reqs[0].intent, reqs[0].f);
      UnmanagedForever(Ensure(w, reqs[0].h, reqs[0].intent, reqs[0].f).0, reqs[1..]);
    }
  }

  // ----- Progress -----

  /** An attempt that fails in a way that is tried again. */
  ghost predicate Retried(t: Try) {
    !t.ctxDone && t.upgrade.err.Some? && t.upgrade.effect == Untouched
    && t.upgrade.err.value != UnknownOutcome && !TimeoutLike(t.upgrade.err.value)
  }

  /** An attempt whose upgrade takes effect and is seen to: it reports success, or
      an error of any kind and the read after it works. */
  ghost predicate TakesEffect(t: Try) {
    !t.ctxDone && t.upgrade.effect == Applied && (t.upgrade.err.None? || t.getOk)
  }

  lemma RetriedAttempt(w: World, t: Try, lastGood: string)
    requires KEY in w.rels && Managed(w.rels[KEY]) && Retried(t) && !AtPin(w.rels[KEY])
    ensures var a := Attempt(w, t, lastGood);
            && a.answer.None? && a.w.rels == w.rels
            && a.w.lastGood == if KEY in w.lastGood then w.lastGood else w.lastGood[KEY := w.rels[KEY]]
  {
    hide VersionsEqual;
  }

  lemma GoodAttempt(w: World, t: Try, lastGood: string)
    requires KEY in w.rels && Managed(w.rels[KEY]) && TakesEffect(t)
    ensures var a := Attempt(w, t, lastGood);
            a.answer.Some? && a.answer.value.action == Upgraded && KEY in a.w.rels && AtPin(a.w.rels[KEY])
  {
    hide VersionsEqual;
    MovableFacts(PIN, false);
  }

  lemma {:induction false} ReachesPin(w: World, f: Faults, i: nat, n: nat, k: nat, before: Release, lastGood: string, lastErr: Err)
    requires i <= k < n && KEY in w.rels && Managed(w.rels[KEY]) && !AtPin(w.rels[KEY])
    requires forall j :: i <= j < k ==> Retried(Nth(f.tries, j))
    requires TakesEffect(Nth(f.tries, k))
    ensures var (w', r) := UpgradeOrRollback(w, f, i, n, before, lastGood, lastErr);
            r.action == Upgraded && KEY in w'.rels && AtPin(w'.rels[KEY])
    decreases n - i
  {
    hide AtPin, Attempt, RollbackAfterFailure;
    var t := Nth(f.tries, i);
    if i < k {
      assert Retried(t);
      RetriedAttempt(w, t, lastGood);
      var a := Attempt(w, t, lastGood);
      ReachesPin(a.w, f, i + 1, n, k, before, lastGood, a.err);
    } else {
      GoodAttempt(w, t, lastGood);
    }
  }

  /** Fewer failures than attempts, none of them a timeout, cancel or unknown, and
      then an upgrade that takes effect, even one that reports an error: the call
      ends upgraded, at the pin. */
  lemma EnsureReachesPin(w: World, h: Installer, intent: Intent, f: Faults, k: nat)
    requires KEY in w.rels && Managed(w.rels[KEY]) && Movable(w.rels[KEY].version, h.allowDowngrade)
    requires Gate(intent, f).None? && f.getOk && k < Attempts(h)
    requires forall j :: 0 <= j < k ==> Retried(Nth(f.tries, j))
    requires TakesEffect(Nth(f.tries, k))
    ensures var (w', r) := Ensure(w, h, intent, f);
            r.action == Upgraded && KEY in w'.rels && AtPin(w'.rels[KEY])
  {
    hide VersionsEqual, ValidRelease, DecideReleaseAction, UpgradeOrRollback, Gate;
    var rel := w.rels[KEY];
    MovableFacts(rel.version, h.allowDowngrade);
    ReachesPin(Remember(w, h, rel), f, 0, Attempts(h), k, rel, LastGood(w, h, rel), Other);
  }

  // ----- A stale memory -----

  /** Attempts that are all retried end in the rollback, with the store as it was. */
  lemma {:induction false} AllRetried(w: World, f: Faults, i: nat, n: nat, before: Release, lastGood: string, lastErr: Err)
    returns (w': World, err: Err)
    requires i <= n && KEY in w.rels && Managed(w.rels[KEY]) && !AtPin(w.rels[KEY]) && KEY in w.lastGood
    requires forall j :: i <= j < n ==> Retried(Nth(f.tries, j))
    ensures w'.rels == w.rels && w'.lastGood == w.lastGood
    ensures UpgradeOrRollback(w, f, i, n, before, lastGood, lastErr)
         == RollbackAfterFailure(w', f, OrZero(Read(w', f.lastGetOk)), before, lastGood, err)
    decreases n - i
  {
    hide AtPin, Attempt, RollbackAfterFailure;
    if i == n {
      w', err := w, lastErr;
    } else {
      var t := Nth(f.tries, i);
      assert Retried(t);
      RetriedAttempt(w, t, lastGood);
      var a := Attempt(w, t, lastGood);
      w', err := AllRetried(a.w, f, i + 1, n, before, lastGood, a.err);
    }
  }

  lemma RollbackRestoresIff(w: World, f: Faults, actual: Release, before: Release, lastGood: string, lastErr: Err)
    requires KEY in w.rels && Managed(w.rels[KEY])
    requires KEY in w.lastGood && OursAt(w.lastGood[KEY], before.version)
    requires ValidRelease(before.version) && VersionsEqual(before.version, before.version) && before.version != ""
    requires !VersionsEqual(before.version, PIN) && f.rollback == Outcome(None, Applied)
    requires VersionsEqual(lastGood, PIN) ==> !VersionsEqual(before.version, lastGood)
    ensures RollbackAfterFailure(w, f, actual, before, lastGood, lastErr).1.action == RolledBack
            <==> lastGood == "" || (ValidRelease(lastGood) && VersionsEqual(before.version, lastGood))
  {
    hide VersionsEqual, ValidRelease;
  }

  lemma EqualVersionsCompareAlike(a: string, b: string)
    requires VersionsEqual(a, b) && VersionsEqual(b, PIN)
    ensures VersionsEqual(a, PIN)
  {
    CompareIsOrder(Parse(a).value, Parse(b).value, Parse(b).value);
    CompareIsOrder(Parse(b).value, Parse(PIN).value, Parse(b).value);
  }

  /** When every attempt fails and the client's rollback is healthy, the release
      is rolled back exactly when nothing else was remembered: the installer asks
      for the version remembered before it overwrote that memory. */
  lemma RolledBackIffMemoryFresh(w: World, h: Installer, intent: Intent, f: Faults)
    requires KEY in w.rels && OursAt(w.rels[KEY], w.rels[KEY].version) && Movable(w.rels[KEY].version, h.allowDowngrade)
    requires h.client.remembers && Gate(intent, f).None? && f.getOk
    requires forall j :: 0 <= j < Attempts(h) ==> Retried(Nth(f.tries, j))
    requires f.rollback == Outcome(None, Applied)
    ensures var v := LastGood(w, h, w.rels[KEY]);
            Ensure(w, h, intent, f).1.action == RolledBack
            <==> v == "" || (ValidRelease(v) && VersionsEqual(w.rels[KEY].version, v))
  {
    hide VersionsEqual, ValidRelease, DecideReleaseAction, UpgradeOrRollback, RollbackAfterFailure, Gate;
    var rel := w.rels[KEY];
    var v := LastGood(w, h, rel);
    MovableFacts(rel.version, h.allowDowngrade);
    var w1 := Remember(w, h, rel);
    var w', err := AllRetried(w1, f, 0, Attempts(h), rel, v, Other);
    if VersionsEqual(rel.version, v) && VersionsEqual(v, PIN) {
      EqualVersionsCompareAlike(rel.version, v);
    }
    RollbackRestoresIff(w', f, OrZero(Read(w', f.lastGetOk)), rel, v, err);
  }
}
