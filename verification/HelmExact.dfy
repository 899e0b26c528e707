/** What `Ensure` reports and writes, said of versions, statuses and errors
    themselves (pkg/lifecycle/helm_client.go). */
module HelmExact {
  import opened Text
  import opened Versions
  import opened Releases
  import opened Helm

  // ----- Reports -----

  /** Deployed at version 26.4.0. */
  ghost predicate DeployedAtPin(r: Release) {
    r.status == "deployed" && Parse(r.version) == Some(Version(26, 4, 0))
  }

  lemma AtPinIff(r: Release)
    ensures AtPin(r) <==> DeployedAtPin(r)
  {
    EqualToPin(r.version);
    hide Parse, VersionsEqual;
  }

  /** The version a rollback goes to: the remembered one, if the client keeps one
      and it is not empty, else the installed one. */
  ghost function LastKnownGood(w: World, h: Installer): string
    requires KEY in w.rels
  {
    if h.client.remembers && KEY in w.lastGood && w.lastGood[KEY].version != "" then w.lastGood[KEY].version
    else w.rels[KEY].version
  }

  /** Upgraded is reported only with the stored release deployed at 26.4.0, rolled
      back only with it deployed at the last known good version, which is another. */
  lemma ReportsAreTrue(w: World, h: Installer, intent: Intent, f: Faults)
    ensures var (w', r) := Ensure(w, h, intent, f);
            && (r.action == Upgraded ==> KEY in w'.rels && DeployedAtPin(w'.rels[KEY]) && r.version == w'.rels[KEY].version)
            && (r.action == RolledBack ==>
                  && KEY in w.rels && KEY in w'.rels && w'.rels[KEY].status == "deployed" && r.version == w'.rels[KEY].version
                  && Parse(w'.rels[KEY].version).Some?
                  && Parse(w'.rels[KEY].version) == Parse(LastKnownGood(w, h))
                  && Parse(LastKnownGood(w, h)) != Some(Version(26, 4, 0)))
  {
    var (w', r) := Ensure(w, h, intent, f);
    EnsureHonest(w, h, intent, f);
    hide Ensure, Parse, VersionsEqual;
    if KEY in w'.rels && KEY in w.rels {
      AtPinIff(w'.rels[KEY]);
      VersionsEqualIff(w'.rels[KEY].version, LastKnownGood(w, h));
      EqualToPin(LastKnownGood(w, h));
    }
  }

  lemma AttemptReportsGood(w: World, t: Try, lastGood: string)
    ensures var a := Attempt(w, t, lastGood); a.answer.Some? ==> a.answer.value.lastGood == lastGood
  {
    hide AtPin, UpgradeCall;
  }

  lemma {:induction false} AttemptsReportGood(w: World, f: Faults, i: nat, n: nat, before: Release, lastGood: string, lastErr: Err)
    requires i <= n
    ensures UpgradeOrRollback(w, f, i, n, before, lastGood, lastErr).1.lastGood == lastGood
    decreases n - i
  {
    hide Attempt, VersionsEqual, RollbackCall;
    if i < n {
      var a := Attempt(w, Nth(f.tries, i), lastGood);
      AttemptReportsGood(w, Nth(f.tries, i), lastGood);
      if a.answer.None? {
        AttemptsReportGood(a.w, f, i + 1, n, before, lastGood, a.err);
      }
    }
  }

  /** Whatever becomes of a managed release, the report names as last known good the
      version remembered before the call, or the installed one. */
  lemma LastKnownGoodReported(w: World, h: Installer, intent: Intent, f: Faults)
    requires Gate(intent, f).None? && f.getOk && KEY in w.rels && w.rels[KEY].labels.owner == "opi-nvidia-dpf-adapter"
    ensures Ensure(w, h, intent, f).1.lastGood ==
            if h.client.remembers && KEY in w.lastGood then w.lastGood[KEY].version else w.rels[KEY].version
  {
    hide Gate, ValidRelease, VersionsEqual, DecideReleaseAction, UpgradeOrRollback;
    var rel := w.rels[KEY];
    AttemptsReportGood(Remember(w, h, rel), f, 0, Attempts(h), rel, LastGood(w, h, rel), Other);
  }

  /** Every refusal before the first call, with its report. */
  lemma GateReports(intent: Intent, f: Faults)
    ensures f.ctxDone ==> Gate(intent, f) == Some(Result(Failed, "", false, "", OpTimeout, Some(Canceled)))
    ensures !f.ctxDone && intent.vendor == "amd" ==>
              Gate(intent, f) == Some(Result(Skipped, intent.pinned, false, "", OpNone, Some(NoVendorChart)))
    ensures !f.ctxDone && Lower(Trim(intent.vendor)) !in {"nvidia", "amd"} && intent.vendor != "amd" ==>
              Gate(intent, f) == Some(Result(Failed, "", false, "", OpFailed, Some(BadVendor)))
    ensures !f.ctxDone && Lower(Trim(intent.vendor)) == "nvidia" && LooksLikeUrl(Trim(intent.pinned)) ==>
              Gate(intent, f) == Some(Result(Skipped, "", false, "", OpFailed, Some(BadConfig)))
  {
    hide LooksLikeUrl;
    AmdIsNotNvidia();
  }

  /** What is reported of a managed release that is not moved. */
  lemma StandingReports(w: World, h: Installer, intent: Intent, f: Faults)
    requires Gate(intent, f).None? && f.getOk && KEY in w.rels && w.rels[KEY].labels.owner == "opi-nvidia-dpf-adapter"
    ensures var (w', r) := Ensure(w, h, intent, f);
            var v := w.rels[KEY].version;
            && (ValidRelease(v) && Parse(v) == Some(Version(26, 4, 0)) ==> r.action == NoChange && r.op == OpNoop && r.err == None)
            && (!ValidRelease(v) ==> r.action == Skipped && r.op == OpFailed && r.err == Some(Malformed))
            && (ValidRelease(v) && Parse(v).Some? && Precedes(Version(26, 4, 0), Parse(v).value) && !h.allowDowngrade ==>
                  r.action == Skipped && r.op == OpFailed && r.err == Some(DowngradeForbidden))
  {
    var v := w.rels[KEY].version;
    DecideAgainstPin(v, h.allowDowngrade);
    hide Gate, ValidRelease, Parse, DecideReleaseAction, UpgradeOrRollback;
  }

  /** A report of a release shows its version, and whether there is one. */
  lemma ObservedShows(action: Action, op: Op, rel: Release, lastGood: string, err: Option<Err>)
    ensures var r := Observed(action, op, rel, lastGood, err);
            && r.action == action && r.op == op && r.version == rel.version && r.lastGood == lastGood && r.err == err
            && (r.present <==> rel.name != "")
  {
  }

  // ----- Nothing after an uncertain outcome -----

  ghost predicate Uncertain(e: Err) {
    e == TimedOut || e == DeadlineExceeded || e == Canceled || e == UnknownOutcome
  }

  /** An upgrade of the stored managed release that reports an uncertain outcome
      ends the call: as upgraded when the read finds it deployed at 26.4.0, and else
      as unknown or timed out. */
  lemma UncertainAttempt(w: World, t: Try, lastGood: string, e: Err)
    requires KEY in w.rels && w.rels[KEY].labels.owner == "opi-nvidia-dpf-adapter"
    requires !t.ctxDone && t.upgrade.err == Some(e) && Uncertain(e)
    ensures var a := Attempt(w, t, lastGood);
            && a.answer.Some?
            && (if t.getOk && KEY in a.w.rels && DeployedAtPin(a.w.rels[KEY])
                then a.answer.value.action == Upgraded && a.answer.value.op == OpSucceeded && a.answer.value.err == None
                else a.answer.value.action == Failed && a.answer.value.err == Some(e)
                     && a.answer.value.op == (if e == UnknownOutcome then OpUnknown else OpTimeout))
  {
    var w2 := UpgradeCall(Logged(w, Checked(false)), t.upgrade).0;
    if KEY in w2.rels {
      AtPinIff(w2.rels[KEY]);
    }
    hide AtPin, DeployedAtPin;
  }

  ghost function LastCall(log: seq<Call>): Call
    requires log != []
  {
    log[|log| - 1]
  }

  /** How a call ends whose last entry is an uncertain upgrade. */
  ghost predicate EndsUncertain(log: seq<Call>, r: Result) {
    log != [] && LastCall(log).DidUpgrade? && LastCall(log).err.Some? && Uncertain(LastCall(log).err.value) ==>
      var e := LastCall(log).err.value;
      || r.action == Upgraded
      || (r.action == Failed && r.err == Some(e) && r.op == if e == UnknownOutcome then OpUnknown else OpTimeout)
  }

  lemma AttemptEndsUncertain(w: World, t: Try, lastGood: string)
    requires NoneFinal(w.log)
    ensures var a := Attempt(w, t, lastGood); a.answer.Some? ==> EndsUncertain(a.w.log, a.answer.value)
  {
    hide AtPin, NoneFinal;
    var w1 := Logged(w, Checked(t.ctxDone));
    if !t.ctxDone {
      UpgradeLogs(w1, t.upgrade);
    }
    hide UpgradeCall;
  }

  lemma RollbackEndsCertain(w: World, f: Faults, actual: Release, before: Release, lastGood: string, lastErr: Err)
    requires NoneFinal(w.log)
    ensures var (w', r) := RollbackAfterFailure(w, f, actual, before, lastGood, lastErr); EndsUncertain(w'.log, r)
  {
    hide VersionsEqual, RollbackCall;
    var to := RollbackTarget(before, lastGood);
    RollbackCallLogs(w, to, f.rollback);
    if w.log != [] {
      assert LastCall(w.log) in w.log;
      assert !Final(LastCall(w.log));
    }
  }

  lemma {:induction false} AttemptsEndUncertain(w: World, f: Faults, i: nat, n: nat, before: Release, lastGood: string, lastErr: Err)
    requires i <= n && NoneFinal(w.log)
    ensures var (w', r) := UpgradeOrRollback(w, f, i, n, before, lastGood, lastErr); EndsUncertain(w'.log, r)
    decreases n - i
  {
    hide Attempt, RollbackAfterFailure, EndsUncertain, NoneFinal;
    if i == n {
      RollbackEndsCertain(w, f, OrZero(Read(w, f.lastGetOk)), before, lastGood, lastErr);
    } else {
      var t := Nth(f.tries, i);
      AttemptEndsUncertain(w, t, lastGood);
      AttemptLog(w, t, lastGood);
      var a := Attempt(w, t, lastGood);
      if a.answer.None? {
        AttemptsEndUncertain(a.w, f, i + 1, n, before, lastGood, a.err);
      }
    }
  }

  lemma EnsureEndsUncertain(w: World, h: Installer, intent: Intent, f: Faults)
    requires w.log == []
    ensures var (w', r) := Ensure(w, h, intent, f); EndsUncertain(w'.log, r)
  {
    hide VersionsEqual, ValidRelease, DecideReleaseAction, UpgradeOrRollback, Gate, MatchesPinned;
    if KEY in w.rels {
      var rel := w.rels[KEY];
      AttemptsEndUncertain(Remember(w, h, rel), f, 0, Attempts(h), rel, LastGood(w, h, rel), Other);
    }
  }

  /** One call, any faults: an upgrade that reported a timeout, a deadline, a
      cancel or an unknown outcome is the last thing issued, there is no rollback, and
      the report is timed out or unknown unless the release was found upgraded. */
  lemma UncertainStops(w: World, h: Installer, intent: Intent, f: Faults, k: nat)
    requires w.log == []
    requires var log := Ensure(w, h, intent, f).0.log;
             k < |log| && log[k].DidUpgrade? && log[k].err.Some? && Uncertain(log[k].err.value)
    ensures var (w', r) := Ensure(w, h, intent, f);
            var e := w'.log[k].err.value;
            && k == |w'.log| - 1 && (forall c :: c in w'.log ==> !c.DidRollback? && !c.RefusedRollback?)
            && (r.action == Upgraded
                || (r.action == Failed && r.err == Some(e) && r.op == if e == UnknownOutcome then OpUnknown else OpTimeout))
  {
    hide *;
    EnsureBounded(w, h, intent, f);
    EnsureEndsUncertain(w, h, intent, f);
    RollbackIsLast(w, h, intent, f);
    var (w', r) := Ensure(w, h, intent, f);
    UncertainIsLast(w'.log, r, k);
  }

  lemma UncertainIsLast(log: seq<Call>, r: Result, k: nat)
    requires FinalIsLast(log) && EndsUncertain(log, r) && RollbackLast(log)
    requires k < |log| && log[k].DidUpgrade? && log[k].err.Some? && Uncertain(log[k].err.value)
    ensures k == |log| - 1 && forall c :: c in log ==> !c.DidRollback? && !c.RefusedRollback?
    ensures var e := log[k].err.value;
            || r.action == Upgraded
            || (r.action == Failed && r.err == Some(e) && r.op == if e == UnknownOutcome then OpUnknown else OpTimeout)
  {
    assert Final(log[k]);
  }

  ghost predicate NoRollback(log: seq<Call>) {
    forall j :: 0 <= j < |log| ==> !log[j].DidRollback? && !log[j].RefusedRollback?
  }

  /** A rollback comes last. */
  ghost predicate RollbackLast(log: seq<Call>) {
    forall j :: 0 <= j < |log| - 1 ==> !log[j].DidRollback? && !log[j].RefusedRollback?
  }

  lemma {:induction false} AttemptsRollbackLast(w: World, f: Faults, i: nat, n: nat, before: Release, lastGood: string, lastErr: Err)
    requires i <= n && NoRollback(w.log)
    ensures RollbackLast(UpgradeOrRollback(w, f, i, n, before, lastGood, lastErr).0.log)
    decreases n - i
  {
    hide Attempt, VersionsEqual, RollbackCall;
    if i == n {
      RollbackCallLogs(w, RollbackTarget(before, lastGood), f.rollback);
    } else {
      var t := Nth(f.tries, i);
      AttemptNoRollback(w, t, lastGood);
      var a := Attempt(w, t, lastGood);
      if a.answer.None? {
        AttemptsRollbackLast(a.w, f, i + 1, n, before, lastGood, a.err);
      }
    }
  }

  lemma AttemptNoRollback(w: World, t: Try, lastGood: string)
    requires NoRollback(w.log)
    ensures NoRollback(Attempt(w, t, lastGood).w.log)
  {
    hide AtPin, AfterUpgradeError, ReconcileAfterFailure;
    UpgradeLogs(Logged(w, Checked(t.ctxDone)), t.upgrade);
    hide UpgradeCall;
  }

  lemma RollbackIsLast(w: World, h: Installer, intent: Intent, f: Faults)
    requires w.log == []
    ensures RollbackLast(Ensure(w, h, intent, f).0.log)
  {
    hide VersionsEqual, ValidRelease, DecideReleaseAction, UpgradeOrRollback, Gate, MatchesPinned;
    if KEY in w.rels {
      var rel := w.rels[KEY];
      AttemptsRollbackLast(Remember(w, h, rel), f, 0, Attempts(h), rel, LastGood(w, h, rel), Other);
    }
  }

  // ----- What is written -----

  lemma KeyIs()
    ensures KEY == "dpf-operator-system/dpf-operator"
  {
  }

  /** An upgrade that takes effect stores the pinned chart, one revision up, owned. */
  lemma UpgradeStores(w: World, err: Option<Err>)
    requires KEY in w.rels && w.rels[KEY].labels.owner == "opi-nvidia-dpf-adapter"
    ensures var (w', e) := UpgradeCall(w, Outcome(err, Applied));
            var was := w.rels[KEY];
            && e == err
            && w'.rels == w.rels[KEY := Release("dpf-operator", "dpf-operator-system", "dpf-operator", "v26.4.0", "deployed",
                                                was.revision + 1, was.version,
                                                Labels("opi-nvidia-dpf-adapter", "", "installed"))]
            && w'.lastGood == (if KEY in w.lastGood then w.lastGood else w.lastGood[KEY := was])
  {
  }

  /** A rollback that takes effect stores the remembered release, one revision up. */
  lemma RollbackStores(w: World, to: string)
    requires KEY in w.rels && w.rels[KEY].labels.owner == "opi-nvidia-dpf-adapter" && ValidRelease(to)
    requires KEY in w.lastGood && Parse(w.lastGood[KEY].version).Some? && Parse(w.lastGood[KEY].version) == Parse(to)
    ensures var (w', e) := RollbackCall(w, to, Outcome(None, Applied));
            var good := w.lastGood[KEY];
            && e == None && w'.lastGood == w.lastGood
            && w'.rels == w.rels[KEY := Release(good.name, good.ns, good.chart, good.version, good.status,
                                                w.rels[KEY].revision + 1, good.version, good.labels)]
  {
    VersionsEqualIff(w.lastGood[KEY].version, to);
    hide Parse, VersionsEqual, ValidRelease;
  }

  /** A first install stores revision 1 of the pinned chart. */
  lemma InstallStores(w: World, h: Installer, intent: Intent, f: Faults)
    requires Gate(intent, f).None? && f.getOk && KEY !in w.rels
    ensures var (w', r) := Ensure(w, h, intent, f);
            if f.install.None?
            then r.action == Installed && r.version == "v26.4.0" && w'.lastGood == w.lastGood
                 && w'.rels == w.rels[KEY := Release("dpf-operator", "dpf-operator-system", "dpf-operator", "v26.4.0", "deployed",
                                                     1, "", Labels("opi-nvidia-dpf-adapter", "", "installed"))]
            else r.action == Failed && r.op == OpFailed && r.err == f.install && w'.rels == w.rels
  {
    hide Gate;
  }

  /** Adoption happens exactly for a release that is not ours, where it was asked
      for, the client can claim, nothing fails, and the release is the pinned chart
      deployed at 26.4.0; then two labels change and nothing else. */
  lemma AdoptedIff(w: World, h: Installer, intent: Intent, f: Faults)
    requires Gate(intent, f).None? && f.getOk && KEY in w.rels && w.rels[KEY].labels.owner != "opi-nvidia-dpf-adapter"
    ensures var (w', r) := Ensure(w, h, intent, f);
            var rel := w.rels[KEY];
            && (r.action == Adopted <==>
                  && intent.adopt && h.client.claims && f.claim.None? && DeployedAtPin(rel)
                  && rel.name == "dpf-operator" && rel.ns == "dpf-operator-system" && rel.chart == "dpf-operator")
            && w'.lastGood == w.lastGood
            && w'.rels == (if r.action == Adopted
                           then w.rels[KEY := rel.(labels := Labels("opi-nvidia-dpf-adapter", rel.labels.storage, "adopted"))]
                           else w.rels)
  {
    AtPinIff(w.rels[KEY]);
    hide Gate, AtPin, DeployedAtPin, UpgradeOrRollback, DecideReleaseAction;
  }
}
