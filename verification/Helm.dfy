/** The stored release record shared by the Helm clients and by cleanup
    (pkg/lifecycle/helm_client.go). */
module Releases {
  import opened Text
  import opened Versions

  const NAMESPACE := "dpf-operator-system"
  const RELEASE_NAME := "dpf-operator"
  const CHART_NAME := "dpf-operator"
  const OWNER := "opi-nvidia-dpf-adapter"
  const DEPLOYED := "deployed"
  const MODE_INSTALLED := "installed"
  const MODE_ADOPTED := "adopted"

  /** The three labels that are read; a missing label reads as empty. */
  datatype Labels = Labels(owner: string, storage: string, mode: string)

  datatype Release = Release(name: string, ns: string, chart: string, version: string, status: string,
                             revision: int, lastKnownGood: string, labels: Labels)

  /** What a failed read leaves behind. */
  const ZERO := Release("", "", "", "", "", 0, "", Labels("", "", ""))

  function ReleaseKey(ns: string, name: string): string {
    ns + "/" + name
  }

  const KEY := ReleaseKey(NAMESPACE, RELEASE_NAME)

  predicate Managed(r: Release) {
    r.labels.owner == OWNER
  }

  function OwnedRelease(revision: int, lastGood: string): Release {
    Release(RELEASE_NAME, NAMESPACE, CHART_NAME, PIN, DEPLOYED, revision, lastGood, Labels(OWNER, "", MODE_INSTALLED))
  }

  predicate AtPin(r: Release) {
    VersionsEqual(r.version, PIN) && r.status == DEPLOYED
  }

  predicate MatchesPinned(r: Release) {
    r.name == RELEASE_NAME && r.ns == NAMESPACE && r.chart == CHART_NAME && AtPin(r)
  }

  function Adopted(r: Release): Release {
    r.(labels := r.labels.(owner := OWNER, mode := MODE_ADOPTED))
  }
}

/** `HelmInstaller.Ensure` over a client whose calls may fail, time out, be
    unknown, or take effect and still report an error
    (pkg/lifecycle/helm_client.go). */
module Helm {
  import opened Text
  import opened Versions
  import opened Releases

  datatype Err =
    | NotFound | Exists | Unmanaged | TimedOut | UnknownOutcome | DeadlineExceeded | Canceled | RollbackFailed
    | NoVendorChart | BadVendor | BadConfig | UnsupportedVersion | DowngradeForbidden | Malformed
    | NotReachedPin | Other

  datatype Action = Failed | Skipped | Installed | LeftUnmanaged | Adopted | NoChange | Upgraded | RolledBack

  datatype Op = OpNone | OpSucceeded | OpFailed | OpTimeout | OpUnknown | OpRolledBack | OpRollbackFailed | OpNoop

  datatype Result = Result(action: Action, version: string, present: bool, lastGood: string, op: Op, err: Option<Err>)

  function Observed(action: Action, op: Op, rel: Release, lastGood: string, err: Option<Err>): Result {
    Result(action, rel.version, rel.name != "", lastGood, op, err)
  }

  function Bare(action: Action, op: Op, err: Err): Result {
    Result(action, "", false, "", op, Some(err))
  }

  // ----- The client's world -----

  /** One entry per look at the context and per mutating call, with what it reported. */
  datatype Call = Checked(done: bool) | DidInstall | DidClaim | DidUpgrade(err: Option<Err>) | RefusedRollback | DidRollback(err: Option<Err>)

  datatype World = World(rels: map<string, Release>, lastGood: map<string, Release>, log: seq<Call>)

  /** What a mutating call does to the stored release, whatever it reports. */
  datatype Effect = Untouched | Applied | Wrote(rel: Option<Release>)

  datatype Outcome = Outcome(err: Option<Err>, effect: Effect)

  /** One attempt: is the context done, how does the upgrade end, does the read after it work. */
  datatype Try = Try(ctxDone: bool, upgrade: Outcome, getOk: bool)

  datatype Faults = Faults(ctxDone: bool, getOk: bool, install: Option<Err>, claim: Option<Err>,
                           tries: seq<Try>, lastGetOk: bool, rollback: Outcome, rollbackGetOk: bool)

  const CALM := Try(false, Outcome(None, Applied), true)

  function Nth(tries: seq<Try>, i: nat): Try {
    if i < |tries| then tries[i] else CALM
  }

  /** What the client implements beside the five calls. */
  datatype Client = Client(remembers: bool, claims: bool)

  datatype Installer = Installer(client: Client, allowDowngrade: bool, maxAttempts: int)

  datatype Intent = Intent(vendor: string, pinned: string, adopt: bool)

  function Attempts(h: Installer): (n: nat) {
    if h.maxAttempts > 0 then h.maxAttempts else 2
  }

  function Stored(w: World): Release {
    if KEY in w.rels then w.rels[KEY] else ZERO
  }

  function Logged(w: World, c: Call): World {
    w.(log := w.log + [c])
  }

  function Put(rels: map<string, Release>, r: Option<Release>): map<string, Release> {
    if r.Some? then rels[KEY := r.value] else rels - {KEY}
  }

  /** A read: the release when the read works and one is stored. */
  function Read(w: World, ok: bool): Option<Release> {
    if ok && KEY in w.rels then Some(w.rels[KEY]) else None
  }

  function OrZero(r: Option<Release>): Release {
    if r.Some? then r.value else ZERO
  }

  function UpgradedRelease(existing: Release): Release {
    OwnedRelease(existing.revision + 1, existing.version)
  }

  /** `Upgrade`: refuses a missing or unmanaged release, saves the last known good once. */
  function UpgradeCall(w: World, o: Outcome): (World, Option<Err>) {
    if KEY !in w.rels then (Logged(w, DidUpgrade(Some(NotFound))), Some(NotFound))
    else if !Managed(w.rels[KEY]) then (Logged(w, DidUpgrade(Some(Unmanaged))), Some(Unmanaged))
    else
      var existing := w.rels[KEY];
      var w1 := if KEY in w.lastGood then w else w.(lastGood := w.lastGood[KEY := existing]);
      var rels := match o.effect
        case Untouched => w1.rels
        case Applied => w1.rels[KEY := UpgradedRelease(existing)]
        case Wrote(r) => Put(w1.rels, r);
      (Logged(w1.(rels := rels), DidUpgrade(o.err)), o.err)
  }

  function Restored(prev: Release, existing: Release): Release {
    prev.(revision := existing.revision + 1, lastKnownGood := prev.version)
  }

  /** `Rollback`: only to the remembered version; a malformed one is refused before
      the call counts. */
  function RollbackCall(w: World, to: string, o: Outcome): (World, Option<Err>) {
    if !ValidRelease(to) then (Logged(w, RefusedRollback), Some(Malformed))
    else if KEY !in w.rels then (Logged(w, DidRollback(Some(NotFound))), Some(NotFound))
    else if !Managed(w.rels[KEY]) then (Logged(w, DidRollback(Some(Unmanaged))), Some(Unmanaged))
    else
      var known := KEY in w.lastGood && VersionsEqual(w.lastGood[KEY].version, to);
      var err := if known then o.err else Some(RollbackFailed);
      var rels := match o.effect
        case Untouched => w.rels
        case Applied => if known then w.rels[KEY := Restored(w.lastGood[KEY], w.rels[KEY])] else w.rels
        case Wrote(r) => Put(w.rels, r);
      (Logged(w.(rels := rels), DidRollback(err)), err)
  }

  // ----- Ensure -----

  function ReconcileAfterFailure(actual: Release, lastGood: string, err: Err, op: Op): Result {
    if actual.name != "" && AtPin(actual) then Observed(Upgraded, OpSucceeded, actual, lastGood, None)
    else Observed(Failed, op, actual, lastGood, Some(err))
  }

  function RollbackTarget(before: Release, lastGood: string): string {
    if lastGood == "" then before.version else lastGood
  }

  function RollbackAfterFailure(w: World, f: Faults, actual: Release, before: Release, lastGood: string,
                                lastErr: Err): (World, Result) {
    var to := RollbackTarget(before, lastGood);
    if to == "" || VersionsEqual(to, PIN) then (w, Observed(Failed, OpFailed, actual, lastGood, Some(lastErr)))
    else
      var (w1, err) := RollbackCall(w, to, f.rollback);
      if err.Some? then
        var got := Read(w1, f.rollbackGetOk);
        (w1, Observed(Failed, OpRollbackFailed, if got.Some? then got.value else actual, lastGood, Some(RollbackFailed)))
      else if !VersionsEqual(Stored(w1).version, to) || Stored(w1).status != DEPLOYED then
        (w1, Observed(Failed, OpRollbackFailed, Stored(w1), lastGood, Some(RollbackFailed)))
      else (w1, Observed(RolledBack, OpRolledBack, Stored(w1), lastGood, None))
  }

  predicate TimeoutLike(e: Err) {
    e == TimedOut || e == DeadlineExceeded || e == Canceled
  }

  /** What follows an upgrade that reported `err`: an answer, or None to try again. */
  function AfterUpgradeError(w: World, getOk: bool, lastGood: string, err: Err): Option<Result> {
    var got := Read(w, getOk);
    if got.Some? && AtPin(got.value) then Some(Observed(Upgraded, OpSucceeded, got.value, lastGood, None))
    else if err == UnknownOutcome then
      Some(if got.Some? then Observed(Failed, OpUnknown, got.value, lastGood, Some(err))
           else Result(Failed, "", false, lastGood, OpUnknown, Some(err)))
    else if TimeoutLike(err) then
      Some(if got.Some? then ReconcileAfterFailure(got.value, lastGood, err, OpTimeout)
           else Result(Failed, "", false, lastGood, OpTimeout, Some(err)))
    else None
  }

  /** How one attempt leaves the world, with an answer or with the error to carry on. */
  datatype Attempted = Attempted(w: World, answer: Option<Result>, err: Err)

  function Attempt(w: World, t: Try, lastGood: string): Attempted {
    var w1 := Logged(w, Checked(t.ctxDone));
    if t.ctxDone then
      Attempted(w1, Some(ReconcileAfterFailure(OrZero(Read(w1, t.getOk)), lastGood, Canceled, OpTimeout)), Canceled)
    else
      var (w2, err) := UpgradeCall(w1, t.upgrade);
      if err.Some? then Attempted(w2, AfterUpgradeError(w2, t.getOk, lastGood, err.value), err.value)
      else if AtPin(Stored(w2)) then
        Attempted(w2, Some(Observed(Upgraded, OpSucceeded, Stored(w2), lastGood, None)), Other)
      else Attempted(w2, None, NotReachedPin)
  }

  /** Attempts i, i+1, .., n-1, and the rollback after the last. */
  function UpgradeOrRollback(w: World, f: Faults, i: nat, n: nat, before: Release, lastGood: string,
                             lastErr: Err): (World, Result)
    requires i <= n
    decreases n - i
  {
    if i == n then RollbackAfterFailure(w, f, OrZero(Read(w, f.lastGetOk)), before, lastGood, lastErr)
    else
      var a := Attempt(w, Nth(f.tries, i), lastGood);
      if a.answer.Some? then (a.w, a.answer.value)
      else UpgradeOrRollback(a.w, f, i + 1, n, before, lastGood, a.err)
  }

  function ClaimOrLeave(w: World, h: Installer, intent: Intent, f: Faults, rel: Release): (World, Result) {
    if !intent.adopt || !MatchesPinned(rel) || !h.client.claims then
      (w, Observed(LeftUnmanaged, OpSucceeded, rel, "", None))
    else
      var w1 := Logged(w, DidClaim);
      if f.claim.Some? then (w1, Observed(Failed, OpFailed, rel, "", f.claim))
      else
        (w1.(rels := w1.rels[KEY := Releases.Adopted(rel)]),
         Observed(Adopted, OpSucceeded, Releases.Adopted(rel), "", None))
  }

  /** The gates before the first call: context, vendor, version pin. */
  function Gate(intent: Intent, f: Faults): Option<Result> {
    if f.ctxDone then Some(Bare(Failed, OpTimeout, Canceled))
    else if intent.vendor == "amd" then Some(Result(Skipped, intent.pinned, false, "", OpNone, Some(NoVendorChart)))
    else
      var v := Lower(Trim(intent.vendor));
      if v != "nvidia" && v != "amd" then Some(Bare(Failed, OpFailed, BadVendor))
      else if LooksLikeUrl(Trim(intent.pinned)) || v == "amd" then Some(Bare(Skipped, OpFailed, BadConfig))
      else None
  }

  function RejectErr(installed: string): Err {
    if !ValidRelease(installed) then Malformed else DowngradeForbidden
  }

  /** The remembered version as it was before this call, else the installed one. */
  function LastGood(w: World, h: Installer, rel: Release): string {
    if h.client.remembers && KEY in w.lastGood then w.lastGood[KEY].version else rel.version
  }

  function Remember(w: World, h: Installer, rel: Release): World {
    if h.client.remembers then w.(lastGood := w.lastGood[KEY := rel]) else w
  }

  function Ensure(w: World, h: Installer, intent: Intent, f: Faults): (World, Result) {
    var gate := Gate(intent, f);
    if gate.Some? then (w, gate.value)
    else if !f.getOk then (w, Bare(Failed, OpFailed, Other))
    else if KEY !in w.rels then
      var w1 := Logged(w, DidInstall);
      if f.install.Some? then (w1, Bare(Failed, OpFailed, f.install.value))
      else
        var rel := OwnedRelease(1, "");
        (w1.(rels := w1.rels[KEY := rel]), Observed(Installed, OpSucceeded, rel, "", None))
    else
      var rel := w.rels[KEY];
      if !Managed(rel) then ClaimOrLeave(w, h, intent, f, rel)
      else
        var lastGood := LastGood(w, h, rel);
        match DecideReleaseAction(rel.version, PIN, h.allowDowngrade)
        case Noop => (w, Observed(NoChange, OpNoop, rel, lastGood, None))
        case Reject => (w, Observed(Skipped, OpFailed, rel, lastGood, Some(RejectErr(rel.version))))
        case _ => UpgradeOrRollback(Remember(w, h, rel), f, 0, Attempts(h), rel, lastGood, Other)
  }

  // ----- Honest reports, for any client -----

  /** What a reported action claims about the store. */
  ghost predicate Honest(w: World, r: Result, to: string) {
    && (r.action == Upgraded ==> KEY in w.rels && AtPin(w.rels[KEY]) && r.version == w.rels[KEY].version)
    && (r.action == RolledBack ==>
          KEY in w.rels && w.rels[KEY].status == DEPLOYED && VersionsEqual(w.rels[KEY].version, to)
          && !VersionsEqual(to, PIN) && r.version == w.rels[KEY].version)
  }

  lemma ZeroIsNotAtPin()
    ensures !AtPin(ZERO)
  {
  }

  lemma RollbackHonest(w: World, f: Faults, actual: Release, before: Release, lastGood: string, lastErr: Err)
    ensures var (w', r) := RollbackAfterFailure(w, f, actual, before, lastGood, lastErr);
            Honest(w', r, RollbackTarget(before, lastGood))
  {
    hide VersionsEqual, ValidRelease;
    var to := RollbackTarget(before, lastGood);
    var (w1, err) := RollbackCall(w, to, f.rollback);
    assert Stored(w1).status == DEPLOYED ==> KEY in w1.rels;
  }

  lemma AttemptHonest(w: World, t: Try, lastGood: string, to: string)
    ensures var a := Attempt(w, t, lastGood);
            a.answer.Some? ==> Honest(a.w, a.answer.value, to) && a.answer.value.action != RolledBack
  {
    hide VersionsEqual;
    ZeroIsNotAtPin();
  }

  lemma {:induction false} AttemptsHonest(w: World, f: Faults, i: nat, n: nat, before: Release, lastGood: string, lastErr: Err)
    requires i <= n
    ensures var (w', r) := UpgradeOrRollback(w, f, i, n, before, lastGood, lastErr);
            Honest(w', r, RollbackTarget(before, lastGood))
    decreases n - i
  {
    if i == n {
      RollbackHonest(w, f, OrZero(Read(w, f.lastGetOk)), before, lastGood, lastErr);
    } else {
      var a := Attempt(w, Nth(f.tries, i), lastGood);
      AttemptHonest(w, Nth(f.tries, i), lastGood, RollbackTarget(before, lastGood));
      if a.answer.None? {
        AttemptsHonest(a.w, f, i + 1, n, before, lastGood, a.err);
      }
    }
  }

  /** `Upgraded` only with the stored release deployed at the pin, `RolledBack`
      only with it deployed at the last known good version, whatever the
      client's calls did and reported. */
  lemma EnsureHonest(w: World, h: Installer, intent: Intent, f: Faults)
    ensures var (w', r) := Ensure(w, h, intent, f);
            KEY in w.rels || r.action !in {Upgraded, RolledBack}
    ensures KEY in w.rels ==>
              var (w', r) := Ensure(w, h, intent, f);
              Honest(w', r, RollbackTarget(w.rels[KEY], LastGood(w, h, w.rels[KEY])))
  {
    hide VersionsEqual, ValidRelease, DecideReleaseAction, UpgradeOrRollback, MatchesPinned, LooksLikeUrl;
    if KEY in w.rels {
      var rel := w.rels[KEY];
      AttemptsHonest(Remember(w, h, rel), f, 0, Attempts(h), rel, LastGood(w, h, rel), Other);
    }
  }

  // ----- Bounded retries; nothing after an unknown or timed-out outcome -----

  ghost predicate Final(c: Call) {
    match c
    case Checked(done) => done
    case DidUpgrade(Some(e)) => e in {UnknownOutcome, TimedOut, DeadlineExceeded, Canceled}
    case _ => false
  }

  ghost function Upgrades(log: seq<Call>): nat {
    if log == [] then 0 else Upgrades(log[..|log| - 1]) + if log[|log| - 1].DidUpgrade? then 1 else 0
  }

  ghost function Rollbacks(log: seq<Call>): nat {
    if log == [] then 0 else Rollbacks(log[..|log| - 1]) + if log[|log| - 1].DidRollback? then 1 else 0
  }

  /** Only the last entry may be final. */
  ghost predicate FinalIsLast(log: seq<Call>) {
    forall k :: 0 <= k < |log| - 1 ==> !Final(log[k])
  }

  ghost predicate NoneFinal(log: seq<Call>) {
    forall c :: c in log ==> !Final(c)
  }

  lemma LogGrows(log: seq<Call>, c: Call)
    ensures Upgrades(log + [c]) == Upgrades(log) + if c.DidUpgrade? then 1 else 0
    ensures Rollbacks(log + [c]) == Rollbacks(log) + if c.DidRollback? then 1 else 0
  {
    assert (log + [c])[..|log|] == log;
  }

  lemma FinalErrorAnswers(w: World, getOk: bool, lastGood: string, err: Err)
    ensures AfterUpgradeError(w, getOk, lastGood, err).None? ==> !Final(DidUpgrade(Some(err)))
  {
    hide AtPin;
  }

  lemma UpgradeLogs(w: World, o: Outcome)
    ensures var (w', err) := UpgradeCall(w, o); w'.log == w.log + [DidUpgrade(err)]
  {
  }

  /** An attempt logs its look at the context and at most one upgrade; it goes
      on only if neither was final. */
  lemma AttemptLog(w: World, t: Try, lastGood: string)
    requires NoneFinal(w.log)
    ensures var a := Attempt(w, t, lastGood);
            && FinalIsLast(a.w.log) && (a.answer.None? ==> NoneFinal(a.w.log))
            && Upgrades(a.w.log) <= Upgrades(w.log) + 1 && Rollbacks(a.w.log) == Rollbacks(w.log)
  {
    hide AtPin, AfterUpgradeError, ReconcileAfterFailure, UpgradeCall, FinalIsLast, NoneFinal, Upgrades, Rollbacks, Stored, Read, Observed;
    var w1 := Logged(w, Checked(t.ctxDone));
    OneMore(w.log, Checked(t.ctxDone));
    if !t.ctxDone {
      var (w2, err) := UpgradeCall(w1, t.upgrade);
      UpgradeLogs(w1, t.upgrade);
      if err.Some? {
        FinalErrorAnswers(w2, t.getOk, lastGood, err.value);
      }
      OneMore(w1.log, DidUpgrade(err));
    }
  }

  lemma RollbackCallLogs(w: World, to: string, o: Outcome)
    ensures var (w1, err) := RollbackCall(w, to, o); w1.log == w.log + [RefusedRollback] || w1.log == w.log + [DidRollback(err)]
  {
    hide VersionsEqual, ValidRelease;
  }

  /** One entry more on a log without final ones. */
  lemma OneMore(log: seq<Call>, c: Call)
    requires NoneFinal(log)
    ensures FinalIsLast(log) && FinalIsLast(log + [c]) && (!Final(c) ==> NoneFinal(log + [c]))
    ensures Upgrades(log + [c]) == Upgrades(log) + if c.DidUpgrade? then 1 else 0
    ensures Rollbacks(log + [c]) == Rollbacks(log) + if c.DidRollback? then 1 else 0
  {
    LogGrows(log, c);
    hide Final, Upgrades, Rollbacks;
  }

  lemma RollbackLog(w: World, f: Faults, actual: Release, before: Release, lastGood: string, lastErr: Err)
    requires NoneFinal(w.log)
    ensures var w' := RollbackAfterFailure(w, f, actual, before, lastGood, lastErr).0;
            FinalIsLast(w'.log) && Upgrades(w'.log) == Upgrades(w.log) && Rollbacks(w'.log) <= Rollbacks(w.log) + 1
  {
    hide VersionsEqual, RollbackCall, FinalIsLast, NoneFinal, Upgrades, Rollbacks, Stored, Read, Observed;
    var to := RollbackTarget(before, lastGood);
    var (w1, err) := RollbackCall(w, to, f.rollback);
    RollbackCallLogs(w, to, f.rollback);
    OneMore(w.log, RefusedRollback);
    OneMore(w.log, DidRollback(err));
  }

  lemma {:induction false} AttemptsBounded(w: World, f: Faults, i: nat, n: nat, before: Release, lastGood: string, lastErr: Err)
    requires i <= n && NoneFinal(w.log)
    ensures var w' := UpgradeOrRollback(w, f, i, n, before, lastGood, lastErr).0;
            && FinalIsLast(w'.log)
            && Upgrades(w'.log) <= Upgrades(w.log) + (n - i)
            && Rollbacks(w'.log) <= Rollbacks(w.log) + 1
    decreases n - i
  {
    if i == n {
      RollbackLog(w, f, OrZero(Read(w, f.lastGetOk)), before, lastGood, lastErr);
    } else {
      var a := Attempt(w, Nth(f.tries, i), lastGood);
      AttemptLog(w, Nth(f.tries, i), lastGood);
      if a.answer.None? {
        AttemptsBounded(a.w, f, i + 1, n, before, lastGood, a.err);
      }
    }
  }

  /** One call issues at most `Attempts` upgrades and one rollback, and after a
      done context or a timed-out, cancelled or unknown upgrade it issues nothing more. */
  lemma EnsureBounded(w: World, h: Installer, intent: Intent, f: Faults)
    requires w.log == []
    ensures var log := Ensure(w, h, intent, f).0.log;
            FinalIsLast(log) && Upgrades(log) <= (if h.maxAttempts > 0 then h.maxAttempts else 2) && Rollbacks(log) <= 1
  {
    hide VersionsEqual, ValidRelease, DecideReleaseAction, UpgradeOrRollback, Gate, MatchesPinned;
    LogGrows([], DidInstall);
    LogGrows([], DidClaim);
    assert Upgrades([]) == 0 && Rollbacks([]) == 0;
    if KEY in w.rels {
      var rel := w.rels[KEY];
      AttemptsBounded(Remember(w, h, rel), f, 0, Attempts(h), rel, LastGood(w, h, rel), Other);
    }
  }

  // ----- Releases that are not ours -----

  /** An unmanaged release is never installed over, upgraded or rolled back; it
      changes only when adoption was asked for and it already matches the pin,
      and then only in the two ownership labels. */
  lemma UnmanagedUntouched(w: World, h: Installer, intent: Intent, f: Faults)
    requires KEY in w.rels && !Managed(w.rels[KEY])
    ensures var (w', r) := Ensure(w, h, intent, f);
            && w'.lastGood == w.lastGood
            && (r.action == Adopted <==> w'.rels != w.rels)
            && (r.action == Adopted ==>
                  && intent.adopt && MatchesPinned(w.rels[KEY]) && w'.rels.Keys == w.rels.Keys
                  && Managed(w'.rels[KEY]) && MatchesPinned(w'.rels[KEY])
                  && w'.rels[KEY].(labels := w.rels[KEY].labels) == w.rels[KEY])
  {
    var (w', r) := Ensure(w, h, intent, f);
    if r.action == Adopted {
      assert w'.rels[KEY].labels.owner == OWNER;
      assert w.rels[KEY].labels.owner != OWNER;
      assert w'.rels[KEY] != w.rels[KEY];
      assert w'.rels.Keys == w.rels.Keys;
    }
  }

  /** Only an NVIDIA intent with a live context and no chart URL for a version
      gets as far as the client. */
  lemma OnlyNvidiaActs(w: World, h: Installer, intent: Intent, f: Faults)
    ensures Gate(intent, f).None? <==>
            !f.ctxDone && Lower(Trim(intent.vendor)) == "nvidia" && !LooksLikeUrl(Trim(intent.pinned))
    ensures Ensure(w, h, intent, f).0 != w ==> Lower(Trim(intent.vendor)) == "nvidia"
  {
    hide LooksLikeUrl, VersionsEqual, ValidRelease, DecideReleaseAction, UpgradeOrRollback, MatchesPinned;
    AmdIsNotNvidia();
  }

  lemma AmdIsNotNvidia()
    ensures Lower(Trim("amd")) != "nvidia" && "amd" != "nvidia"
  {
    assert |"amd"| == 3 && |"nvidia"| == 6;
  }

  // ----- Other releases are never touched -----

  ghost predicate SameElsewhere(a: World, b: World) {
    a.rels - {KEY} == b.rels - {KEY} && a.lastGood - {KEY} == b.lastGood - {KEY}
  }

  lemma UpgradeFrame(w: World, o: Outcome)
    ensures SameElsewhere(UpgradeCall(w, o).0, w)
  {
  }

  lemma AttemptFrame(w: World, t: Try, lastGood: string)
    ensures SameElsewhere(Attempt(w, t, lastGood).w, w)
  {
    hide AtPin, AfterUpgradeError, ReconcileAfterFailure, UpgradeCall;
    UpgradeFrame(Logged(w, Checked(t.ctxDone)), t.upgrade);
  }

  lemma RollbackFrame(w: World, f: Faults, actual: Release, before: Release, lastGood: string, lastErr: Err)
    ensures SameElsewhere(RollbackAfterFailure(w, f, actual, before, lastGood, lastErr).0, w)
  {
    hide VersionsEqual, ValidRelease;
  }

  lemma {:induction false} AttemptsFrame(w: World, f: Faults, i: nat, n: nat, before: Release, lastGood: string, lastErr: Err)
    requires i <= n
    ensures SameElsewhere(UpgradeOrRollback(w, f, i, n, before, lastGood, lastErr).0, w)
    decreases n - i
  {
    hide Attempt, RollbackAfterFailure;
    if i == n {
      RollbackFrame(w, f, OrZero(Read(w, f.lastGetOk)), before, lastGood, lastErr);
    } else {
      var a := Attempt(w, Nth(f.tries, i), lastGood);
      AttemptFrame(w, Nth(f.tries, i), lastGood);
      if a.answer.None? {
        AttemptsFrame(a.w, f, i + 1, n, before, lastGood, a.err);
      }
    }
  }

  lemma EnsureFrame(w: World, h: Installer, intent: Intent, f: Faults)
    ensures SameElsewhere(Ensure(w, h, intent, f).0, w)
  {
    hide VersionsEqual, ValidRelease, DecideReleaseAction, UpgradeOrRollback, Gate, MatchesPinned;
    if KEY in w.rels {
      var rel := w.rels[KEY];
      assert SameElsewhere(Remember(w, h, rel), w);
      AttemptsFrame(Remember(w, h, rel), f, 0, Attempts(h), rel, LastGood(w, h, rel), Other);
    }
  }
}
