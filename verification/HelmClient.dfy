/** The in-process client and the installer's retry loop
    (pkg/lifecycle/helm_client.go). */
module HelmClient {
  import opened Text
  import opened Versions
  import opened Releases
  import opened Helm

  class MemoryHelmClient {
    var rels: map<string, Release>
    var lastGood: map<string, Release>
    var upgrades: nat
    var rollbacks: nat
    /** Everything issued so far; the two counters count its upgrades and rollbacks. */
    ghost var log: seq<Call>

    ghost predicate Valid()
      reads this
    {
      upgrades == Upgrades(log) && rollbacks == Rollbacks(log)
    }

    ghost function World(): Helm.World
      reads this
    {
      Helm.World(rels, lastGood, log)
    }

    constructor (rels: map<string, Release>)
      ensures Valid() && World() == Helm.World(rels, map[], [])
    {
      this.rels := rels;
      lastGood := map[];
      upgrades := 0;
      rollbacks := 0;
      log := [];
    }

    ghost method Note(c: Call)
      requires Valid() && !c.DidUpgrade? && !c.DidRollback?
      modifies this`log
      ensures Valid() && World() == Logged(old(World()), c)
    {
      LogGrows(log, c);
      log := log + [c];
    }

    /** `ok` is false when the read itself fails; None is "not found" or a failed read. */
    method GetRelease(ok: bool) returns (r: Option<Release>)
      ensures r == Read(World(), ok)
    {
      if !ok || KEY !in rels {
        return None;
      }
      return Some(rels[KEY]);
    }

    method Install(fault: Option<Err>) returns (r: Option<Release>, err: Option<Err>)
      requires Valid() && KEY !in rels
      modifies this
      ensures Valid() && err == fault
      ensures var w := Logged(old(World()), DidInstall);
              if fault.Some? then World() == w
              else r == Some(OwnedRelease(1, "")) && World() == w.(rels := w.rels[KEY := OwnedRelease(1, "")])
    {
      Note(DidInstall);
      if fault.Some? {
        return None, fault;
      }
      var rel := OwnedRelease(1, "");
      rels := rels[KEY := rel];
      return Some(rel), None;
    }

    method Upgrade(o: Outcome) returns (rel: Release, err: Option<Err>)
      requires Valid()
      modifies this
      ensures Valid() && (World(), err) == UpgradeCall(old(World()), o) && rel == Stored(World())
    {
      upgrades := upgrades + 1;
      if KEY !in rels {
        LogGrows(log, DidUpgrade(Some(NotFound)));
        log := log + [DidUpgrade(Some(NotFound))];
        return ZERO, Some(NotFound);
      }
      var existing := rels[KEY];
      if !Managed(existing) {
        LogGrows(log, DidUpgrade(Some(Unmanaged)));
        log := log + [DidUpgrade(Some(Unmanaged))];
        return existing, Some(Unmanaged);
      }
      if KEY !in lastGood {
        lastGood := lastGood[KEY := existing];
      }
      match o.effect {
        case Untouched =>
        case Applied => rels := rels[KEY := UpgradedRelease(existing)];
        case Wrote(r) => rels := Put(rels, r);
      }
      LogGrows(log, DidUpgrade(o.err));
      log := log + [DidUpgrade(o.err)];
      rel := if KEY in rels then rels[KEY] else ZERO;
      err := o.err;
    }

    method Rollback(to: string, o: Outcome) returns (rel: Release, err: Option<Err>)
      requires Valid()
      modifies this
      ensures Valid() && (World(), err) == RollbackCall(old(World()), to, o) && rel == Stored(World())
    {
      hide VersionsEqual, ValidRelease, Upgrades, Rollbacks;
      if !ValidRelease(to) {
        Note(RefusedRollback);
        return if KEY in rels then rels[KEY] else ZERO, Some(Malformed);
      }
      rollbacks := rollbacks + 1;
      if KEY !in rels {
        err := Some(NotFound);
      } else if !Managed(rels[KEY]) {
        err := Some(Unmanaged);
      } else {
        var existing := rels[KEY];
        var known := KEY in lastGood && VersionsEqual(lastGood[KEY].version, to);
        err := if known then o.err else Some(RollbackFailed);
        match o.effect {
          case Untouched =>
          case Applied =>
            if known {
              rels := rels[KEY := Restored(lastGood[KEY], existing)];
            }
          case Wrote(r) => rels := Put(rels, r);
        }
      }
      LogGrows(log, DidRollback(err));
      log := log + [DidRollback(err)];
      rel := if KEY in rels then rels[KEY] else ZERO;
    }

    /** Stamps ownership on a release that already matches the pin. */
    method ClaimRelease(rel: Release, fault: Option<Err>) returns (r: Release, err: Option<Err>)
      requires Valid() && KEY in rels && rels[KEY] == rel
      modifies this
      ensures Valid() && err == fault
      ensures var w := Logged(old(World()), DidClaim);
              if fault.Some? then World() == w
              else r == Releases.Adopted(rel) && World() == w.(rels := w.rels[KEY := r])
    {
      Note(DidClaim);
      if fault.Some? {
        return rel, fault;
      }
      r := Releases.Adopted(rel);
      rels := rels[KEY := r];
      err := None;
    }

    method RememberLastKnownGood(rel: Release)
      requires Valid()
      modifies this
      ensures Valid() && World() == old(World()).(lastGood := old(lastGood)[KEY := rel])
    {
      lastGood := lastGood[KEY := rel];
    }
  }

  method RollbackAfter(c: MemoryHelmClient, f: Faults, actual: Release, before: Release, lastGood: string, lastErr: Err)
    returns (r: Result)
    requires c.Valid()
    modifies c
    ensures c.Valid() && (c.World(), r) == RollbackAfterFailure(old(c.World()), f, actual, before, lastGood, lastErr)
  {
    hide VersionsEqual, ValidRelease, RollbackCall;
    var to := if lastGood == "" then before.version else lastGood;
    if to == "" || VersionsEqual(to, PIN) {
      return Observed(Failed, OpFailed, actual, lastGood, Some(lastErr));
    }
    var rb, err := c.Rollback(to, f.rollback);
    if err.Some? {
      var got := c.GetRelease(f.rollbackGetOk);
      var cur := if got.Some? then got.value else actual;
      return Observed(Failed, OpRollbackFailed, cur, lastGood, Some(RollbackFailed));
    }
    if !VersionsEqual(rb.version, to) || rb.status != DEPLOYED {
      return Observed(Failed, OpRollbackFailed, rb, lastGood, Some(RollbackFailed));
    }
    return Observed(RolledBack, OpRolledBack, rb, lastGood, None);
  }

  /** One pass through the retry loop's body. */
  method TryUpgrade(c: MemoryHelmClient, t: Try, lastGood: string) returns (answer: Option<Result>, err: Err)
    requires c.Valid()
    modifies c
    ensures c.Valid() && Attempted(c.World(), answer, err) == Attempt(old(c.World()), t, lastGood)
  {
    hide VersionsEqual, UpgradeCall;
    c.Note(Checked(t.ctxDone));
    if t.ctxDone {
      var actual := c.GetRelease(t.getOk);
      return Some(ReconcileAfterFailure(OrZero(actual), lastGood, Canceled, OpTimeout)), Canceled;
    }
    var rel, e := c.Upgrade(t.upgrade);
    if e.None? {
      if !AtPin(rel) {
        return None, NotReachedPin;
      }
      return Some(Observed(Upgraded, OpSucceeded, rel, lastGood, None)), Other;
    }
    err := e.value;
    var actual := c.GetRelease(t.getOk);
    if actual.Some? && AtPin(actual.value) {
      answer := Some(Observed(Upgraded, OpSucceeded, actual.value, lastGood, None));
    } else if err == UnknownOutcome {
      answer := Some(if actual.Some? then Observed(Failed, OpUnknown, actual.value, lastGood, Some(err))
                     else Result(Failed, "", false, lastGood, OpUnknown, Some(err)));
    } else if TimeoutLike(err) {
      answer := Some(if actual.Some? then ReconcileAfterFailure(actual.value, lastGood, err, OpTimeout)
                     else Result(Failed, "", false, lastGood, OpTimeout, Some(err)));
    } else {
      answer := None;
    }
  }

  /** The retry loop. */
  method UpgradeLoop(c: MemoryHelmClient, f: Faults, attempts: nat, before: Release, lastGood: string) returns (r: Result)
    requires c.Valid()
    modifies c
    ensures c.Valid()
    ensures (c.World(), r) == UpgradeOrRollback(old(c.World()), f, 0, attempts, before, lastGood, Other)
  {
    hide VersionsEqual, Attempt, RollbackAfterFailure;
    var lastErr := Other;
    var i := 0;
    while i < attempts
      invariant 0 <= i <= attempts && c.Valid()
      invariant UpgradeOrRollback(old(c.World()), f, 0, attempts, before, lastGood, Other)
             == UpgradeOrRollback(c.World(), f, i, attempts, before, lastGood, lastErr)
    {
      var answer, err := TryUpgrade(c, Nth(f.tries, i), lastGood);
      if answer.Some? {
        return answer.value;
      }
      lastErr := err;
      i := i + 1;
    }
    var actual := c.GetRelease(f.lastGetOk);
    r := RollbackAfter(c, f, OrZero(actual), before, lastGood, lastErr);
  }

  /** `Ensure` against the client object. */
  method EnsureInstalled(c: MemoryHelmClient, h: Installer, intent: Intent, f: Faults) returns (r: Result)
    requires c.Valid()
    modifies c
    ensures c.Valid() && (c.World(), r) == Ensure(old(c.World()), h, intent, f)
  {
    hide VersionsEqual, ValidRelease, DecideReleaseAction, UpgradeOrRollback, Gate, MatchesPinned;
    var gate := Gate(intent, f);
    if gate.Some? {
      return gate.value;
    }
    if !f.getOk {
      return Bare(Failed, OpFailed, Other);
    }
    var got := c.GetRelease(f.getOk);
    if got.None? {
      var rel, err := c.Install(f.install);
      if err.Some? {
        return Bare(Failed, OpFailed, err.value);
      }
      return Observed(Installed, OpSucceeded, rel.value, "", None);
    }
    var rel := got.value;
    if !Managed(rel) {
      if !intent.adopt || !MatchesPinned(rel) || !h.client.claims {
        return Observed(LeftUnmanaged, OpSucceeded, rel, "", None);
      }
      var claimed, err := c.ClaimRelease(rel, f.claim);
      if err.Some? {
        return Observed(Failed, OpFailed, rel, "", err);
      }
      return Observed(Action.Adopted, OpSucceeded, claimed, "", None);
    }
    var lastGood := rel.version;
    if h.client.remembers && KEY in c.lastGood {
      lastGood := c.lastGood[KEY].version;
    }
    match DecideReleaseAction(rel.version, PIN, h.allowDowngrade) {
      case Noop => r := Observed(NoChange, OpNoop, rel, lastGood, None);
      case Reject => r := Observed(Skipped, OpFailed, rel, lastGood, Some(RejectErr(rel.version)));
      case _ =>
        if h.client.remembers {
          c.RememberLastKnownGood(rel);
        }
        r := UpgradeLoop(c, f, Attempts(h), rel, lastGood);
    }
  }
}
