/** Executing a cleanup while the environment acts between any two of its steps
    (pkg/lifecycle/cleanup.go). */
module CleanupRun {
  import opened Text
  import opened Releases
  import opened CleanupPlan

  /** What a read of the release shows. */
  datatype Look = Missing | Unreadable | Got(rel: Release)

  /** The world at each instant the cleanup looks at it or acts on it; nothing
      relates one instant to the next. */
  datatype Env = Env(
    first: Look, refs: Option<Refs>,
    second: Look,
    atUninstall: Option<Release>, uninstallFails: bool,
    liveRefs: Refs, refusedKeys: set<string>)

  datatype Settings = Settings(removal: string, adoption: string, allowCrd: bool)

  /** The report, and what was done: the release removed and the delete calls issued. */
  datatype Outcome = Outcome(action: Action, ownership: Ownership, succeeded: bool, crds: bool,
                             deleted: seq<ObjectRef>, skipped: seq<Skip>,
                             removed: Option<Release>, calls: seq<ObjectRef>)

  predicate StillProtected(d: ObjectRef, refs: Refs) {
    (exists cur :: cur in refs.dataplane && Key(cur) == Key(d) && ReferencedByOpi(cur, refs.opi))
    || ReferencedByOpi(d, refs.opi)
  }

  method StillProtectedLoop(d: ObjectRef, refs: Refs) returns (r: bool)
    ensures r == StillProtected(d, refs)
  {
    for i := 0 to |refs.dataplane|
      invariant forall k :: 0 <= k < i ==> !(Key(refs.dataplane[k]) == Key(d) && ReferencedByOpi(refs.dataplane[k], refs.opi))
    {
      var cur := refs.dataplane[i];
      var byOpi := ReferencedByOpiLoop(cur, refs.opi);
      if Key(cur) == Key(d) && byOpi {
        assert cur in refs.dataplane;
        return true;
      }
    }
    r := ReferencedByOpiLoop(d, refs.opi);
  }

  /** The delete calls: planned objects with no reference at the second lookup. */
  function Calls(ds: seq<ObjectRef>, refs: Refs): seq<ObjectRef> {
    if ds == [] then []
    else
      var rest, d := Calls(ds[..|ds| - 1], refs), ds[|ds| - 1];
      if StillProtected(d, refs) then rest else rest + [d]
  }

  function Succeeded(calls: seq<ObjectRef>, refused: set<string>): seq<ObjectRef> {
    if calls == [] then []
    else
      var rest, d := Succeeded(calls[..|calls| - 1], refused), calls[|calls| - 1];
      if Key(d) in refused then rest else rest + [d]
  }

  function LateSkips(ds: seq<ObjectRef>, refs: Refs, refused: set<string>): seq<Skip> {
    if ds == [] then []
    else
      var rest, d := LateSkips(ds[..|ds| - 1], refs, refused), ds[|ds| - 1];
      if StillProtected(d, refs) then rest + [Appeared(Key(d))]
      else if Key(d) in refused then rest + [DeleteFailed(Key(d))]
      else rest
  }

  function Removal(s: Settings): Policy {
    ParsePolicy(s.removal).0
  }

  function Adoption(s: Settings): Policy {
    ParsePolicy(s.adoption).0
  }

  function Notes(s: Settings): seq<Skip> {
    if ParsePolicy(s.removal).1 || ParsePolicy(s.adoption).1 then [PolicyNote] else []
  }

  function Stopped(action: Action, c: Ownership, ok: bool, skipped: seq<Skip>): Outcome {
    Outcome(action, c, ok, false, [], skipped, None, [])
  }

  function PlanOf(s: Settings, rel: Release, refs: Refs): Plan {
    var p := Decide(rel, Removal(s), Adoption(s), refs, s.allowCrd);
    p.(skipped := p.skipped + Notes(s))
  }

  function Execute(env: Env, plan: Plan): Outcome {
    if env.second.Missing? then Stopped(Gone, plan.ownership, true, plan.skipped)
    else if env.second.Unreadable? then Stopped(Failed, plan.ownership, false, plan.skipped)
    else
      var again := Classify(env.second.rel);
      if again != plan.ownership || !AllowsDelete(again) then
        Stopped(Failed, again, false, plan.skipped + [OwnershipChanged])
      else if env.atUninstall.None? then Stopped(Gone, plan.ownership, true, plan.skipped)
      else if !AllowsDelete(Classify(env.atUninstall.value)) || env.uninstallFails then
        Stopped(Failed, plan.ownership, false, plan.skipped)
      else
        var calls := Calls(plan.deletes, env.liveRefs);
        Outcome(Deleted, plan.ownership, true, plan.deleteCrds, Succeeded(calls, env.refusedKeys),
                plan.skipped + LateSkips(plan.deletes, env.liveRefs, env.refusedKeys), env.atUninstall, calls)
  }

  function Cleanup(env: Env, s: Settings): Outcome {
    if env.first.Missing? then Stopped(Gone, Invalid, true, [])
    else if env.first.Unreadable? then Stopped(Failed, Invalid, false, [])
    else if env.refs.None? then Stopped(Failed, Classify(env.first.rel), false, [])
    else
      var plan := PlanOf(s, env.first.rel, env.refs.value);
      if !plan.deleteRelease then Stopped(plan.action, plan.ownership, plan.action != Failed, plan.skipped)
      else Execute(env, plan)
  }

  // ----- The procedure -----

  method CleanupInstallations(env: Env, s: Settings) returns (out: Outcome)
    ensures out == Cleanup(env, s)
  {
    hide Classify, Decide, StillProtected;
    if env.first.Missing? {
      return Stopped(Gone, Invalid, true, []);
    }
    if env.first.Unreadable? {
      return Stopped(Failed, Invalid, false, []);
    }
    var rel := env.first.rel;
    if env.refs.None? {
      return Stopped(Failed, Classify(rel), false, []);
    }
    var plan := DecideCleanup(rel, Removal(s), Adoption(s), env.refs.value, s.allowCrd);
    plan := plan.(skipped := plan.skipped + Notes(s));
    if !plan.deleteRelease {
      return Stopped(plan.action, plan.ownership, plan.action != Failed, plan.skipped);
    }
    if env.second.Missing? {
      return Stopped(Gone, plan.ownership, true, plan.skipped);
    }
    if env.second.Unreadable? {
      return Stopped(Failed, plan.ownership, false, plan.skipped);
    }
    var again := Classify(env.second.rel);
    if again != plan.ownership || !AllowsDelete(again) {
      return Stopped(Failed, again, false, plan.skipped + [OwnershipChanged]);
    }
    if env.atUninstall.None? {
      return Stopped(Gone, plan.ownership, true, plan.skipped);
    }
    if !AllowsDelete(Classify(env.atUninstall.value)) || env.uninstallFails {
      return Stopped(Failed, plan.ownership, false, plan.skipped);
    }
    var calls, deleted, late := DeleteLoop(plan.deletes, env.liveRefs, env.refusedKeys);
    return Outcome(Deleted, plan.ownership, true, plan.deleteCrds, deleted, plan.skipped + late, env.atUninstall, calls);
  }

  method DeleteLoop(ds: seq<ObjectRef>, refs: Refs, refused: set<string>)
    returns (calls: seq<ObjectRef>, deleted: seq<ObjectRef>, late: seq<Skip>)
    ensures calls == Calls(ds, refs) && deleted == Succeeded(calls, refused) && late == LateSkips(ds, refs, refused)
  {
    hide StillProtected, Key;
    calls, deleted, late := [], [], [];
    for i := 0 to |ds|
      invariant calls == Calls(ds[..i], refs) && deleted == Succeeded(calls, refused)
      invariant late == LateSkips(ds[..i], refs, refused)
    {
      assert ds[..i + 1][..i] == ds[..i];
      var d := ds[i];
      var held := StillProtectedLoop(d, refs);
      if held {
        late := late + [Appeared(Key(d))];
        continue;
      }
      assert (calls + [d])[..|calls|] == calls;
      calls := calls + [d];
      if Key(d) in refused {
        late := late + [DeleteFailed(Key(d))];
        continue;
      }
      deleted := deleted + [d];
    }
    assert ds[..|ds|] == ds;
  }

  // ----- Removal -----

  /** The release is removed exactly when: it was readable and deletable under the
      policy of its class, the dependents could be listed, its class was the same
      at the second read, and it was adapter-owned at the instant of uninstall. */
  lemma RemovedIff(env: Env, s: Settings)
    ensures Cleanup(env, s).removed.Some? <==>
            && env.first.Got? && env.refs.Some?
            && AllowsDelete(Classify(env.first.rel))
            && PolicyFor(Classify(env.first.rel), Removal(s), Adoption(s)) == DeleteOwned
            && env.second.Got? && Classify(env.second.rel) == Classify(env.first.rel)
            && env.atUninstall.Some? && AllowsDelete(Classify(env.atUninstall.value)) && !env.uninstallFails
    ensures Cleanup(env, s).removed.Some? ==> Cleanup(env, s).removed == env.atUninstall
  {
    if env.first.Got? {
      NamelessIsInvalid(env.first.rel);
    }
    hide Classify, Selected, Kept, CrdsGo, Calls, Succeeded, LateSkips, ParsePolicy;
  }

  lemma NamelessIsInvalid(rel: Release)
    ensures rel.name == "" ==> Classify(rel) == Invalid
  {
  }

  /** The policy that lets a release go is "delete-owned", in any case and padding. */
  lemma PolicyIff(raw: string)
    ensures ParsePolicy(raw).0 == DeleteOwned <==> EqualFold(Trim(raw), DELETE_OWNED)
  {
    hide Lower, Trim;
    assert DELETE_OWNED != "" && DELETE_OWNED != RETAIN by {
      assert |DELETE_OWNED| == 12 && |RETAIN| == 6;
    }
    forall k | 0 <= k < 12 ensures Lower(DELETE_OWNED)[k] == DELETE_OWNED[k] {
      LowerAt(DELETE_OWNED, k);
    }
    assert Lower(DELETE_OWNED) == DELETE_OWNED;
  }

  /** External, invalid and retained releases: nothing is removed, no delete is issued. */
  lemma NotOursNoMutation(env: Env, s: Settings)
    requires env.first.Got? ==>
               var c := Classify(env.first.rel);
               !AllowsDelete(c) || PolicyFor(c, Removal(s), Adoption(s)) == Retain
    ensures var out := Cleanup(env, s); out.removed.None? && out.calls == [] && out.deleted == [] && !out.crds
  {
    if env.first.Got? {
      NamelessIsInvalid(env.first.rel);
    }
    hide Classify, Selected, Kept, CrdsGo, Calls, Succeeded, LateSkips, ParsePolicy;
  }

  // ----- Deletion of objects -----

  lemma {:induction false} CallsIff(ds: seq<ObjectRef>, refs: Refs, d: ObjectRef)
    ensures d in Calls(ds, refs) <==> d in ds && !StillProtected(d, refs)
  {
    hide StillProtected;
    if ds != [] {
      var init := ds[..|ds| - 1];
      assert ds == init + [ds[|ds| - 1]];
      CallsIff(init, refs, d);
    }
  }

  lemma {:induction false} SucceededIff(calls: seq<ObjectRef>, refused: set<string>, d: ObjectRef)
    ensures d in Succeeded(calls, refused) <==> d in calls && Key(d) !in refused
  {
    hide Key;
    if calls != [] {
      var init := calls[..|calls| - 1];
      assert calls == init + [calls[|calls| - 1]];
      SucceededIff(init, refused, d);
    }
  }

  /** Neither the object nor one listed under its key is flagged, or named by an
      OPI object of its namespace or of the cluster. */
  ghost predicate Unreferenced(d: ObjectRef, refs: Refs) {
    && !d.referenced && !OpiNames(refs.opi, d.name, d.ns)
    && forall cur :: cur in refs.dataplane && cur.ns + "/" + cur.kind + "/" + cur.name == d.ns + "/" + d.kind + "/" + d.name ==>
         !cur.referenced && !OpiNames(refs.opi, cur.name, cur.ns)
  }

  lemma ProtectedIff(d: ObjectRef, refs: Refs)
    ensures StillProtected(d, refs) <==> !Unreferenced(d, refs)
  {
    ReferencedIff(d, refs.opi);
    forall cur ensures ReferencedByOpi(cur, refs.opi) <==> cur.referenced || OpiNames(refs.opi, cur.name, cur.ns) {
      ReferencedIff(cur, refs.opi);
    }
    hide ReferencedByOpi, OpiNames;
  }

  /** A delete is issued exactly in a cleanup that removed the release, for an object
      listed at the first lookup, in the release's namespace, not labelled with
      another owner, and at neither lookup flagged or named by an OPI object of its
      namespace or of the cluster. */
  lemma CallIff(env: Env, s: Settings, d: ObjectRef)
    ensures var out := Cleanup(env, s);
            d in out.calls <==>
            && out.removed.Some?
            && d in env.refs.value.dataplane && d.ns == env.first.rel.ns && d.owner in {"", "opi-nvidia-dpf-adapter"}
            && !d.referenced && !OpiNames(env.refs.value.opi, d.name, d.ns) && Unreferenced(d, env.liveRefs)
  {
    var out := Cleanup(env, s);
    RemovedIff(env, s);
    if out.removed.Some? {
      var refs := env.refs.value;
      var plan := Decide(env.first.rel, Removal(s), Adoption(s), refs, s.allowCrd);
      assert out.calls == Calls(plan.deletes, env.liveRefs) && plan.deletes == Selected(refs.dataplane, env.first.rel.ns, refs.opi) by {
        hide Classify, CrdsGo, ParsePolicy, Calls, Selected, Kept;
      }
      hide Cleanup, Decide, Calls, Selected, StillProtected, Unreferenced, OpiNames, Protection;
      SelectedIff(refs.dataplane, env.first.rel.ns, refs.opi, d);
      ReasonIff(d, env.first.rel.ns, refs.opi);
      ProtectedIff(d, env.liveRefs);
      CallsIff(plan.deletes, env.liveRefs, d);
      SomeReason(d, env.first.rel.ns, refs.opi);
    } else {
      UnremovedDeletesNothing(env, s);
    }
  }

  lemma SomeReason(d: ObjectRef, ns: string, opi: seq<ObjectRef>)
    ensures Protection(d, ns, opi) in {None, Some(OtherNamespace), Some(NotOwned), Some(Referenced)}
  {
    hide ReferencedByOpi;
  }

  /** The delete calls for a listing: those selected and not protected later. */
  ghost function Doomed(ds: seq<ObjectRef>, ns: string, opi: seq<ObjectRef>, live: Refs): seq<ObjectRef> {
    Calls(Selected(ds, ns, opi), live)
  }

  /** What a cleanup that removed the release did. */
  lemma RemovedShape(env: Env, s: Settings)
    requires Cleanup(env, s).removed.Some?
    ensures var out, refs, ns := Cleanup(env, s), env.refs.value, env.first.rel.ns;
            && out.calls == Doomed(refs.dataplane, ns, refs.opi, env.liveRefs)
            && out.deleted == Succeeded(out.calls, env.refusedKeys)
            && out.crds == CrdsGo(refs, ns, s.allowCrd)
            && out.skipped == (if out.crds then [] else [CrdsRequired]) + Kept(refs.dataplane, ns, refs.opi) + Notes(s)
                              + LateSkips(Selected(refs.dataplane, ns, refs.opi), env.liveRefs, env.refusedKeys)
  {
    hide Classify, Selected, Kept, CrdsGo, Calls, Succeeded, LateSkips, ParsePolicy;
  }

  ghost predicate AccountedAtEnd(out: Outcome, d: ObjectRef) {
    d in out.deleted || (exists why :: Object(Key(d), why) in out.skipped)
    || Appeared(Key(d)) in out.skipped || DeleteFailed(Key(d)) in out.skipped
  }

  /** The report's action, from what the reads showed: gone when a read or the
      uninstall found no release, preserved when the release is external or policy
      retains it, deleted when it was removed, failed otherwise. */
  lemma ActionIff(env: Env, s: Settings)
    ensures var out := Cleanup(env, s);
            var ours := env.first.Got? && env.refs.Some? && AllowsDelete(Classify(env.first.rel));
            var go := ours && PolicyFor(Classify(env.first.rel), Removal(s), Adoption(s)) == DeleteOwned;
            var again := go && env.second.Got? && Classify(env.second.rel) == Classify(env.first.rel);
            && (out.action == Gone <==>
                  || env.first.Missing? || (env.first.Got? && env.refs.Some? && env.first.rel.name == "")
                  || (go && env.second.Missing?) || (again && env.atUninstall.None?))
            && (out.action == Preserved <==>
                  env.first.Got? && env.refs.Some? && env.first.rel.name != ""
                  && (Classify(env.first.rel) == External || (ours && !go)))
            && (out.action == Deleted <==>
                  again && env.atUninstall.Some? && AllowsDelete(Classify(env.atUninstall.value)) && !env.uninstallFails)
            && (out.succeeded <==> out.action != Failed)
  {
    hide Classify, Decide, Calls, Succeeded, LateSkips, Removal, Adoption, PolicyFor, Notes;
    if env.first.Got? && env.refs.Some? {
      PlannedOwnership(s, env.first.rel, env.refs.value);
      PlannedAction(s, env.first.rel, env.refs.value);
    }
  }

  lemma PlannedAction(s: Settings, rel: Release, refs: Refs)
    ensures var p := Decide(rel, Removal(s), Adoption(s), refs, s.allowCrd);
            !p.deleteRelease ==>
              && (p.action == Gone <==> rel.name == "")
              && (p.action == Preserved <==> rel.name != "" && Classify(rel) != Invalid)
              && (p.action == Failed <==> rel.name != "" && Classify(rel) == Invalid)
    ensures rel.name == "" ==> Classify(rel) == Invalid
  {
    NamelessIsInvalid(rel);
    hide Classify, Selected, Kept, CrdsGo, ParsePolicy;
  }

  /** The class reported: of the first read, or of the second where it was read and
      had changed; invalid where nothing could be read. */
  lemma OwnershipReported(env: Env, s: Settings)
    ensures var out := Cleanup(env, s);
            var go := env.first.Got? && env.refs.Some? && AllowsDelete(Classify(env.first.rel))
                      && PolicyFor(Classify(env.first.rel), Removal(s), Adoption(s)) == DeleteOwned;
            out.ownership ==
            if !env.first.Got? then Invalid
            else if go && env.second.Got? then Classify(env.second.rel)
            else Classify(env.first.rel)
  {
    hide Classify, Decide, Calls, Succeeded, LateSkips, Removal, Adoption, PolicyFor, Notes;
    if env.first.Got? && env.refs.Some? {
      PlannedOwnership(s, env.first.rel, env.refs.value);
    }
  }

  lemma PlannedOwnership(s: Settings, rel: Release, refs: Refs)
    ensures var p := Decide(rel, Removal(s), Adoption(s), refs, s.allowCrd);
            && p.ownership == Classify(rel)
            && (p.deleteRelease <==> AllowsDelete(Classify(rel)) && PolicyFor(Classify(rel), Removal(s), Adoption(s)) == DeleteOwned)
  {
    NamelessIsInvalid(rel);
    hide Classify, Selected, Kept, CrdsGo, ParsePolicy;
  }

  /** A release that is kept is reported with its reason, and with a note where an
      annotation was not a policy. */
  lemma KeptWithReason(env: Env, s: Settings)
    requires env.first.Got? && env.refs.Some? && env.first.rel.name != ""
    ensures var out, c := Cleanup(env, s), Classify(env.first.rel);
            var note := if Lower(Trim(s.removal)) in {"", "retain", "delete-owned"} && Lower(Trim(s.adoption)) in {"", "retain", "delete-owned"}
                        then [] else [PolicyNote];
            && (c == Invalid ==> out.skipped == [ReleaseInvalid] + note)
            && (c == External ==> out.skipped == [ReleaseExternal] + note)
            && (AllowsDelete(c) && PolicyFor(c, Removal(s), Adoption(s)) == Retain ==> out.skipped == [ReleaseRetained] + note)
  {
    NoteIff(s.removal);
    NoteIff(s.adoption);
    hide Classify, Selected, Kept, CrdsGo, Execute, ParsePolicy, Lower, Trim;
  }

  /** A note is left exactly for an annotation that is none of the known words. */
  lemma NoteIff(raw: string)
    ensures ParsePolicy(raw).1 <==> Lower(Trim(raw)) !in {"", "retain", "delete-owned"}
    ensures ParsePolicy(raw).0 == DeleteOwned <==> Lower(Trim(raw)) == "delete-owned"
  {
    hide Lower, Trim;
    assert |DELETE_OWNED| == 12 && |RETAIN| == 6;
  }

  lemma {:induction false} LateSkipsCover(ds: seq<ObjectRef>, refs: Refs, refused: set<string>, d: ObjectRef)
    requires d in ds
    ensures var late := LateSkips(ds, refs, refused);
            if StillProtected(d, refs) then Appeared(Key(d)) in late
            else Key(d) in refused ==> DeleteFailed(Key(d)) in late
  {
    hide StillProtected, Key;
    var init := ds[..|ds| - 1];
    assert ds == init + [ds[|ds| - 1]];
    if d in init {
      LateSkipsCover(init, refs, refused, d);
    }
  }

  /** After a removal every object of the first listing is deleted or reported with a reason. */
  lemma NothingUnreported(env: Env, s: Settings, d: ObjectRef)
    requires Cleanup(env, s).removed.Some? && d in env.refs.value.dataplane
    ensures AccountedAtEnd(Cleanup(env, s), d)
  {
    RemovedShape(env, s);
    hide Cleanup, CrdsGo, ParsePolicy, StillProtected, Key, Protection;
    var out := Cleanup(env, s);
    var refs, ns := env.refs.value, env.first.rel.ns;
    var sel := Selected(refs.dataplane, ns, refs.opi);
    EveryObjectAccounted(refs.dataplane, ns, refs.opi);
    assert Accounted(d, refs.dataplane, ns, refs.opi);
    if Protection(d, ns, refs.opi).None? {
      LateSkipsCover(sel, env.liveRefs, env.refusedKeys, d);
      CallsIff(sel, env.liveRefs, d);
      SucceededIff(out.calls, env.refusedKeys, d);
    }
  }

  lemma ReportsRemoval(env: Env, s: Settings)
    ensures var out := Cleanup(env, s);
            (out.action == Deleted <==> out.removed.Some?) && (out.action == Deleted ==> out.succeeded)
  {
    hide Classify, Selected, Kept, CrdsGo, Calls, Succeeded, LateSkips, ParsePolicy;
  }

  /** Deleted is reported exactly when the release was removed, and no object is
      reported deleted whose delete was not issued or did not succeed. */
  lemma ReportIsHonest(env: Env, s: Settings, d: ObjectRef)
    ensures var out := Cleanup(env, s);
            && (out.action == Deleted <==> out.removed.Some?)
            && (out.action == Deleted ==> out.succeeded)
            && (d in out.deleted ==> d in out.calls && Key(d) !in env.refusedKeys)
  {
    hide *;
    var out := Cleanup(env, s);
    ReportsRemoval(env, s);
    if out.removed.Some? {
      RemovedShape(env, s);
      SucceededIff(out.calls, env.refusedKeys, d);
    } else {
      UnremovedDeletesNothing(env, s);
    }
  }

  // ----- Monotonicity of the whole cleanup -----

  lemma StillProtectedMonotone(d: ObjectRef, d': ObjectRef, refs: Refs, refs': Refs)
    requires Raised(d, d') && More(refs, refs')
    ensures StillProtected(d, refs) ==> StillProtected(d', refs')
  {
    ReferencedMonotone(d, d', refs.opi, refs'.opi);
    if exists cur :: cur in refs.dataplane && Key(cur) == Key(d) && ReferencedByOpi(cur, refs.opi) {
      var cur :| cur in refs.dataplane && Key(cur) == Key(d) && ReferencedByOpi(cur, refs.opi);
      var k :| 0 <= k < |refs.dataplane| && refs.dataplane[k] == cur;
      var cur' := refs'.dataplane[k];
      assert Raised(cur, cur');
      ReferencedMonotone(cur, cur', refs.opi, refs'.opi);
      assert cur' in refs'.dataplane && Key(cur') == Key(d');
    }
  }

  ghost predicate Goes(d: ObjectRef, ns: string, opi: seq<ObjectRef>, live: Refs) {
    Protection(d, ns, opi).None? && !StillProtected(d, live)
  }

  lemma DoomedSnoc(ds: seq<ObjectRef>, ns: string, opi: seq<ObjectRef>, live: Refs)
    requires ds != []
    ensures var n := |ds| - 1;
            Keys(Doomed(ds, ns, opi, live)) == Keys(Doomed(ds[..n], ns, opi, live))
              + if Goes(ds[n], ns, opi, live) then multiset{Key(ds[n])} else multiset{}
  {
    hide Protection, StillProtected, Key;
    var n := |ds| - 1;
    var sel := Selected(ds[..n], ns, opi);
    assert (sel + [ds[n]])[..|sel|] == sel;
    KeysSnoc(Calls(sel, live), ds[n]);
  }

  lemma {:induction false} DoomedMonotone(ds: seq<ObjectRef>, ds': seq<ObjectRef>, ns: string, opi: seq<ObjectRef>,
                                          opi': seq<ObjectRef>, live: Refs, live': Refs)
    requires MoreReferenced(ds, ds') && (forall o :: o in opi ==> o in opi') && More(live, live')
    ensures Keys(Doomed(ds', ns, opi', live')) <= Keys(Doomed(ds, ns, opi, live))
  {
    hide Protection, StillProtected, Key, Raised, More, Doomed;
    if ds == [] {
      assert Keys(Doomed(ds', ns, opi', live')) == multiset{} by {
        DoomedEmpty(ns, opi', live');
      }
    } else {
      var n := |ds| - 1;
      MoreReferencedInit(ds, ds');
      DoomedMonotone(ds[..n], ds'[..n], ns, opi, opi', live, live');
      ProtectionMonotone(ds[n], ds'[n], ns, opi, opi');
      StillProtectedMonotone(ds[n], ds'[n], live, live');
      DoomedSnoc(ds, ns, opi, live);
      DoomedSnoc(ds', ns, opi', live');
    }
  }

  lemma DoomedEmpty(ns: string, opi: seq<ObjectRef>, live: Refs)
    ensures Keys(Doomed([], ns, opi, live)) == multiset{}
  {
  }

  lemma {:induction false} SucceededCount(calls: seq<ObjectRef>, refused: set<string>, k: string)
    ensures Keys(Succeeded(calls, refused))[k] == if k in refused then 0 else Keys(calls)[k]
  {
    hide Key;
    if calls != [] {
      var n := |calls| - 1;
      SucceededCount(calls[..n], refused, k);
      KeysSnoc(Succeeded(calls[..n], refused), calls[n]);
    }
  }

  /** With more tenants, dependents or references at either lookup and the rest of
      the world as it was, the cleanup deletes no object and no definition it
      would not have deleted, and removes the release in the same cases. */
  lemma CleanupMonotone(env: Env, env': Env, s: Settings)
    requires env.refs.Some? && env'.refs.Some? && More(env.refs.value, env'.refs.value) && More(env.liveRefs, env'.liveRefs)
    requires env' == env.(refs := env'.refs, liveRefs := env'.liveRefs)
    ensures var out, out' := Cleanup(env, s), Cleanup(env', s);
            && out'.removed == out.removed && (out'.crds ==> out.crds)
            && Keys(out'.calls) <= Keys(out.calls) && Keys(out'.deleted) <= Keys(out.deleted)
  {
    var out, out' := Cleanup(env, s), Cleanup(env', s);
    RemovedIff(env, s);
    RemovedIff(env', s);
    if out.removed.Some? {
      RemovedMonotone(env, env', s);
    } else {
      UnremovedDeletesNothing(env, s);
      UnremovedDeletesNothing(env', s);
    }
  }

  lemma UnremovedDeletesNothing(env: Env, s: Settings)
    requires Cleanup(env, s).removed.None?
    ensures var out := Cleanup(env, s); out.calls == [] && out.deleted == [] && !out.crds
  {
    hide Classify, Selected, Kept, CrdsGo, Calls, Succeeded, LateSkips, ParsePolicy;
  }

  lemma RemovedMonotone(env: Env, env': Env, s: Settings)
    requires env.refs.Some? && env'.refs.Some? && More(env.refs.value, env'.refs.value) && More(env.liveRefs, env'.liveRefs)
    requires env' == env.(refs := env'.refs, liveRefs := env'.liveRefs)
    requires Cleanup(env, s).removed.Some? && Cleanup(env', s).removed.Some?
    ensures var out, out' := Cleanup(env, s), Cleanup(env', s);
            (out'.crds ==> out.crds) && Keys(out'.calls) <= Keys(out.calls) && Keys(out'.deleted) <= Keys(out.deleted)
  {
    RemovedShape(env, s);
    RemovedShape(env', s);
    hide Cleanup, Doomed, Succeeded, StillRequired;
    var out, out' := Cleanup(env, s), Cleanup(env', s);
    var refs, refs', ns := env.refs.value, env'.refs.value, env.first.rel.ns;
    DoomedMonotone(refs.dataplane, refs'.dataplane, ns, refs.opi, refs'.opi, env.liveRefs, env'.liveRefs);
    CrdsMonotone(refs, refs', ns);
    forall k ensures Keys(out'.deleted)[k] <= Keys(out.deleted)[k] {
      SucceededCount(out.calls, env.refusedKeys, k);
      SucceededCount(out'.calls, env.refusedKeys, k);
    }
  }
}
