/** Who owns a release, what a removal policy says, and which objects a cleanup
    may delete (pkg/lifecycle/cleanup.go). */
module CleanupPlan {
  import opened Text
  import opened Releases

  // ----- Ownership -----

  datatype Ownership = Controller | Adopted | External | Invalid

  predicate AllowsDelete(c: Ownership) {
    c == Controller || c == Adopted
  }

  const STORAGE_OWNER := "helm"

  predicate HasSeparator(s: string) {
    ' ' in s || '\t' in s || ',' in s || ';' in s
  }

  function Classify(rel: Release): Ownership {
    if rel.name == "" then Invalid
    else
      var ours, mode := Trim(rel.labels.owner), Trim(rel.labels.mode);
      var storage := Trim(rel.labels.storage);
      var helmOwner := if storage == STORAGE_OWNER then "" else storage;
      if HasSeparator(ours) || HasSeparator(mode) then Invalid
      else if ours == "" && helmOwner == "" then (if storage == STORAGE_OWNER then External else Invalid)
      else if ours != "" && helmOwner != "" && ours != helmOwner then Invalid
      else if ours != "" && ours != OWNER then External
      else if ours == "" then External
      else if mode == MODE_INSTALLED then Controller
      else Adopted
  }

  /** No blank, tab, comma or semicolon. */
  ghost predicate OneWord(s: string) {
    forall c :: c in s ==> c != ' ' && c != '\t' && c != ',' && c != ';'
  }

  lemma OneWordIff(s: string)
    ensures OneWord(s) <==> !HasSeparator(s)
  {
  }

  lemma OwnerIsOneWord()
    ensures !HasSeparator(OWNER) && OWNER != "" && OWNER != STORAGE_OWNER
  {
    assert |OWNER| == 22 && |STORAGE_OWNER| == 4;
  }

  /** Deletion is allowed exactly for a named release whose owner label is this
      adapter, with a well-formed mode and no other storage owner. */
  lemma DeletableIff(rel: Release)
    ensures AllowsDelete(Classify(rel)) <==>
            && rel.name != "" && Trim(rel.labels.owner) == "opi-nvidia-dpf-adapter" && OneWord(Trim(rel.labels.mode))
            && Trim(rel.labels.storage) in {"", "helm", "opi-nvidia-dpf-adapter"}
  {
    OneWordIff(Trim(rel.labels.mode));
    OwnerIsOneWord();
    hide Trim, HasSeparator, OneWord;
  }

  /** Controller-owned is the deletable release marked installed; external is a
      well-formed release that names one other owner, or only the storage owner. */
  lemma OwnershipIff(rel: Release)
    ensures Classify(rel) == Controller <==> AllowsDelete(Classify(rel)) && Trim(rel.labels.mode) == "installed"
    ensures Classify(rel) == External <==>
            var ours, storage := Trim(rel.labels.owner), Trim(rel.labels.storage);
            && rel.name != "" && OneWord(ours) && OneWord(Trim(rel.labels.mode))
            && (if ours == "" then storage != "" else ours != "opi-nvidia-dpf-adapter" && storage in {"", "helm", ours})
  {
    OneWordIff(Trim(rel.labels.owner));
    OneWordIff(Trim(rel.labels.mode));
    hide Trim, HasSeparator, OneWord;
    assert OWNER != "" && STORAGE_OWNER != "" by {
      assert |OWNER| == 22 && |STORAGE_OWNER| == 4;
    }
  }

  // ----- Policy -----

  datatype Policy = Retain | DeleteOwned

  const RETAIN := "retain"
  const DELETE_OWNED := "delete-owned"

  /** The policy of an annotation, and whether it was not one. */
  function ParsePolicy(raw: string): (Policy, bool) {
    var v := Lower(Trim(raw));
    if v == "" || v == RETAIN then (Retain, false)
    else if v == DELETE_OWNED then (DeleteOwned, false)
    else (Retain, true)
  }

  /** The policy that governs a class of release. */
  function PolicyFor(c: Ownership, removal: Policy, adoption: Policy): Policy {
    if c == Adopted then adoption else removal
  }

  // ----- Dependents -----

  datatype ObjectRef = ObjectRef(kind: string, ns: string, name: string, owner: string, referenced: bool)

  function Key(o: ObjectRef): string {
    o.ns + "/" + o.kind + "/" + o.name
  }

  datatype Refs = Refs(otherTenants: nat, opi: seq<ObjectRef>, dataplane: seq<ObjectRef>, crdDependents: nat)

  predicate Names(o: ObjectRef, d: ObjectRef) {
    o.name == d.name && (o.ns == "" || o.ns == d.ns)
  }

  predicate ReferencedByOpi(d: ObjectRef, opi: seq<ObjectRef>) {
    d.referenced || exists o :: o in opi && Names(o, d)
  }

  /** The loop, with both of its tests; the second never adds a match. */
  method ReferencedByOpiLoop(d: ObjectRef, opi: seq<ObjectRef>) returns (r: bool)
    ensures r == ReferencedByOpi(d, opi)
  {
    if d.referenced {
      return true;
    }
    for i := 0 to |opi|
      invariant forall k :: 0 <= k < i ==> !Names(opi[k], d)
    {
      var o := opi[i];
      var byName := o.name == d.name && (o.ns == "" || o.ns == d.ns);
      var byKind := o.name != "" && EqualFold(o.kind, d.kind) && o.ns == d.ns && o.name == d.name;
      if byName || byKind {
        assert o in opi && Names(o, d);
        return true;
      }
    }
    return false;
  }

  /** Some OPI object has this name, in this namespace or in none. */
  ghost predicate OpiNames(opi: seq<ObjectRef>, name: string, ns: string) {
    exists o :: o in opi && o.name == name && (o.ns == "" || o.ns == ns)
  }

  /** Referenced means flagged, or named by an OPI object of its namespace or of
      the cluster. */
  lemma ReferencedIff(d: ObjectRef, opi: seq<ObjectRef>)
    ensures ReferencedByOpi(d, opi) <==> d.referenced || OpiNames(opi, d.name, d.ns)
  {
    if ReferencedByOpi(d, opi) && !d.referenced {
      var o :| o in opi && Names(o, d);
    }
    if OpiNames(opi, d.name, d.ns) {
      var o :| o in opi && o.name == d.name && (o.ns == "" || o.ns == d.ns);
      assert Names(o, d);
    }
  }

  predicate StillRequired(refs: Refs, ns: string) {
    exists d :: d in refs.dataplane && d.ns == ns && ReferencedByOpi(d, refs.opi)
  }

  method StillRequiredLoop(refs: Refs, ns: string) returns (r: bool)
    ensures r == StillRequired(refs, ns)
  {
    for i := 0 to |refs.dataplane|
      invariant forall k :: 0 <= k < i ==> !(refs.dataplane[k].ns == ns && ReferencedByOpi(refs.dataplane[k], refs.opi))
    {
      var d := refs.dataplane[i];
      var byOpi := ReferencedByOpiLoop(d, refs.opi);
      if d.ns == ns && (d.referenced || byOpi) {
        assert d in refs.dataplane;
        return true;
      }
    }
    return false;
  }

  // ----- The plan -----

  datatype Why = OtherNamespace | NotOwned | Referenced

  datatype Skip = ReleaseInvalid | ReleaseExternal | ReleaseRetained | CrdsRequired | Object(key: string, why: Why)
    | PolicyNote | OwnershipChanged | Appeared(key: string) | DeleteFailed(key: string)

  datatype Action = Deleted | Preserved | Failed | Gone

  datatype Plan = Plan(ownership: Ownership, action: Action, deleteRelease: bool, deleteCrds: bool,
                       deletes: seq<ObjectRef>, skipped: seq<Skip>)

  /** Why an object stays; None when it may go. */
  function Protection(d: ObjectRef, ns: string, opi: seq<ObjectRef>): Option<Why> {
    if d.ns != ns then Some(OtherNamespace)
    else if d.owner != "" && d.owner != OWNER then Some(NotOwned)
    else if ReferencedByOpi(d, opi) then Some(Referenced)
    else None
  }

  function Selected(ds: seq<ObjectRef>, ns: string, opi: seq<ObjectRef>): seq<ObjectRef> {
    if ds == [] then []
    else
      var rest, d := Selected(ds[..|ds| - 1], ns, opi), ds[|ds| - 1];
      if Protection(d, ns, opi).None? then rest + [d] else rest
  }

  function Kept(ds: seq<ObjectRef>, ns: string, opi: seq<ObjectRef>): seq<Skip> {
    if ds == [] then []
    else
      var rest, d := Kept(ds[..|ds| - 1], ns, opi), ds[|ds| - 1];
      var why := Protection(d, ns, opi);
      if why.Some? then rest + [Object(Key(d), why.value)] else rest
  }

  predicate Shared(refs: Refs) {
    refs.otherTenants > 0 || refs.crdDependents > 0 || |refs.opi| > 0
  }

  predicate CrdsGo(refs: Refs, ns: string, allowCrd: bool) {
    allowCrd && !Shared(refs) && !StillRequired(refs, ns)
  }

  function Decide(rel: Release, removal: Policy, adoption: Policy, refs: Refs, allowCrd: bool): Plan {
    var c := Classify(rel);
    if rel.name == "" then Plan(Invalid, Gone, false, false, [], [])
    else if c == Invalid then Plan(c, Failed, false, false, [], [ReleaseInvalid])
    else if c == External then Plan(c, Preserved, false, false, [], [ReleaseExternal])
    else if PolicyFor(c, removal, adoption) != DeleteOwned then Plan(c, Preserved, false, false, [], [ReleaseRetained])
    else
      var crds := CrdsGo(refs, rel.ns, allowCrd);
      Plan(c, Deleted, true, crds, Selected(refs.dataplane, rel.ns, refs.opi),
           (if crds then [] else [CrdsRequired]) + Kept(refs.dataplane, rel.ns, refs.opi))
  }

  /** The decision as it is built, appending to the plan object by object. */
  method DecideCleanup(rel: Release, removal: Policy, adoption: Policy, refs: Refs, allowCrd: bool) returns (plan: Plan)
    ensures plan == Decide(rel, removal, adoption, refs, allowCrd)
  {
    if rel.name == "" {
      return Plan(Invalid, Gone, false, false, [], []);
    }
    var c := Classify(rel);
    if c == Invalid {
      return Plan(c, Failed, false, false, [], [ReleaseInvalid]);
    }
    if c == External {
      return Plan(c, Preserved, false, false, [], [ReleaseExternal]);
    }
    hide Classify;
    var allow := removal == DeleteOwned;
    if c == Adopted {
      allow := adoption == DeleteOwned;
    }
    if !allow {
      return Plan(c, Preserved, false, false, [], [ReleaseRetained]);
    }
    var shared := refs.otherTenants > 0 || refs.crdDependents > 0 || |refs.opi| > 0;
    var required := StillRequiredLoop(refs, rel.ns);
    var crds := allowCrd && !shared && !required;
    var deletes, skipped := SortOut(refs, rel.ns, if crds then [] else [CrdsRequired]);
    return Plan(c, Deleted, true, crds, deletes, skipped);
  }

  method SortOut(refs: Refs, ns: string, before: seq<Skip>) returns (deletes: seq<ObjectRef>, skipped: seq<Skip>)
    ensures deletes == Selected(refs.dataplane, ns, refs.opi) && skipped == before + Kept(refs.dataplane, ns, refs.opi)
  {
    var ds := refs.dataplane;
    deletes, skipped := [], before;
    for i := 0 to |ds|
      invariant deletes == Selected(ds[..i], ns, refs.opi)
      invariant skipped == before + Kept(ds[..i], ns, refs.opi)
    {
      assert ds[..i + 1][..i] == ds[..i];
      var d := ds[i];
      if d.ns != ns {
        skipped := skipped + [Object(Key(d), OtherNamespace)];
        continue;
      }
      if d.owner != "" && d.owner != OWNER {
        skipped := skipped + [Object(Key(d), NotOwned)];
        continue;
      }
      var referenced := ReferencedByOpiLoop(d, refs.opi);
      if referenced {
        skipped := skipped + [Object(Key(d), Referenced)];
        continue;
      }
      deletes := deletes + [d];
    }
    assert ds[..|ds|] == ds;
  }

  // ----- What is selected -----

  /** Selected exactly when listed and unprotected. */
  lemma {:induction false} SelectedIff(ds: seq<ObjectRef>, ns: string, opi: seq<ObjectRef>, d: ObjectRef)
    ensures d in Selected(ds, ns, opi) <==> d in ds && Protection(d, ns, opi).None?
  {
    if ds != [] {
      var init := ds[..|ds| - 1];
      assert ds == init + [ds[|ds| - 1]];
      SelectedIff(init, ns, opi, d);
    }
  }

  ghost predicate Accounted(d: ObjectRef, ds: seq<ObjectRef>, ns: string, opi: seq<ObjectRef>) {
    match Protection(d, ns, opi)
    case None => d in Selected(ds, ns, opi)
    case Some(why) => Object(Key(d), why) in Kept(ds, ns, opi)
  }

  /** Nothing falls through: every listed object is selected, or skipped with
      its reason, and the two lists together are as long as the listing. */
  lemma {:induction false} EveryObjectAccounted(ds: seq<ObjectRef>, ns: string, opi: seq<ObjectRef>)
    ensures |Selected(ds, ns, opi)| + |Kept(ds, ns, opi)| == |ds|
    ensures forall d :: d in ds ==> Accounted(d, ds, ns, opi)
  {
    hide Protection;
    if ds != [] {
      var init, last := ds[..|ds| - 1], ds[|ds| - 1];
      EveryObjectAccounted(init, ns, opi);
      forall d | d in ds ensures Accounted(d, ds, ns, opi) {
        assert ds == init + [last];
        assert d in init || d == last;
        assert d in init ==> Accounted(d, init, ns, opi);
      }
    }
  }

  /** Which reason an object is kept for; none means it is selected. */
  lemma ReasonIff(d: ObjectRef, ns: string, opi: seq<ObjectRef>)
    ensures Protection(d, ns, opi) == Some(OtherNamespace) <==> d.ns != ns
    ensures Protection(d, ns, opi) == Some(NotOwned) <==> d.ns == ns && d.owner !in {"", "opi-nvidia-dpf-adapter"}
    ensures Protection(d, ns, opi) == Some(Referenced) <==>
            d.ns == ns && d.owner in {"", "opi-nvidia-dpf-adapter"} && (d.referenced || OpiNames(opi, d.name, d.ns))
  {
    ReferencedIff(d, opi);
    hide ReferencedByOpi;
  }

  /** The definitions go exactly where that is allowed, nobody else needs them, and
      no object of the namespace is flagged as referenced. */
  lemma CrdsIff(refs: Refs, ns: string, allowCrd: bool)
    ensures CrdsGo(refs, ns, allowCrd) <==>
            && allowCrd && refs.otherTenants == 0 && refs.crdDependents == 0 && refs.opi == []
            && forall d :: d in refs.dataplane && d.ns == ns ==> !d.referenced
  {
    if refs.opi == [] {
      forall d ensures ReferencedByOpi(d, refs.opi) <==> d.referenced {
      }
    }
    hide ReferencedByOpi;
  }

  /** The key names one object, where kinds and namespaces hold no slash. */
  lemma KeyInjective(a: ObjectRef, b: ObjectRef)
    requires '/' !in a.ns && '/' !in b.ns && '/' !in a.kind && '/' !in b.kind && Key(a) == Key(b)
    ensures a.ns == b.ns && a.kind == b.kind && a.name == b.name
  {
    var x, y := a.kind + "/" + a.name, b.kind + "/" + b.name;
    assert Key(a) == a.ns + "/" + x && Key(b) == b.ns + "/" + y;
    SplitPointUnique(a.ns, x, b.ns, y, '/');
    SplitPointUnique(a.kind, a.name, b.kind, b.name, '/');
  }

  // ----- Monotonicity -----

  /** The same objects, possibly with more references to them. */
  ghost predicate MoreReferenced(ds: seq<ObjectRef>, ds': seq<ObjectRef>) {
    |ds| == |ds'| && forall k :: 0 <= k < |ds| ==> Raised(ds[k], ds'[k])
  }

  ghost predicate Raised(d: ObjectRef, d': ObjectRef) {
    d' == d || d' == d.(referenced := true)
  }

  /** More tenants, dependents and references over the same objects. */
  ghost predicate More(refs: Refs, refs': Refs) {
    && refs.otherTenants <= refs'.otherTenants && refs.crdDependents <= refs'.crdDependents
    && (forall o :: o in refs.opi ==> o in refs'.opi)
    && MoreReferenced(refs.dataplane, refs'.dataplane)
  }

  lemma ReferencedMonotone(d: ObjectRef, d': ObjectRef, opi: seq<ObjectRef>, opi': seq<ObjectRef>)
    requires Raised(d, d') && forall o :: o in opi ==> o in opi'
    ensures ReferencedByOpi(d, opi) ==> ReferencedByOpi(d', opi')
  {
    if ReferencedByOpi(d, opi) && !d.referenced {
      var o :| o in opi && Names(o, d);
      assert o in opi' && Names(o, d');
    }
  }

  ghost function Keys(ds: seq<ObjectRef>): multiset<string> {
    if ds == [] then multiset{} else Keys(ds[..|ds| - 1]) + multiset{Key(ds[|ds| - 1])}
  }

  lemma KeysSnoc(ds: seq<ObjectRef>, d: ObjectRef)
    ensures Keys(ds + [d]) == Keys(ds) + multiset{Key(d)}
  {
    assert (ds + [d])[..|ds|] == ds;
  }

  lemma SelectedSnoc(ds: seq<ObjectRef>, ns: string, opi: seq<ObjectRef>)
    requires ds != []
    ensures var n := |ds| - 1;
            Keys(Selected(ds, ns, opi)) == Keys(Selected(ds[..n], ns, opi))
              + if Protection(ds[n], ns, opi).None? then multiset{Key(ds[n])} else multiset{}
  {
    hide Protection;
    var n := |ds| - 1;
    KeysSnoc(Selected(ds[..n], ns, opi), ds[n]);
  }

  lemma ProtectionMonotone(d: ObjectRef, d': ObjectRef, ns: string, opi: seq<ObjectRef>, opi': seq<ObjectRef>)
    requires Raised(d, d') && forall o :: o in opi ==> o in opi'
    ensures Key(d) == Key(d') && (Protection(d', ns, opi').None? ==> Protection(d, ns, opi).None?)
  {
    ReferencedMonotone(d, d', opi, opi');
    hide ReferencedByOpi;
  }

  lemma MoreReferencedInit(ds: seq<ObjectRef>, ds': seq<ObjectRef>)
    requires MoreReferenced(ds, ds') && ds != []
    ensures MoreReferenced(ds[..|ds| - 1], ds'[..|ds| - 1]) && Raised(ds[|ds| - 1], ds'[|ds| - 1])
  {
    var n := |ds| - 1;
    forall k | 0 <= k < n ensures Raised(ds[..n][k], ds'[..n][k]) {
      assert Raised(ds[k], ds'[k]);
    }
  }

  /** What more references still let go is part of what fewer let go. */
  lemma {:induction false} SelectedMonotone(ds: seq<ObjectRef>, ds': seq<ObjectRef>, ns: string, opi: seq<ObjectRef>, opi': seq<ObjectRef>)
    requires MoreReferenced(ds, ds') && forall o :: o in opi ==> o in opi'
    ensures Keys(Selected(ds', ns, opi')) <= Keys(Selected(ds, ns, opi))
  {
    hide Protection, Key, Raised;
    if ds != [] {
      var n := |ds| - 1;
      MoreReferencedInit(ds, ds');
      SelectedMonotone(ds[..n], ds'[..n], ns, opi, opi');
      ProtectionMonotone(ds[n], ds'[n], ns, opi, opi');
      SelectedSnoc(ds, ns, opi);
      SelectedSnoc(ds', ns, opi');
    }
  }

  /** Adding tenants, dependents or references never enlarges the plan: not the
      objects, not the definitions. */
  lemma DecideMonotone(rel: Release, removal: Policy, adoption: Policy, refs: Refs, refs': Refs, allowCrd: bool)
    requires More(refs, refs')
    ensures var p, p' := Decide(rel, removal, adoption, refs, allowCrd), Decide(rel, removal, adoption, refs', allowCrd);
            && p'.deleteRelease == p.deleteRelease && (p'.deleteCrds ==> p.deleteCrds)
            && Keys(p'.deletes) <= Keys(p.deletes)
  {
    hide Classify, Selected, Kept, Keys, CrdsGo, More, MoreReferenced;
    MoreOpi(refs, refs');
    SelectedMonotone(refs.dataplane, refs'.dataplane, rel.ns, refs.opi, refs'.opi);
    CrdsMonotone(refs, refs', rel.ns);
  }

  lemma MoreOpi(refs: Refs, refs': Refs)
    requires More(refs, refs')
    ensures MoreReferenced(refs.dataplane, refs'.dataplane) && forall o :: o in refs.opi ==> o in refs'.opi
  {
  }

  lemma CrdsMonotone(refs: Refs, refs': Refs, ns: string)
    requires More(refs, refs')
    ensures forall allow :: CrdsGo(refs', ns, allow) ==> CrdsGo(refs, ns, allow)
  {
    if |refs.opi| > 0 {
      assert refs.opi[0] in refs'.opi;
    }
    if StillRequired(refs, ns) {
      var d :| d in refs.dataplane && d.ns == ns && ReferencedByOpi(d, refs.opi);
      var k :| 0 <= k < |refs.dataplane| && refs.dataplane[k] == d;
      var d' := refs'.dataplane[k];
      assert Raised(d, d');
      ReferencedMonotone(d, d', refs.opi, refs'.opi);
      assert d' in refs'.dataplane;
    }
  }
}
