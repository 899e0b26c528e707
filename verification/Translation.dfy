/** Children of a translated source: stamping, listing, ownership, apply and
    prune (pkg/translation/translation_controller.go, pkg/mapping/engine.go). */
module Translation {
  import opened Text

  /** A source object; `ns` is empty for a cluster-scoped one. */
  datatype SourceKey = SourceKey(ns: string, name: string)

  datatype ChildId = ChildId(kind: string, ns: string, name: string)

  datatype OwnerRef = OwnerRef(kind: string, name: string, uid: string)

  /** The translation labels of an emitted object. */
  datatype Labels = Labels(mapping: string, kind: string, name: string)

  /** `refs` are the owner references this controller's field owner applied,
      `foreign` those others set; `source` is the provenance annotation; `held` says
      the object carries a finalizer of its own, so a delete only marks it terminating. */
  datatype Child = Child(labels: Option<Labels>, refs: set<OwnerRef>, foreign: set<OwnerRef>, source: Option<string>,
                         held: bool, terminating: bool)

  type Store = map<ChildId, Child>

  /** The mapping document: its name, the source kind, the emitted kinds. */
  datatype Spec = Spec(mapping: string, kind: string, targets: set<string>)

  datatype Source = Source(key: SourceKey, uid: string)

  /** Kubernetes names and kinds never hold the characters used as separators. */
  ghost predicate ValidKey(k: SourceKey) {
    '/' !in k.ns && '/' !in k.name
  }

  ghost predicate ValidId(id: ChildId) {
    '|' !in id.kind && '|' !in id.ns
  }

  function AnnSource(kind: string, k: SourceKey): string {
    kind + ":" + (if k.ns != "" then k.ns + "/" + k.name else k.name)
  }

  function ChildKey(id: ChildId): string {
    id.kind + "|" + id.ns + "|" + id.name
  }

  /** The provenance string names one source. */
  lemma AnnSourceInjective(kind: string, a: SourceKey, b: SourceKey)
    requires ValidKey(a) && ValidKey(b) && AnnSource(kind, a) == AnnSource(kind, b)
    ensures a == b
  {
    var x := if a.ns != "" then a.ns + "/" + a.name else a.name;
    var y := if b.ns != "" then b.ns + "/" + b.name else b.name;
    assert x == AnnSource(kind, a)[|kind| + 1..] && y == AnnSource(kind, b)[|kind| + 1..];
    assert a.ns != "" ==> x[|a.ns|] == '/';
    assert b.ns != "" ==> y[|b.ns|] == '/';
    if a.ns != "" && b.ns != "" {
      SplitPointUnique(a.ns, a.name, b.ns, b.name, '/');
    }
  }

  lemma ChildKeyInjective(a: ChildId, b: ChildId)
    requires ValidId(a) && ValidId(b) && ChildKey(a) == ChildKey(b)
    ensures a == b
  {
    var x, y := a.ns + "|" + a.name, b.ns + "|" + b.name;
    assert ChildKey(a) == a.kind + "|" + x && ChildKey(b) == b.kind + "|" + y;
    SplitPointUnique(a.kind, x, b.kind, y, '|');
    SplitPointUnique(a.ns, a.name, b.ns, b.name, '|');
  }

  /** A controller reference is legal from a cluster-scoped owner, or within one namespace. */
  predicate LegalOwner(src: SourceKey, id: ChildId) {
    src.ns == "" || src.ns == id.ns
  }

  function LabelsOf(spec: Spec, src: Source): Labels {
    Labels(spec.mapping, spec.kind, src.key.name)
  }

  /** Server-side apply of one emitted object: the stamp replaces what this field
      owner applied before, and leaves what others set. */
  function Stamped(spec: Spec, src: Source, id: ChildId, was: Option<Child>): Child {
    var base := if was.Some? then was.value else Child(None, {}, {}, None, false, false);
    if LegalOwner(src.key, id) then
      base.(labels := Some(LabelsOf(spec, src)), refs := {OwnerRef(spec.kind, src.key.name, src.uid)}, source := None)
    else
      base.(labels := Some(LabelsOf(spec, src)), refs := {}, source := Some(AnnSource(spec.kind, src.key)))
  }

  /** The stamp: labels that name the mapping, the kind and the source; an owner
      reference where the source is cluster-scoped or in the child's namespace, and
      else the provenance annotation; never both. */
  lemma StampIs(spec: Spec, src: Source, id: ChildId, was: Option<Child>)
    ensures var c := Stamped(spec, src, id, was);
            && c.labels == Some(Labels(spec.mapping, spec.kind, src.key.name))
            && (src.key.ns == "" || src.key.ns == id.ns ==>
                  c.refs == {OwnerRef(spec.kind, src.key.name, src.uid)} && c.source == None)
            && (src.key.ns != "" && src.key.ns != id.ns ==>
                  c.refs == {} && c.source == Some(spec.kind + ":" + src.key.ns + "/" + src.key.name))
            && (was.Some? ==> c.foreign == was.value.foreign && c.held == was.value.held && c.terminating == was.value.terminating)
  {
    assert spec.kind + ":" + (src.key.ns + "/" + src.key.name) == spec.kind + ":" + src.key.ns + "/" + src.key.name;
  }

  function ApplyOne(store: Store, spec: Spec, src: Source, id: ChildId): Store {
    store[id := Stamped(spec, src, id, if id in store then Some(store[id]) else None)]
  }

  function DeleteOne(store: Store, id: ChildId): Store {
    if id !in store then store
    else if store[id].held then store[id := store[id].(terminating := true)]
    else store - {id}
  }

  predicate OwnedBySource(c: Child, spec: Spec, src: Source) {
    (exists r :: r in c.refs + c.foreign && r.kind == spec.kind && r.name == src.key.name && r.uid != "" && r.uid == src.uid)
    || c.source == Some(AnnSource(spec.kind, src.key))
  }

  /** What the labelled listing over the emitted kinds returns. */
  predicate Listed(id: ChildId, c: Child, spec: Spec, src: Source) {
    id.kind in spec.targets && c.labels == Some(LabelsOf(spec, src))
  }

  ghost predicate Lists(listing: seq<ChildId>, store: Store, spec: Spec, src: Source) {
    forall id :: id in listing <==> id in store && Listed(id, store[id], spec, src)
  }

  /** Gone, or on its way out. */
  ghost predicate GoneOrGoing(store: Store, id: ChildId) {
    id in store ==> store[id].terminating
  }

  /** Owned: an owner reference of this kind, name and UID, or the annotation that
      names this source. */
  lemma OwnedIff(c: Child, spec: Spec, src: Source)
    ensures OwnedBySource(c, spec, src) <==>
            || (src.uid != "" && OwnerRef(spec.kind, src.key.name, src.uid) in c.refs + c.foreign)
            || c.source == Some(if src.key.ns == "" then spec.kind + ":" + src.key.name
                                else spec.kind + ":" + src.key.ns + "/" + src.key.name)
  {
    assert spec.kind + ":" + (src.key.ns + "/" + src.key.name) == spec.kind + ":" + src.key.ns + "/" + src.key.name;
    if OwnerRef(spec.kind, src.key.name, src.uid) in c.refs + c.foreign {
      var r := OwnerRef(spec.kind, src.key.name, src.uid);
      assert r in c.refs + c.foreign && r.uid == src.uid;
    }
  }

  /** Listed: of an emitted kind, with the labels of this mapping, kind and name. */
  lemma ListedIff(id: ChildId, c: Child, spec: Spec, src: Source)
    ensures Listed(id, c, spec, src) <==>
            id.kind in spec.targets && c.labels == Some(Labels(spec.mapping, spec.kind, src.key.name))
  {
  }

  // ----- Apply, then prune -----

  method ApplyAll(store: Store, spec: Spec, src: Source, emitted: seq<ChildId>) returns (out: Store)
    requires src.uid != ""
    ensures out.Keys == store.Keys + set id | id in emitted
    ensures forall id :: id in store && id !in emitted ==> out[id] == store[id]
    ensures forall id :: id in emitted ==> out[id].labels == Some(Labels(spec.mapping, spec.kind, src.key.name)) && OwnedBySource(out[id], spec, src)
  {
    out := store;
    for i := 0 to |emitted|
      invariant out.Keys == store.Keys + set id | id in emitted[..i]
      invariant forall id :: id in store && id !in emitted[..i] ==> out[id] == store[id]
      invariant forall id :: id in emitted[..i] ==>
                  out[id].labels == Some(LabelsOf(spec, src)) && OwnedBySource(out[id], spec, src)
    {
      var id := emitted[i];
      assert emitted[..i + 1] == emitted[..i] + [id];
      StampOwns(spec, src, id, if id in out then Some(out[id]) else None);
      out := ApplyOne(out, spec, src, id);
    }
    assert emitted[..|emitted|] == emitted;
  }

  lemma StampOwns(spec: Spec, src: Source, id: ChildId, was: Option<Child>)
    requires src.uid != ""
    ensures OwnedBySource(Stamped(spec, src, id, was), spec, src)
  {
    var c := Stamped(spec, src, id, was);
    if LegalOwner(src.key, id) {
      assert OwnerRef(spec.kind, src.key.name, src.uid) in c.refs + c.foreign;
    }
  }

  /** Delete the listed children of this very source that the desired set does not name. */
  method PruneStaleChildren(store: Store, spec: Spec, src: Source, emitted: seq<ChildId>, listing: seq<ChildId>)
    returns (out: Store)
    requires Lists(listing, store, spec, src)
    requires (forall id :: id in emitted ==> ValidId(id)) && (forall id :: id in store ==> ValidId(id))
    ensures forall id :: id in store && id in emitted ==> id in out && out[id] == store[id]
    ensures forall id :: id in store && !(Listed(id, store[id], spec, src) && OwnedBySource(store[id], spec, src)) ==>
              id in out && out[id] == store[id]
    ensures forall id :: id in store && id !in emitted && Listed(id, store[id], spec, src) ==>
              OwnedBySource(store[id], spec, src) ==> GoneOrGoing(out, id)
    ensures out.Keys <= store.Keys
  {
    var desired := set id | id in emitted :: ChildKey(id);
    forall id | id in store && ChildKey(id) in desired ensures id in emitted {
      var e :| e in emitted && ChildKey(e) == ChildKey(id);
      ChildKeyInjective(e, id);
    }
    out := store;
    for i := 0 to |listing|
      invariant out.Keys <= store.Keys
      invariant forall id :: id in store && !(id in listing[..i] && Stale(id, store[id], spec, src, desired)) ==>
                  id in out && out[id] == store[id]
      invariant forall id :: id in listing[..i] && Stale(id, store[id], spec, src, desired) ==> GoneOrGoing(out, id)
    {
      var id := listing[i];
      assert listing[..i + 1] == listing[..i] + [id];
      assert id in listing;
      if !OwnedBySource(store[id], spec, src) || ChildKey(id) in desired {
        continue;
      }
      out := DeleteOne(out, id);
    }
    assert listing[..|listing|] == listing;
  }

  ghost predicate Stale(id: ChildId, c: Child, spec: Spec, src: Source, desired: set<string>) {
    OwnedBySource(c, spec, src) && ChildKey(id) !in desired
  }

  /** The children of the source that are here to stay. */
  ghost function OwnChildren(store: Store, spec: Spec, src: Source): set<ChildId> {
    set id | id in store && !store[id].terminating && Listed(id, store[id], spec, src) && OwnedBySource(store[id], spec, src)
  }

  ghost function GoingChildren(store: Store): set<ChildId> {
    set id | id in store && store[id].terminating
  }

  /** `listChildObjects`: the labelled objects of every emitted kind. */
  method ListChildObjects(store: Store, spec: Spec, src: Source) returns (listing: seq<ChildId>)
    ensures Lists(listing, store, spec, src)
  {
    listing := [];
    var todo := store.Keys;
    while todo != {}
      invariant todo <= store.Keys
      invariant forall id :: id in listing <==> id in store && id !in todo && Listed(id, store[id], spec, src)
      decreases |todo|
    {
      var id :| id in todo;
      todo := todo - {id};
      if Listed(id, store[id], spec, src) {
        listing := listing + [id];
      }
    }
  }

  /** One successful reconcile with pruning allowed: whatever was there before, the
      lasting children of the source are exactly the emitted ones (a terminating
      object that is emitted again is still terminating), and no object that is
      neither emitted nor owned by this source changes. */
  method ApplyAndPrune(store: Store, spec: Spec, src: Source, emitted: seq<ChildId>) returns (out: Store)
    requires src.uid != ""
    requires forall id :: id in emitted ==> ValidId(id) && id.kind in spec.targets
    requires forall id :: id in store ==> ValidId(id)
    ensures forall id :: id in emitted ==> id in out
    ensures OwnChildren(out, spec, src) == (set id | id in emitted) - GoingChildren(out)
    ensures forall id :: id in store && id !in emitted && !OwnedBySource(store[id], spec, src) ==>
              id in out && out[id] == store[id]
  {
    var applied := ApplyAll(store, spec, src, emitted);
    var listed := ListChildObjects(applied, spec, src);
    out := PruneStaleChildren(applied, spec, src, emitted, listed);
  }

  /** An owner reference set by someone else that names this very source. */
  ghost predicate ForeignClaim(was: Option<Child>, spec: Spec, src: Source) {
    was.Some? && exists r :: r in was.value.foreign && r.kind == spec.kind && r.name == src.key.name && r.uid != "" && r.uid == src.uid
  }

  /** A child stamped by another source, over whatever was there, is not owned by
      this one: not by a same-named source in another namespace. */
  lemma OthersAreNotOwned(spec: Spec, mine: Source, other: Source, id: ChildId, was: Option<Child>)
    requires ValidKey(mine.key) && ValidKey(other.key)
    requires mine.key != other.key && mine.uid != other.uid && !ForeignClaim(was, spec, mine)
    ensures !OwnedBySource(Stamped(spec, other, id, was), spec, mine)
  {
    if AnnSource(spec.kind, mine.key) == AnnSource(spec.kind, other.key) {
      AnnSourceInjective(spec.kind, mine.key, other.key);
    }
  }

  /** A source deleted and created again under its name: it starts fresh on the
      owner-reference track, where the UID tells the two apart, and takes over the
      old children on the annotation track, where nothing does. */
  lemma RecreatedOwnsIff(spec: Spec, key: SourceKey, before: string, after: string, id: ChildId, was: Option<Child>)
    requires before != after && after != "" && !ForeignClaim(was, spec, Source(key, after))
    ensures OwnedBySource(Stamped(spec, Source(key, before), id, was), spec, Source(key, after)) <==> !LegalOwner(key, id)
  {
    var c := Stamped(spec, Source(key, before), id, was);
    if LegalOwner(key, id) {
      assert c.refs == {OwnerRef(spec.kind, key.name, before)};
    }
  }
}
