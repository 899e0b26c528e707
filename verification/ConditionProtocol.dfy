/** Any number of condition writers on one object, each reading, merging and
    writing back if the resource version has not moved. */
module ConditionProtocol {
  import opened Text
  import opened Conditions
  import opened ConditionWriters

  datatype Writer = Lcm | Daemon | Translator(id: nat)

  /** What a writer brings to one write. */
  datatype Input =
    | Wants(wants: seq<Want>)
    | Health(healthy: bool)
    | Mirrored(own: seq<Cond>)

  // ----- Each writer's merge -----

  function FoldKey(c: Cond): string {
    Lower(Trim(TypeOf(c)))
  }

  /** The mapping writes a type that folds to this key. */
  predicate OwnsKey(own: seq<Cond>, key: string) {
    exists i :: 0 <= i < |own| && FoldKey(own[i]) == key
  }

  /** `preservedStatusConditions`: the source conditions this mapping does not write. */
  function Preserved(conds: seq<Cond>, own: seq<Cond>): seq<Cond> {
    if conds == [] then []
    else
      var c := conds[|conds| - 1];
      Preserved(conds[..|conds| - 1], own) +
      (if FoldKey(c) == "" || OwnsKey(own, FoldKey(c)) then [] else [c])
  }

  /** `ApplyStatus`: the preserved conditions followed by the mapping's own. */
  function Desired(conds: seq<Cond>, own: seq<Cond>): seq<Cond> {
    Preserved(conds, own) + own
  }

  function Edits(conds: seq<Cond>, input: Input, now: string): seq<Edit> {
    match input
    case Wants(wants) => LcmEdits(wants, now)
    case Health(healthy) => ReadyEdits(healthy, now)
    case Mirrored(own) => MirrorEdits(Desired(conds, own), now)
  }

  function Merge(conds: seq<Cond>, input: Input, now: string): seq<Cond> {
    Apply(conds, Edits(conds, input, now))
  }

  /** A mapping's own conditions: typed, distinct up to case, never Ready, with a status. */
  ghost predicate OwnOK(own: seq<Cond>) {
    && (forall i :: 0 <= i < |own| ==> !Skipped(own[i]) && FoldKey(own[i]) != "")
    && (forall i, j :: 0 <= i < j < |own| ==> FoldKey(own[i]) != FoldKey(own[j]))
  }

  ghost predicate InputOK(input: Input) {
    match input
    case Wants(wants) => DistinctWants(wants)
    case Health(_) => true
    case Mirrored(own) => OwnOK(own)
  }

  /** The types an input writes. */
  ghost predicate Writes(input: Input, t: string) {
    match input
    case Wants(wants) => exists i :: 0 <= i < |wants| && wants[i].t == t
    case Health(_) => t == READY
    case Mirrored(own) => exists i :: 0 <= i < |own| && TypeOf(own[i]) == t
  }

  predicate IsFive(f: Field) {
    !f.Extra?
  }

  /** The condition with nothing but the five fields of metav1.Condition the translator knows. */
  function Five(c: Cond): Cond {
    map f | f in c && IsFive(f) :: c[f]
  }

  // ----- The translator's edits -----

  lemma {:induction false} PreservedMember(conds: seq<Cond>, own: seq<Cond>, c: Cond)
    ensures c in Preserved(conds, own) <==>
            c in conds && FoldKey(c) != "" && !OwnsKey(own, FoldKey(c))
  {
    if conds != [] {
      PreservedMember(conds[..|conds| - 1], own, c);
      assert conds == conds[..|conds| - 1] + [conds[|conds| - 1]];
    }
  }

  /** The mapping carries a source condition through exactly when its type is not
      blank and none of its own conditions has that type, up to case and padding. */
  lemma PreservedIff(conds: seq<Cond>, own: seq<Cond>, c: Cond)
    ensures c in Preserved(conds, own) <==>
            && c in conds && Trim(TypeOf(c)) != ""
            && forall i :: 0 <= i < |own| ==> Lower(Trim(TypeOf(own[i]))) != Lower(Trim(TypeOf(c)))
  {
    PreservedMember(conds, own, c);
    hide Preserved, TypeOf, Trim;
    assert |Lower(Trim(TypeOf(c)))| == |Trim(TypeOf(c))|;
  }

  ghost predicate DistinctTypes(ds: seq<Cond>) {
    forall i, j :: 0 <= i < j < |ds| ==> TypeOf(ds[i]) != TypeOf(ds[j])
  }

  lemma {:induction false} PreservedDistinct(conds: seq<Cond>, own: seq<Cond>)
    requires WellFormed(conds)
    ensures DistinctTypes(Preserved(conds, own))
  {
    if conds != [] {
      var front, c := conds[..|conds| - 1], conds[|conds| - 1];
      PreservedDistinct(front, own);
      var p := Preserved(front, own);
      forall i | 0 <= i < |p| ensures TypeOf(p[i]) != TypeOf(c) {
        PreservedMember(front, own, p[i]);
        assert p[i] in p;
        var k :| 0 <= k < |front| && front[k] == p[i];
        assert TypeOf(conds[k]) != TypeOf(conds[|conds| - 1]);
      }
    }
  }

  lemma DesiredDistinct(conds: seq<Cond>, own: seq<Cond>)
    requires WellFormed(conds) && OwnOK(own)
    ensures DistinctTypes(Desired(conds, own))
  {
    var p, ds := Preserved(conds, own), Desired(conds, own);
    PreservedDistinct(conds, own);
    forall i, j | 0 <= i < j < |ds| ensures TypeOf(ds[i]) != TypeOf(ds[j]) {
      if j < |p| {
      } else if i >= |p| {
        assert FoldKey(own[i - |p|]) != FoldKey(own[j - |p|]);
      } else {
        PreservedMember(conds, own, p[i]);
        assert p[i] in p;
        assert FoldKey(own[j - |p|]) != FoldKey(p[i]);
      }
    }
  }

  ghost predicate HasType(ds: seq<Cond>, t: string) {
    exists i :: 0 <= i < |ds| && TypeOf(ds[i]) == t
  }

  lemma {:induction false} MirrorEditSource(ds: seq<Cond>, now: string, k: nat)
    requires k < |MirrorEdits(ds, now)|
    ensures HasType(ds, MirrorEdits(ds, now)[k].t) && Typed(MirrorEdits(ds, now)[k])
  {
    hide MirrorItem, TypeOf, Typed, Skipped;
    var front, d := ds[..|ds| - 1], ds[|ds| - 1];
    var es := MirrorEdits(front, now);
    if k < |es| {
      MirrorEditSource(front, now, k);
      var i :| 0 <= i < |front| && TypeOf(front[i]) == es[k].t;
      assert TypeOf(ds[i]) == es[k].t;
    } else {
      MirrorEditTyped(d, now);
      assert TypeOf(ds[|ds| - 1]) == MirrorEdits(ds, now)[k].t;
    }
  }

  lemma NotInFront(ds: seq<Cond>, now: string)
    requires DistinctTypes(ds) && ds != []
    ensures var es := MirrorEdits(ds[..|ds| - 1], now);
            forall k :: 0 <= k < |es| ==> es[k].t != TypeOf(ds[|ds| - 1])
  {
    var front := ds[..|ds| - 1];
    var es := MirrorEdits(front, now);
    forall k | 0 <= k < |es| ensures es[k].t != TypeOf(ds[|ds| - 1]) {
      MirrorEditSource(front, now, k);
      var i :| 0 <= i < |front| && TypeOf(front[i]) == es[k].t;
      assert TypeOf(ds[i]) != TypeOf(ds[|ds| - 1]);
    }
  }

  lemma TypedSnoc(es: seq<Edit>, e: Edit)
    requires TypedAll(es) && Typed(e) && forall k :: 0 <= k < |es| ==> es[k].t != e.t
    ensures TypedAll(es + [e])
  {
  }

  lemma EditForSnoc(es: seq<Edit>, e: Edit, t: string)
    ensures EditFor(es + [e], t) == if e.t == t then Some(e) else EditFor(es, t)
  {
    assert (es + [e])[..|es|] == es;
  }

  lemma MirrorEditsSnoc(ds: seq<Cond>, now: string)
    requires ds != []
    ensures MirrorEdits(ds, now) ==
            var es, d := MirrorEdits(ds[..|ds| - 1], now), ds[|ds| - 1];
            if Skipped(d) then es else es + [MirrorEdit(d, now)]
  {
  }

  lemma MirrorEditTyped(d: Cond, now: string)
    requires !Skipped(d)
    ensures Typed(MirrorEdit(d, now))
  {
  }

  lemma {:induction false} MirrorEditsSpec(ds: seq<Cond>, now: string)
    requires DistinctTypes(ds)
    ensures TypedAll(MirrorEdits(ds, now))
  {
    hide Typed, Skipped;
    if ds != [] {
      MirrorEditsSpec(ds[..|ds| - 1], now);
      NotInFront(ds, now);
      MirrorEditsSnoc(ds, now);
      if !Skipped(ds[|ds| - 1]) {
        MirrorEditTyped(ds[|ds| - 1], now);
        TypedSnoc(MirrorEdits(ds[..|ds| - 1], now), MirrorEdit(ds[|ds| - 1], now));
      }
    }
  }

  /** The edit for a type comes from the desired condition of that type, if it counts. */
  lemma {:induction false} MirrorEditFor(ds: seq<Cond>, now: string, i: nat)
    requires DistinctTypes(ds) && i < |ds|
    ensures EditFor(MirrorEdits(ds, now), TypeOf(ds[i])) ==
            if Skipped(ds[i]) then None else Some(MirrorEdit(ds[i], now))
  {
    hide MirrorItem, Skipped, TypeOf;
    var front, d := ds[..|ds| - 1], ds[|ds| - 1];
    MirrorEditsSnoc(ds, now);
    EditForSnoc(MirrorEdits(front, now), MirrorEdit(d, now), TypeOf(ds[i]));
    if i < |front| {
      MirrorEditFor(front, now, i);
      assert TypeOf(ds[i]) != TypeOf(d);
    } else {
      NotInFront(ds, now);
      NotEdited(MirrorEdits(front, now), TypeOf(d));
    }
  }

  lemma NoMirrorEdit(ds: seq<Cond>, now: string, t: string)
    requires DistinctTypes(ds) && forall i :: 0 <= i < |ds| ==> TypeOf(ds[i]) != t
    ensures EditFor(MirrorEdits(ds, now), t) == None
  {
    var es := MirrorEdits(ds, now);
    forall k | 0 <= k < |es| ensures es[k].t != t {
      MirrorEditSource(ds, now, k);
    }
    NotEdited(es, t);
  }

  /** Rebuilding a condition from itself keeps exactly the five known fields. */
  lemma RebuiltIsFive(c: Cond, now: string)
    requires !Skipped(c)
    ensures MirrorItem(Some(c), c, now) == Five(c)
  {
    assert Get(c, Type) == Str(TypeOf(c)) && Type in c && Status in c;
    var r := MirrorItem(Some(c), c, now);
    forall f ensures f in r <==> f in Five(c) {
    }
  }

  /** The translator leaves a type it does not write exactly as it was when that is
      Ready in any spelling, and on the five known fields otherwise. */
  lemma MirrorForeign(conds: seq<Cond>, own: seq<Cond>, now: string, t: string)
    requires WellFormed(conds) && OwnOK(own) && !Writes(Mirrored(own), t)
    ensures var was := Find(conds, t);
            var got := Find(Merge(conds, Mirrored(own), now), t);
            && (was.None? ==> got.None?)
            && (was.Some? ==> got.Some? && (got == was || got.value == Five(was.value)))
            && (EqualFold(t, READY) ==> got == was)
  {
    var ds := Desired(conds, own);
    DesiredDistinct(conds, own);
    MirrorEditsSpec(ds, now);
    ApplyFind(conds, MirrorEdits(ds, now), t);
    if i :| 0 <= i < |ds| && TypeOf(ds[i]) == t {
      MirrorEditFor(ds, now, i);
      assert ds[i] in Preserved(conds, own);
      PreservedMember(conds, own, ds[i]);
      FindMember(conds, ds[i]);
      if !Skipped(ds[i]) {
        RebuiltIsFive(ds[i], now);
      }
    } else {
      NoMirrorEdit(ds, now, t);
    }
  }

  lemma {:induction false} FindMember(conds: seq<Cond>, c: Cond)
    requires WellFormed(conds) && c in conds
    ensures Find(conds, TypeOf(c)) == Some(c)
  {
    if conds[0] != c {
      var k :| 0 <= k < |conds| && conds[k] == c;
      assert TypeOf(conds[0]) != TypeOf(conds[k]);
      assert conds[1..][k - 1] == c;
      FindMember(conds[1..], c);
    }
  }

  /** A desired condition that counts becomes its item for what stood there. */
  lemma MergedDesired(conds: seq<Cond>, own: seq<Cond>, now: string, k: nat)
    requires WellFormed(conds) && OwnOK(own) && k < |Desired(conds, own)| && !Skipped(Desired(conds, own)[k])
    ensures var d := Desired(conds, own)[k];
            Find(Merge(conds, Mirrored(own), now), TypeOf(d)) == Some(MirrorItem(Find(conds, TypeOf(d)), d, now))
  {
    hide MirrorItem, Skipped, TypeOf, Preserved;
    var ds := Desired(conds, own);
    DesiredDistinct(conds, own);
    MirrorEditsSpec(ds, now);
    MirrorEditFor(ds, now, k);
    AppliedItem(conds, ds, now, ds[k]);
  }

  lemma MirrorOwn(conds: seq<Cond>, own: seq<Cond>, now: string, i: nat)
    requires WellFormed(conds) && OwnOK(own) && i < |own|
    ensures Find(Merge(conds, Mirrored(own), now), TypeOf(own[i])) ==
            Some(MirrorItem(Find(conds, TypeOf(own[i])), own[i], now))
  {
    hide MirrorItem, Merge;
    var k := |Preserved(conds, own)| + i;
    assert Desired(conds, own)[k] == own[i] && !Skipped(own[i]);
    MergedDesired(conds, own, now, k);
  }

  lemma AppliedItem(conds: seq<Cond>, ds: seq<Cond>, now: string, d: Cond)
    requires TypedAll(MirrorEdits(ds, now))
    requires EditFor(MirrorEdits(ds, now), TypeOf(d)) == Some(MirrorEdit(d, now))
    ensures Find(Apply(conds, MirrorEdits(ds, now)), TypeOf(d)) == Some(MirrorItem(Find(conds, TypeOf(d)), d, now))
  {
    ApplyFind(conds, MirrorEdits(ds, now), TypeOf(d));
  }

  /** Of the conditions the translator brings, those are written whose type is not
      empty and not Ready in any spelling and whose status is there and not empty; a
      type brought with anything else stays as it was. */
  lemma MirrorWritesIff(conds: seq<Cond>, ds: seq<Cond>, now: string, i: nat)
    requires DistinctTypes(ds) && i < |ds|
    ensures var d, t := ds[i], TypeOf(ds[i]);
            var got := Find(Apply(conds, MirrorEdits(ds, now)), t);
            if t != "" && Lower(t) != Lower("Ready") && Get(d, Status) != Null && Get(d, Status) != Str("")
            then got.Some? && Get(got.value, Status) == Get(d, Status)
                 && Get(got.value, Reason) == Get(d, Reason) && Get(got.value, Message) == Get(d, Message)
            else got == Find(conds, t)
  {
    var d := ds[i];
    MirrorEditsSpec(ds, now);
    MirrorEditFor(ds, now, i);
    ApplyFind(conds, MirrorEdits(ds, now), TypeOf(d));
    if !Skipped(d) {
      MirrorItemMeans(Find(conds, TypeOf(d)), d, now, Type);
    }
    hide MirrorItem, MirrorEdits, Apply, Find, TypeOf, Lower;
  }

  // ----- One merge, whoever makes it -----

  /** What the merge leaves for a type it writes, given the entry it found there. */
  ghost function Item(input: Input, found: Option<Cond>, t: string, now: string): Cond
    requires Writes(input, t)
  {
    match input
    case Wants(wants) => var i :| 0 <= i < |wants| && wants[i].t == t; LcmItem(found, wants[i], now)
    case Health(healthy) => ReadyItem(found, healthy, now)
    case Mirrored(own) => var i :| 0 <= i < |own| && TypeOf(own[i]) == t; MirrorItem(found, own[i], now)
  }

  lemma EditsTyped(conds: seq<Cond>, input: Input, now: string)
    requires WellFormed(conds) && InputOK(input)
    ensures TypedAll(Edits(conds, input, now))
  {
    match input
    case Wants(wants) => LcmTyped(wants, now);
    case Health(healthy) => ReadyTyped(healthy, now);
    case Mirrored(own) =>
      DesiredDistinct(conds, own);
      MirrorEditsSpec(Desired(conds, own), now);
  }

  /** A type the input writes ends with the writer's item for what stood there. */
  lemma MergeWrites(conds: seq<Cond>, input: Input, now: string, t: string)
    requires WellFormed(conds) && InputOK(input) && Writes(input, t)
    ensures Find(Merge(conds, input, now), t) == Some(Item(input, Find(conds, t), t, now))
  {
    hide LcmItem, ReadyItem, MirrorItem, TypeOf, Find, Upsert;
    EditsTyped(conds, input, now);
    match input
    case Wants(wants) =>
      var i :| 0 <= i < |wants| && wants[i].t == t && Item(input, Find(conds, t), t, now) == LcmItem(Find(conds, t), wants[i], now);
      ApplyFind(conds, LcmEdits(wants, now), t);
      EditForAt(LcmEdits(wants, now), i);
    case Health(healthy) =>
      ReadyApply(conds, healthy, now);
      UpsertFind(conds, ReadyItem(Find(conds, READY), healthy, now), t);
    case Mirrored(own) =>
      var i :| 0 <= i < |own| && TypeOf(own[i]) == t && Item(input, Find(conds, t), t, now) == MirrorItem(Find(conds, t), own[i], now);
      MirrorOwn(conds, own, now, i);
  }

  /** A type the input does not write: untouched, or rebuilt on the five known fields. */
  lemma MergeFrame(conds: seq<Cond>, input: Input, now: string, t: string)
    requires WellFormed(conds) && InputOK(input) && !Writes(input, t)
    ensures var was := Find(conds, t);
            var got := Find(Merge(conds, input, now), t);
            && (was.None? ==> got.None?)
            && (was.Some? ==> got.Some? && (got == was || got.value == Five(was.value)))
            && (EqualFold(t, READY) ==> got == was)
  {
    EditsTyped(conds, input, now);
    match input
    case Wants(wants) =>
      ApplyFind(conds, LcmEdits(wants, now), t);
      NotEdited(LcmEdits(wants, now), t);
    case Health(healthy) =>
      ReadyApply(conds, healthy, now);
      UpsertFind(conds, ReadyItem(Find(conds, READY), healthy, now), t);
    case Mirrored(own) =>
      MirrorForeign(conds, own, now, t);
  }

  lemma MergeKeepsOrder(conds: seq<Cond>, input: Input, now: string)
    requires WellFormed(conds) && InputOK(input)
    ensures WellFormed(Merge(conds, input, now))
    ensures Types(conds) <= Types(Merge(conds, input, now))
  {
    EditsTyped(conds, input, now);
    ApplyKeepsOrder(conds, Edits(conds, input, now));
  }

  /** A transition time that is there to be read. */
  predicate HasTime(c: Cond) {
    Get(c, Time).Str? && Get(c, Time) != Str("")
  }

  /** The time differs only where the status does. */
  ghost predicate TimeMoves(got: Cond, was: Cond) {
    Get(got, Time) != Get(was, Time) ==> Get(got, Status) != Get(was, Status)
  }

  lemma MirrorKeepsTime(was: Cond, d: Cond, now: string)
    requires HasTime(was)
    ensures TimeMoves(MirrorItem(Some(was), d, now), was)
  {
  }

  lemma ItemKeepsTime(input: Input, was: Cond, t: string, now: string)
    requires InputOK(input) && Writes(input, t) && HasTime(was) && TypeOf(was) == t
    ensures var got := Item(input, Some(was), t, now);
            TimeMoves(got, was)
  {
    match input
    case Wants(wants) =>
      forall w: Want ensures TimeMoves(LcmItem(Some(was), w, now), was) {
      }
    case Health(healthy) =>
    case Mirrored(own) =>
      forall d ensures TimeMoves(MirrorItem(Some(was), d, now), was) {
        MirrorKeepsTime(was, d, now);
      }
  }

  /** No merge loses a condition, and a present transition time moves only with the status. */
  lemma MergeKeepsTime(conds: seq<Cond>, input: Input, now: string, t: string)
    requires WellFormed(conds) && InputOK(input) && Find(conds, t).Some?
    ensures var was := Find(conds, t).value;
            var got := Find(Merge(conds, input, now), t);
            && got.Some?
            && (HasTime(was) && Get(got.value, Time) != Get(was, Time) ==> Get(got.value, Status) != Get(was, Status))
  {
    if Writes(input, t) {
      MergeWrites(conds, input, now, t);
      if HasTime(Find(conds, t).value) {
        ItemKeepsTime(input, Find(conds, t).value, t, now);
      }
    } else {
      MergeFrame(conds, input, now, t);
    }
  }

  // ----- What each writer's entry says -----

  /** The manager's entry: its four values, and a time that is kept while the status stands. */
  lemma LcmItemMeans(found: Option<Cond>, w: Want, now: string)
    requires found.Some? ==> TypeOf(found.value) == w.t
    ensures var got := LcmItem(found, w, now);
            && TypeOf(got) == w.t && Says(got, w.status, w.reason, w.message)
            && Get(got, Time) == (if found.Some? && Get(found.value, Status) == Str(w.status) then Get(found.value, Time) else Str(now))
  {
  }

  /** The daemon's entry: every other field of a found Ready is kept; the time is
      set when the status moves, or when another value moves and none was there. */
  lemma ReadyItemMeans(m: Cond, healthy: bool, now: string, f: Field)
    requires TypeOf(m) == READY
    ensures var got := ReadyItem(Some(m), healthy, now);
            && Says(got, ReadyStatus(healthy), ReadyReason(healthy), ReadyMessage(healthy))
            && (f !in {Status, Reason, Message, Time} ==> Get(got, f) == Get(m, f))
            && (Get(m, Status) != Str(ReadyStatus(healthy)) ==> Get(got, Time) == Str(now))
            && (Get(m, Status) == Str(ReadyStatus(healthy)) && HasTime(m) ==> Get(got, Time) == Get(m, Time))
            && (got != m && Get(m, Time) in {Null, Str("")} ==> Get(got, Time) == Str(now))
  {
  }

  /** The translator's entry: type, status, reason and message as desired, nothing
      beside the five fields, and a time that is kept while the status stands. */
  lemma MirrorItemMeans(found: Option<Cond>, d: Cond, now: string, f: Field)
    requires !Skipped(d)
    ensures var got := MirrorItem(found, d, now);
            && TypeOf(got) == TypeOf(d) && Get(got, Status) == Get(d, Status)
            && Get(got, Reason) == Get(d, Reason) && Get(got, Message) == Get(d, Message)
            && (f.Extra? ==> f !in got)
            && Get(got, Time) == (if found.Some? && Get(found.value, Status) == Get(d, Status) then Get(found.value, Time) else Str(now))
  {
  }

  // ----- Idempotence -----

  lemma MirrorItemSettles(found: Option<Cond>, d: Cond, now: string, later: string)
    requires !Skipped(d)
    ensures MirrorItem(Some(MirrorItem(found, d, now)), d, later) == MirrorItem(found, d, now)
  {
  }

  lemma {:induction false} MirrorSettles(ds: seq<Cond>, now: string, later: string)
    ensures Settles(MirrorEdits(ds, now), MirrorEdits(ds, later))
  {
    if ds != [] {
      MirrorSettles(ds[..|ds| - 1], now, later);
      var d := ds[|ds| - 1];
      if !Skipped(d) {
        forall found ensures MirrorItem(Some(MirrorItem(found, d, now)), d, later) == MirrorItem(found, d, now) {
          MirrorItemSettles(found, d, now, later);
        }
      }
    }
  }

  /** Merging the same desired conditions into the result changes nothing, at any later clock. */
  lemma MergeConditionsIdempotent(conds: seq<Cond>, ds: seq<Cond>, now: string, later: string)
    requires DistinctTypes(ds)
    ensures Apply(Apply(conds, MirrorEdits(ds, now)), MirrorEdits(ds, later)) == Apply(conds, MirrorEdits(ds, now))
  {
    MirrorEditsSpec(ds, now);
    MirrorEditsSpec(ds, later);
    MirrorSettles(ds, now, later);
    ApplyIdempotent(conds, MirrorEdits(ds, now), MirrorEdits(ds, later));
  }

  lemma LcmSettles(wants: seq<Want>, now: string, later: string)
    ensures Settles(LcmEdits(wants, now), LcmEdits(wants, later))
  {
  }

  lemma ReadySettles(healthy: bool, now: string, later: string)
    ensures Settles(ReadyEdits(healthy, now), ReadyEdits(healthy, later))
  {
    forall found ensures ReadyItem(Some(ReadyItem(found, healthy, now)), healthy, later) == ReadyItem(found, healthy, now) {
      ReadyItemSettles(found, healthy, now, later);
    }
    hide ReadyItem;
  }

  lemma ReadyItemSettles(found: Option<Cond>, healthy: bool, now: string, later: string)
    ensures ReadyItem(Some(ReadyItem(found, healthy, now)), healthy, later) == ReadyItem(found, healthy, now)
  {
    hide ReadyStatus, ReadyReason, ReadyMessage;
  }

  lemma OwnedAndReadyIdempotent(conds: seq<Cond>, input: Input, now: string, later: string)
    requires InputOK(input) && !input.Mirrored?
    ensures Merge(Merge(conds, input, now), input, later) == Merge(conds, input, now)
  {
    hide Settles, TypedAll, Apply, LcmItem, ReadyItem, LcmEdits, ReadyEdits;
    match input
    case Wants(wants) =>
      LcmTyped(wants, now);
      LcmTyped(wants, later);
      LcmSettles(wants, now, later);
      ApplyIdempotent(conds, LcmEdits(wants, now), LcmEdits(wants, later));
    case Health(healthy) =>
      ReadyTyped(healthy, now);
      ReadyTyped(healthy, later);
      ReadySettles(healthy, now, later);
      ApplyIdempotent(conds, ReadyEdits(healthy, now), ReadyEdits(healthy, later));
  }

  /** A condition the mapping copies through is rebuilt on the five fields. */
  lemma MirrorCopies(conds: seq<Cond>, own: seq<Cond>, now: string, c: Cond)
    requires WellFormed(conds) && OwnOK(own) && c in Preserved(conds, own) && !Skipped(c)
    ensures Find(Merge(conds, Mirrored(own), now), TypeOf(c)) == Some(Five(c))
  {
    var i :| 0 <= i < |Preserved(conds, own)| && Preserved(conds, own)[i] == c;
    assert Desired(conds, own)[i] == c;
    MergedDesired(conds, own, now, i);
    assert c in conds by { PreservedMember(conds, own, c); }
    FindMember(conds, c);
    RebuiltIsFive(c, now);
  }

  lemma NotOwnedNotWritten(own: seq<Cond>, c: Cond)
    requires !OwnsKey(own, FoldKey(c))
    ensures !Writes(Mirrored(own), TypeOf(c))
  {
    forall i | 0 <= i < |own| ensures TypeOf(own[i]) != TypeOf(c) {
      assert FoldKey(own[i]) != FoldKey(c);
    }
  }

  /** A copied-through condition of the result was copied through, so it is on the five fields. */
  lemma CopiedIsFive(conds: seq<Cond>, own: seq<Cond>, now: string, c: Cond)
    requires WellFormed(conds) && OwnOK(own) && !Skipped(c)
    requires c in Preserved(Merge(conds, Mirrored(own), now), own)
    ensures Find(Merge(conds, Mirrored(own), now), TypeOf(c)) == Some(c) && Five(c) == c
  {
    hide Merge, TypeOf, Preserved, Skipped, Five, WellFormed, OwnOK, FoldKey, Find;
    var out := Merge(conds, Mirrored(own), now);
    MergeKeepsOrder(conds, Mirrored(own), now);
    PreservedMember(out, own, c);
    FindMember(out, c);
    NotOwnedNotWritten(own, c);
    MirrorForeign(conds, own, now, TypeOf(c));
    CameFrom(conds, own, now, c, Find(conds, TypeOf(c)).value);
  }

  lemma CameFrom(conds: seq<Cond>, own: seq<Cond>, now: string, c: Cond, was: Cond)
    requires WellFormed(conds) && OwnOK(own) && !Skipped(c)
    requires was in conds && TypeOf(was) == TypeOf(c) && FoldKey(c) != "" && !OwnsKey(own, FoldKey(c))
    requires Find(Merge(conds, Mirrored(own), now), TypeOf(c)) == Some(c) && (c == was || c == Five(was))
    ensures Five(c) == c
  {
    if c == was {
      PreservedMember(conds, own, was);
      MirrorCopies(conds, own, now, was);
    }
  }

  /** Mirroring again with nothing new changes nothing, copied conditions included. */
  lemma MirrorIdempotent(conds: seq<Cond>, own: seq<Cond>, now: string, later: string)
    requires WellFormed(conds) && OwnOK(own)
    ensures Merge(Merge(conds, Mirrored(own), now), Mirrored(own), later) == Merge(conds, Mirrored(own), now)
  {
    var out := Merge(conds, Mirrored(own), now);
    MergeKeepsOrder(conds, Mirrored(own), now);
    var ds := Desired(out, own);
    DesiredDistinct(out, own);
    MirrorEditsSpec(ds, later);
    var es := MirrorEdits(ds, later);
    forall k | 0 <= k < |es|
      ensures Find(out, es[k].t).Some? && es[k].next(Find(out, es[k].t)) == Find(out, es[k].t).value
    {
      MirrorEditSource(ds, later, k);
      var i :| 0 <= i < |ds| && TypeOf(ds[i]) == es[k].t;
      MirrorEditFor(ds, later, i);
      EditForAt(es, k);
      MirrorContent(conds, own, now, later, i);
    }
    ApplySatisfied(out, es);
  }

  lemma MirrorContent(conds: seq<Cond>, own: seq<Cond>, now: string, later: string, i: nat)
    requires WellFormed(conds) && OwnOK(own)
    requires var ds := Desired(Merge(conds, Mirrored(own), now), own); i < |ds| && !Skipped(ds[i])
    ensures var out := Merge(conds, Mirrored(own), now);
            var d := Desired(out, own)[i];
            Find(out, TypeOf(d)).Some? && MirrorItem(Find(out, TypeOf(d)), d, later) == Find(out, TypeOf(d)).value
  {
    hide MirrorItem, Merge, Five, Preserved, TypeOf, Find;
    var out := Merge(conds, Mirrored(own), now);
    var p := Preserved(out, own);
    if i < |p| {
      var c := p[i];
      assert c in p;
      CopiedIsFive(conds, own, now, c);
      RebuiltIsFive(c, later);
    } else {
      OwnContent(conds, own, now, later, i - |p|);
    }
  }

  lemma OwnContent(conds: seq<Cond>, own: seq<Cond>, now: string, later: string, k: nat)
    requires WellFormed(conds) && OwnOK(own) && k < |own|
    ensures var found := Find(Merge(conds, Mirrored(own), now), TypeOf(own[k]));
            found.Some? && MirrorItem(found, own[k], later) == found.value
  {
    assert !Skipped(own[k]);
    MirrorOwn(conds, own, now, k);
    MirrorItemSettles(Find(conds, TypeOf(own[k])), own[k], now, later);
  }
}
