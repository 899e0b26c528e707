/** The three condition writers: what each wants for a type, and their merge loops. */
module ConditionWriters {
  import opened Text
  import opened Conditions

  // ----- Lifecycle manager -----

  datatype Want = Want(t: string, status: string, reason: string, message: string)

  predicate Says(c: Cond, status: string, reason: string, message: string) {
    Get(c, Status) == Str(status) && Get(c, Reason) == Str(reason) && Get(c, Message) == Str(message)
  }

  /** The entry is kept when it says the same; its time is kept while the status stands. */
  function LcmItem(found: Option<Cond>, w: Want, now: string): Cond {
    if found.Some? && TypeOf(found.value) == w.t && Says(found.value, w.status, w.reason, w.message) then found.value
    else
      map[Type := Str(w.t), Status := Str(w.status), Reason := Str(w.reason), Message := Str(w.message),
          Time := if found.Some? && Get(found.value, Status) == Str(w.status) then Get(found.value, Time) else Str(now)]
  }

  lemma LcmItemTyped(found: Option<Cond>, w: Want, now: string)
    ensures TypeOf(LcmItem(found, w, now)) == w.t
  {
  }

  function LcmEdit(w: Want, now: string): Edit {
    Edit(w.t, found => LcmItem(found, w, now))
  }

  function LcmEdits(wants: seq<Want>, now: string): seq<Edit> {
    seq(|wants|, i requires 0 <= i < |wants| => LcmEdit(wants[i], now))
  }

  ghost predicate DistinctWants(wants: seq<Want>) {
    && (forall i :: 0 <= i < |wants| ==> wants[i].t != "")
    && (forall i, j :: 0 <= i < j < |wants| ==> wants[i].t != wants[j].t)
  }

  lemma LcmTyped(wants: seq<Want>, now: string)
    requires DistinctWants(wants)
    ensures TypedAll(LcmEdits(wants, now))
  {
    forall i | 0 <= i < |wants| ensures Typed(LcmEdits(wants, now)[i]) {
    }
  }

  ghost predicate NoneBefore(conds: seq<Cond>, i: nat, t: string)
    requires i <= |conds|
  {
    forall k :: 0 <= k < i ==> TypeOf(conds[k]) != t
  }

  /** The first entry of its type is the one found and the one replaced. */
  lemma {:induction false} UpsertAt(conds: seq<Cond>, i: nat, c: Cond)
    requires i < |conds| && NoneBefore(conds, i, TypeOf(c)) && TypeOf(conds[i]) == TypeOf(c)
    ensures Find(conds, TypeOf(c)) == Some(conds[i])
    ensures Upsert(conds, c) == conds[i := c]
    decreases i
  {
    hide TypeOf;
    if i > 0 {
      assert TypeOf(conds[0]) != TypeOf(c);
      UpsertAt(conds[1..], i - 1, c);
      assert conds == [conds[0]] + conds[1..];
    }
  }

  lemma {:induction false} UpsertNew(conds: seq<Cond>, c: Cond)
    requires NoneBefore(conds, |conds|, TypeOf(c))
    ensures Find(conds, TypeOf(c)) == None
    ensures Upsert(conds, c) == conds + [c]
  {
    if conds != [] {
      UpsertNew(conds[1..], c);
    }
  }

  /** The inner loop of the merge: replace the first entry of the type, or append. */
  method MergeOne(conds: seq<Cond>, w: Want, now: string) returns (out: seq<Cond>, changed: bool)
    requires w.t != ""
    ensures out == Upsert(conds, LcmItem(Find(conds, w.t), w, now))
    ensures changed <==> Find(conds, w.t) != Some(LcmItem(Find(conds, w.t), w, now))
  {
    var item := map[Type := Str(w.t), Status := Str(w.status), Reason := Str(w.reason),
                    Message := Str(w.message), Time := Str(now)];
    for i := 0 to |conds|
      invariant NoneBefore(conds, i, w.t)
    {
      var c := conds[i];
      if TypeOf(c) != w.t {
        continue;
      }
      UpsertAt(conds, i, LcmItem(Some(c), w, now));
      if Says(c, w.status, w.reason, w.message) {
        return conds, false;
      }
      if Get(c, Status) == Str(w.status) {
        item := item[Time := Get(c, Time)];
      }
      assert item == LcmItem(Some(c), w, now);
      return conds[i := item], true;
    }
    UpsertNew(conds, item);
    return conds + [item], true;
  }

  lemma LcmSnoc(conds: seq<Cond>, wants: seq<Want>, now: string, i: nat)
    requires i < |wants| && DistinctWants(wants)
    ensures var before := Apply(conds, LcmEdits(wants[..i], now));
            && Find(before, wants[i].t) == Find(conds, wants[i].t)
            && Apply(conds, LcmEdits(wants[..i + 1], now)) == Upsert(before, LcmItem(Find(before, wants[i].t), wants[i], now))
  {
    hide LcmItem, TypeOf, Find, Upsert;
    var es := LcmEdits(wants[..i + 1], now);
    assert es[..i] == LcmEdits(wants[..i], now);
    LcmTyped(wants[..i], now);
    ApplyFind(conds, LcmEdits(wants[..i], now), wants[i].t);
    NotEdited(LcmEdits(wants[..i], now), wants[i].t);
  }

  /** `mergeOwnedConditions`: the edits applied, and whether they changed anything. */
  method MergeOwnedConditions(conds: seq<Cond>, wants: seq<Want>, now: string) returns (out: seq<Cond>, changed: bool)
    requires DistinctWants(wants)
    ensures out == Apply(conds, LcmEdits(wants, now))
    ensures changed <==> out != conds
  {
    hide LcmItem, TypeOf, Upsert, Find;
    out, changed := conds, false;
    for i := 0 to |wants|
      invariant out == Apply(conds, LcmEdits(wants[..i], now))
      invariant !changed ==> out == conds
      invariant changed ==> exists j :: 0 <= j < i && Find(out, wants[j].t) != Find(conds, wants[j].t)
    {
      LcmSnoc(conds, wants, now, i);
      LcmItemTyped(Find(out, wants[i].t), wants[i], now);
      var next, hit := MergeOne(out, wants[i], now);
      forall j | 0 <= j < i ensures Find(next, wants[j].t) == Find(out, wants[j].t) {
        UpsertFind(out, LcmItem(Find(out, wants[i].t), wants[i], now), wants[j].t);
      }
      UpsertFind(out, LcmItem(Find(out, wants[i].t), wants[i], now), wants[i].t);
      if hit {
        assert Find(next, wants[i].t) != Find(conds, wants[i].t);
      } else {
        UpsertSame(out, LcmItem(Find(out, wants[i].t), wants[i], now));
      }
      changed := changed || hit;
      out := next;
    }
    assert wants[..|wants|] == wants;
  }

  // ----- Daemon -----

  function ReadyStatus(healthy: bool): string { if healthy then "True" else "False" }
  function ReadyReason(healthy: bool): string { if healthy then "DeviceHealthy" else "DeviceUnhealthy" }
  function ReadyMessage(healthy: bool): string {
    if healthy then "VSP handshake enumerated a healthy device" else "VSP handshake reported no healthy device"
  }

  /** Ready rewritten in place: every other field of the entry is kept. */
  function Rewritten(m: Cond, healthy: bool, now: string): Cond {
    if Says(m, ReadyStatus(healthy), ReadyReason(healthy), ReadyMessage(healthy)) then m
    else
      var next := m[Status := Str(ReadyStatus(healthy))][Reason := Str(ReadyReason(healthy))][Message := Str(ReadyMessage(healthy))];
      if Get(m, Status) != Str(ReadyStatus(healthy)) || Get(m, Time) == Null || Get(m, Time) == Str("")
      then next[Time := Str(now)] else next
  }

  function ReadyItem(found: Option<Cond>, healthy: bool, now: string): Cond {
    if found.Some? && TypeOf(found.value) == READY then Rewritten(found.value, healthy, now)
    else
      map[Type := Str(READY), Status := Str(ReadyStatus(healthy)), Reason := Str(ReadyReason(healthy)),
          Message := Str(ReadyMessage(healthy)), Time := Str(now)]
  }

  function ReadyEdits(healthy: bool, now: string): seq<Edit> {
    [Edit(READY, found => ReadyItem(found, healthy, now))]
  }

  lemma ReadyTyped(healthy: bool, now: string)
    ensures TypedAll(ReadyEdits(healthy, now))
  {
    hide ReadyStatus, ReadyReason, ReadyMessage;
    assert READY != "" by {
      assert |READY| == 5;
    }
  }

  /** `upsertReadyCondition`: every Ready entry is rewritten, one is appended if there is none. */
  method UpsertReadyCondition(conds: seq<Cond>, healthy: bool, now: string) returns (out: seq<Cond>, changed: bool)
    requires WellFormed(conds)
    ensures out == Apply(conds, ReadyEdits(healthy, now))
    ensures changed <==> out != conds
  {
    hide Apply, Upsert, Find, ReadyStatus, ReadyReason, ReadyMessage, Says, ReadyEdits;
    out, changed := [], false;
    ReadyApply(conds, healthy, now);
    var found := false;
    ghost var at := 0;
    for i := 0 to |conds|
      invariant |out| == i
      invariant if found then at < i && TypeOf(conds[at]) == READY else NoneBefore(conds, i, READY)
      invariant forall k :: 0 <= k < i && !(found && k == at) ==> out[k] == conds[k]
      invariant found ==> out[at] == Rewritten(conds[at], healthy, now)
      invariant changed <==> found && out[at] != conds[at]
    {
      if TypeOf(conds[i]) != READY {
        out := out + [conds[i]];
        continue;
      }
      found := true;
      at := i;
      var next := Rewritten(conds[i], healthy, now);
      if next != conds[i] {
        changed := true;
      }
      out := out + [next];
    }
    if found {
      assert out == conds[at := Rewritten(conds[at], healthy, now)];
      UpsertAt(conds, at, ReadyItem(Some(conds[at]), healthy, now));
    } else {
      assert out == conds;
      UpsertNew(conds, ReadyItem(None, healthy, now));
      out := out + [ReadyItem(None, healthy, now)];
      changed := true;
    }
  }

  lemma ReadyApply(conds: seq<Cond>, healthy: bool, now: string)
    ensures Apply(conds, ReadyEdits(healthy, now)) == Upsert(conds, ReadyItem(Find(conds, READY), healthy, now))
  {
    var es := ReadyEdits(healthy, now);
    assert es[..0] == [];
    assert Apply(conds, es[..0]) == conds;
  }

  // ----- Translator -----

  predicate Skipped(d: Cond) {
    TypeOf(d) == "" || EqualFold(TypeOf(d), READY) || Get(d, Status) == Null || Get(d, Status) == Str("")
  }

  /** The entry rebuilt from the desired one; its time is kept while the status stands. */
  function MirrorItem(found: Option<Cond>, d: Cond, now: string): Cond {
    var base := map[Type := Str(TypeOf(d)), Status := Get(d, Status)];
    var told := (if Reason in d then base[Reason := d[Reason]] else base);
    var full := (if Message in d then told[Message := d[Message]] else told);
    if found.Some? && Get(found.value, Status) == Get(d, Status)
    then (if Time in found.value then full[Time := found.value[Time]] else full)
    else full[Time := Str(now)]
  }

  function MirrorEdit(d: Cond, now: string): Edit {
    Edit(TypeOf(d), found => MirrorItem(found, d, now))
  }

  function MirrorEdits(desired: seq<Cond>, now: string): seq<Edit> {
    if desired == [] then []
    else
      var d := desired[|desired| - 1];
      MirrorEdits(desired[..|desired| - 1], now) + (if Skipped(d) then [] else [MirrorEdit(d, now)])
  }

  /** The list the translator's index stands for. */
  function Assemble(order: seq<string>, byType: map<string, Cond>): seq<Cond>
    requires forall t :: t in order ==> t in byType
  {
    seq(|order|, i requires 0 <= i < |order| => byType[order[i]])
  }

  ghost predicate Indexed(order: seq<string>, byType: map<string, Cond>) {
    && (forall t :: t in order <==> t in byType)
    && (forall t :: t in byType ==> TypeOf(byType[t]) == t)
    && (forall i, j :: 0 <= i < j < |order| ==> order[i] != order[j])
  }

  lemma AssembleTypes(order: seq<string>, byType: map<string, Cond>)
    requires Indexed(order, byType)
    ensures forall k :: 0 <= k < |order| ==> TypeOf(Assemble(order, byType)[k]) == order[k]
  {
    forall k | 0 <= k < |order| ensures TypeOf(Assemble(order, byType)[k]) == order[k] {
      assert order[k] in byType;
    }
  }

  lemma AssembleReplace(order: seq<string>, byType: map<string, Cond>, i: nat, c: Cond)
    requires Indexed(order, byType) && i < |order|
    ensures Assemble(order, byType[order[i] := c]) == Assemble(order, byType)[i := c]
  {
  }

  lemma AssembleKnown(order: seq<string>, byType: map<string, Cond>, c: Cond)
    requires Indexed(order, byType) && TypeOf(c) in byType
    ensures Find(Assemble(order, byType), TypeOf(c)) == Some(byType[TypeOf(c)])
    ensures Assemble(order, byType[TypeOf(c) := c]) == Upsert(Assemble(order, byType), c)
  {
    var i :| 0 <= i < |order| && order[i] == TypeOf(c);
    AssembleTypes(order, byType);
    AssembleReplace(order, byType, i, c);
    UpsertAt(Assemble(order, byType), i, c);
  }

  lemma AssembleNew(order: seq<string>, byType: map<string, Cond>, c: Cond)
    requires Indexed(order, byType) && TypeOf(c) !in byType
    ensures Find(Assemble(order, byType), TypeOf(c)) == None
    ensures Indexed(order + [TypeOf(c)], byType[TypeOf(c) := c])
    ensures Assemble(order + [TypeOf(c)], byType[TypeOf(c) := c]) == Upsert(Assemble(order, byType), c)
  {
    var l := Assemble(order, byType);
    forall k | 0 <= k < |order| ensures TypeOf(l[k]) != TypeOf(c) {
      assert order[k] in byType;
    }
    UpsertNew(l, c);
    forall t ensures t in order + [TypeOf(c)] <==> t in byType[TypeOf(c) := c] {
    }
    assert Assemble(order + [TypeOf(c)], byType[TypeOf(c) := c]) == l + [c];
  }

  method IndexExisting(existing: seq<Cond>) returns (order: seq<string>, byType: map<string, Cond>)
    requires WellFormed(existing)
    ensures Indexed(order, byType) && Assemble(order, byType) == existing
  {
    hide Find, Upsert, TypeOf;
    order, byType := [], map[];
    for i := 0 to |existing|
      invariant |order| == i && forall k :: 0 <= k < i ==> order[k] == TypeOf(existing[k])
      invariant Indexed(order, byType) && Assemble(order, byType) == existing[..i]
    {
      var t := TypeOf(existing[i]);
      assert t !in order;
      AssembleNew(order, byType, existing[i]);
      UpsertNew(existing[..i], existing[i]);
      assert existing[..i] + [existing[i]] == existing[..i + 1];
      byType := byType[t := existing[i]];
      order := order + [t];
    }
  }

  lemma MirrorSnoc(conds: seq<Cond>, desired: seq<Cond>, now: string, i: nat)
    requires i < |desired|
    ensures var before, after := Apply(conds, MirrorEdits(desired[..i], now)), Apply(conds, MirrorEdits(desired[..i + 1], now));
            after == if Skipped(desired[i]) then before
                     else Upsert(before, MirrorItem(Find(before, TypeOf(desired[i])), desired[i], now))
  {
    assert desired[..i + 1][..i] == desired[..i];
    var es := MirrorEdits(desired[..i + 1], now);
    if Skipped(desired[i]) {
      assert es == MirrorEdits(desired[..i], now);
    } else {
      assert es[..|es| - 1] == MirrorEdits(desired[..i], now);
    }
  }

  lemma MirrorItemTyped(found: Option<Cond>, d: Cond, now: string)
    requires !Skipped(d)
    ensures TypeOf(MirrorItem(found, d, now)) == TypeOf(d)
  {
  }

  /** One desired condition put into the index. */
  method MirrorOne(order0: seq<string>, byType0: map<string, Cond>, d: Cond, now: string)
    returns (order: seq<string>, byType: map<string, Cond>, changed: bool)
    requires Indexed(order0, byType0) && !Skipped(d)
    ensures Indexed(order, byType)
    ensures var before := Assemble(order0, byType0);
            && Assemble(order, byType) == Upsert(before, MirrorItem(Find(before, TypeOf(d)), d, now))
            && (changed <==> Find(before, TypeOf(d)) != Some(MirrorItem(Find(before, TypeOf(d)), d, now)))
  {
    hide MirrorItem, TypeOf, Upsert, Find;
    var t := TypeOf(d);
    order := order0;
    if t in byType0 {
      var prev, next := byType0[t], MirrorItem(Some(byType0[t]), d, now);
      MirrorItemTyped(Some(prev), d, now);
      AssembleKnown(order, byType0, next);
      changed := prev != next;
      byType := byType0[t := next];
    } else {
      var next := MirrorItem(None, d, now);
      MirrorItemTyped(None, d, now);
      AssembleNew(order, byType0, next);
      order := order + [t];
      changed := true;
      byType := byType0[t := next];
    }
  }

  /** `mergeConditions`: the edits applied in order, on the index of the existing list. */
  method MergeConditions(existing: seq<Cond>, desired: seq<Cond>, now: string) returns (out: seq<Cond>, changed: bool)
    requires WellFormed(existing)
    ensures out == Apply(existing, MirrorEdits(desired, now))
    ensures !changed ==> out == existing
    ensures changed && TypedAll(MirrorEdits(desired, now)) ==> out != existing
  {
    var order, byType := IndexExisting(existing);
    changed := false;
    ghost var hit := 0;
    for i := 0 to |desired|
      invariant Indexed(order, byType)
      invariant Assemble(order, byType) == Apply(existing, MirrorEdits(desired[..i], now))
      invariant !changed ==> Assemble(order, byType) == existing
      invariant changed ==> hit < i && !Skipped(desired[hit]) && DiffersAt(existing, desired, now, hit)
    {
      if Skipped(desired[i]) {
        MirrorSnoc(existing, desired, now, i);
        continue;
      }
      MirrorStep(existing, desired, now, i);
      var step;
      order, byType, step := MirrorOne(order, byType, desired[i], now);
      if step {
        changed, hit := true, i;
      }
    }
    assert desired[..|desired|] == desired;
    out := Assemble(order, byType);
    if changed && TypedAll(MirrorEdits(desired, now)) {
      DifferenceStays(existing, desired, now, hit);
    }
  }

  /** Desired condition i wanted something else than what it found. */
  ghost predicate DiffersAt(conds: seq<Cond>, desired: seq<Cond>, now: string, i: nat)
    requires i < |desired|
  {
    var found := Find(Apply(conds, MirrorEdits(desired[..i], now)), TypeOf(desired[i]));
    found != Some(MirrorItem(found, desired[i], now))
  }

  lemma MirrorStep(conds: seq<Cond>, desired: seq<Cond>, now: string, i: nat)
    requires i < |desired| && !Skipped(desired[i])
    ensures var before, d := Apply(conds, MirrorEdits(desired[..i], now)), desired[i];
            var next := MirrorItem(Find(before, TypeOf(d)), d, now);
            && Apply(conds, MirrorEdits(desired[..i + 1], now)) == Upsert(before, next)
            && (DiffersAt(conds, desired, now, i) <==> Find(before, TypeOf(d)) != Some(next))
            && (!DiffersAt(conds, desired, now, i) ==> Upsert(before, next) == before)
  {
    MirrorSnoc(conds, desired, now, i);
    var before, d := Apply(conds, MirrorEdits(desired[..i], now)), desired[i];
    if !DiffersAt(conds, desired, now, i) {
      UpsertSame(before, MirrorItem(Find(before, TypeOf(d)), d, now));
    }
  }

  lemma {:induction false} MirrorEditsSplit(desired: seq<Cond>, now: string, i: nat)
    requires i < |desired| && !Skipped(desired[i])
    ensures MirrorEdits(desired[..i], now) + [MirrorEdit(desired[i], now)] <= MirrorEdits(desired, now)
    decreases |desired|
  {
    var front := desired[..|desired| - 1];
    if i < |front| {
      MirrorEditsSplit(front, now, i);
      assert front[..i] == desired[..i];
    }
  }

  lemma DifferenceStays(conds: seq<Cond>, desired: seq<Cond>, now: string, i: nat)
    requires i < |desired| && !Skipped(desired[i])
    requires TypedAll(MirrorEdits(desired, now)) && DiffersAt(conds, desired, now, i)
    ensures Find(Apply(conds, MirrorEdits(desired, now)), TypeOf(desired[i])) != Find(conds, TypeOf(desired[i]))
  {
    var es, front, t := MirrorEdits(desired, now), MirrorEdits(desired[..i], now), TypeOf(desired[i]);
    MirrorEditsSplit(desired, now, i);
    assert es[|front|] == MirrorEdit(desired[i], now);
    forall k | 0 <= k < |front| ensures Typed(front[k]) && front[k].t != t {
      assert front[k] == es[k];
    }
    assert TypedAll(front) by {
      assert forall k :: 0 <= k < |front| ==> front[k] == es[k];
    }
    NotEdited(front, t);
    ApplyFind(conds, front, t);
    EditForAt(es, |front|);
    ApplyFind(conds, es, t);
  }
}
