/** Merging status conditions: the lifecycle manager
    (pkg/lifecycle/lifecycle_controller.go), the VSP daemon (pkg/vsp/ready.go) and
    the translator (pkg/mapping/engine.go, pkg/translation/translation_controller.go). */
module Conditions {
  import opened Text

  /** A JSON value as far as conditions hold one; a missing field reads as Null. */
  datatype Val = Null | Str(s: string) | Other(n: int)

  datatype Field = Type | Status | Reason | Message | Time | Extra(name: string)

  type Cond = map<Field, Val>

  const READY := "Ready"

  function Get(c: Cond, f: Field): Val {
    if f in c then c[f] else Null
  }

  function TypeOf(c: Cond): string {
    if Get(c, Type).Str? then c[Type].s else ""
  }

  function Find(conds: seq<Cond>, t: string): (r: Option<Cond>)
    ensures r.Some? ==> r.value in conds && TypeOf(r.value) == t
  {
    if conds == [] then None
    else if TypeOf(conds[0]) == t then Some(conds[0])
    else Find(conds[1..], t)
  }

  function Types(conds: seq<Cond>): (r: seq<string>)
    ensures |r| == |conds|
    ensures forall i :: 0 <= i < |r| ==> r[i] == TypeOf(conds[i])
  {
    if conds == [] then [] else [TypeOf(conds[0])] + Types(conds[1..])
  }

  /** Replace the condition of that type, or append. */
  function Upsert(conds: seq<Cond>, c: Cond): seq<Cond> {
    if conds == [] then [c]
    else if TypeOf(conds[0]) == TypeOf(c) then [c] + conds[1..]
    else [conds[0]] + Upsert(conds[1..], c)
  }

  /** What metav1 requires of the stored list: addressable, distinct types. */
  ghost predicate WellFormed(conds: seq<Cond>) {
    && (forall i :: 0 <= i < |conds| ==> TypeOf(conds[i]) != "")
    && (forall i, j :: 0 <= i < j < |conds| ==> TypeOf(conds[i]) != TypeOf(conds[j]))
  }

  /** One writer's wish for one type: the entry it wants, given the entry it finds. */
  datatype Edit = Edit(t: string, next: Option<Cond> -> Cond)

  ghost predicate Typed(e: Edit) {
    e.t != "" && forall o :: TypeOf(e.next(o)) == e.t
  }

  ghost predicate TypedAll(edits: seq<Edit>) {
    && (forall i :: 0 <= i < |edits| ==> Typed(edits[i]))
    && (forall i, j :: 0 <= i < j < |edits| ==> edits[i].t != edits[j].t)
  }

  function Apply(conds: seq<Cond>, edits: seq<Edit>): seq<Cond> {
    if edits == [] then conds
    else
      var before := Apply(conds, edits[..|edits| - 1]);
      var e := edits[|edits| - 1];
      Upsert(before, e.next(Find(before, e.t)))
  }

  ghost function EditFor(edits: seq<Edit>, t: string): Option<Edit> {
    if edits == [] then None
    else if edits[|edits| - 1].t == t then Some(edits[|edits| - 1])
    else EditFor(edits[..|edits| - 1], t)
  }

  // ----- Laws of upserting -----

  lemma {:induction false} UpsertFind(conds: seq<Cond>, c: Cond, t: string)
    ensures Find(Upsert(conds, c), t) == if t == TypeOf(c) then Some(c) else Find(conds, t)
  {
    if conds != [] && TypeOf(conds[0]) != TypeOf(c) {
      UpsertFind(conds[1..], c, t);
      assert Upsert(conds, c)[1..] == Upsert(conds[1..], c);
    } else if conds != [] {
      assert Upsert(conds, c)[1..] == conds[1..];
    }
  }

  lemma {:induction false} UpsertTypes(conds: seq<Cond>, c: Cond)
    ensures Types(Upsert(conds, c)) ==
            if Find(conds, TypeOf(c)).Some? then Types(conds) else Types(conds) + [TypeOf(c)]
  {
    if conds != [] {
      if TypeOf(conds[0]) != TypeOf(c) {
        UpsertTypes(conds[1..], c);
        assert Upsert(conds, c)[1..] == Upsert(conds[1..], c);
      } else {
        assert Upsert(conds, c)[1..] == conds[1..];
      }
    }
  }

  lemma {:induction false} UpsertSame(conds: seq<Cond>, c: Cond)
    requires Find(conds, TypeOf(c)) == Some(c)
    ensures Upsert(conds, c) == conds
  {
    if TypeOf(conds[0]) != TypeOf(c) {
      UpsertSame(conds[1..], c);
    }
  }

  lemma {:induction false} FindIsType(conds: seq<Cond>, t: string)
    ensures Find(conds, t).Some? <==> t in Types(conds)
  {
    if conds != [] {
      FindIsType(conds[1..], t);
    }
  }

  /** After the edits an edited type holds what its edit wants, every other type what it held. */
  lemma {:induction false} ApplyFind(conds: seq<Cond>, edits: seq<Edit>, t: string)
    requires TypedAll(edits)
    ensures Find(Apply(conds, edits), t) ==
            var e := EditFor(edits, t);
            if e.Some? then Some(e.value.next(Find(conds, t))) else Find(conds, t)
  {
    if edits != [] {
      var front, e := edits[..|edits| - 1], edits[|edits| - 1];
      assert TypedAll(front) && Typed(e);
      ApplyFind(conds, front, t);
      var before := Apply(conds, front);
      UpsertFind(before, e.next(Find(before, e.t)), t);
      if t == e.t {
        NotEdited(front, t);
      }
    }
  }

  lemma {:induction false} NotEdited(edits: seq<Edit>, t: string)
    requires forall i :: 0 <= i < |edits| ==> edits[i].t != t
    ensures EditFor(edits, t).None?
  {
    if edits != [] {
      NotEdited(edits[..|edits| - 1], t);
    }
  }

  /** Entries keep their order and place; new types go to the end, each once. */
  lemma {:induction false} ApplyKeepsOrder(conds: seq<Cond>, edits: seq<Edit>)
    requires TypedAll(edits) && WellFormed(conds)
    ensures Types(conds) <= Types(Apply(conds, edits))
    ensures WellFormed(Apply(conds, edits))
  {
    if edits != [] {
      var front, e := edits[..|edits| - 1], edits[|edits| - 1];
      assert TypedAll(front) && Typed(e);
      ApplyKeepsOrder(conds, front);
      var before := Apply(conds, front);
      var c := e.next(Find(before, e.t));
      UpsertTypes(before, c);
      FindIsType(before, e.t);
      TypesWellFormed(before, Upsert(before, c), e.t);
    }
  }

  lemma TypesWellFormed(a: seq<Cond>, b: seq<Cond>, t: string)
    requires WellFormed(a) && t != ""
    requires Types(b) == Types(a) || (t !in Types(a) && Types(b) == Types(a) + [t])
    ensures WellFormed(b)
  {
    var ta, tb := Types(a), Types(b);
    forall i | 0 <= i < |b| ensures TypeOf(b[i]) != "" {
      assert TypeOf(b[i]) == tb[i];
    }
    forall i, j | 0 <= i < j < |b| ensures TypeOf(b[i]) != TypeOf(b[j]) {
      assert TypeOf(b[i]) == tb[i] && TypeOf(b[j]) == tb[j];
      assert tb[i] == ta[i];
      if j < |ta| { assert tb[j] == ta[j]; }
    }
  }

  /** Edits that are satisfied already change nothing. */
  lemma {:induction false} ApplySatisfied(conds: seq<Cond>, edits: seq<Edit>)
    requires TypedAll(edits)
    requires forall i :: 0 <= i < |edits| ==>
               Find(conds, edits[i].t).Some? && edits[i].next(Find(conds, edits[i].t)) == Find(conds, edits[i].t).value
    ensures Apply(conds, edits) == conds
  {
    if edits != [] {
      var front, e := edits[..|edits| - 1], edits[|edits| - 1];
      assert TypedAll(front) && Typed(e);
      ApplySatisfied(conds, front);
      UpsertSame(conds, e.next(Find(conds, e.t)));
    }
  }

  lemma {:induction false} EditForAt(edits: seq<Edit>, i: nat)
    requires TypedAll(edits) && i < |edits|
    ensures EditFor(edits, edits[i].t) == Some(edits[i])
  {
    if i < |edits| - 1 {
      assert edits[i].t != edits[|edits| - 1].t;
      assert TypedAll(edits[..|edits| - 1]);
      EditForAt(edits[..|edits| - 1], i);
    }
  }

  /** Same wishes at a later clock, each content with what the earlier one left. */
  ghost predicate Settles(first: seq<Edit>, again: seq<Edit>) {
    && |first| == |again|
    && forall i :: 0 <= i < |first| ==>
         first[i].t == again[i].t && forall o :: again[i].next(Some(first[i].next(o))) == first[i].next(o)
  }

  /** Merging again changes nothing. */
  lemma ApplyIdempotent(conds: seq<Cond>, first: seq<Edit>, again: seq<Edit>)
    requires TypedAll(first) && TypedAll(again) && Settles(first, again)
    ensures Apply(Apply(conds, first), again) == Apply(conds, first)
  {
    var out := Apply(conds, first);
    forall i | 0 <= i < |again|
      ensures Find(out, again[i].t).Some? && again[i].next(Find(out, again[i].t)) == Find(out, again[i].t).value
    {
      ApplyFind(conds, first, again[i].t);
      EditForAt(first, i);
      assert first[i].t == again[i].t;
    }
    ApplySatisfied(out, again);
  }
}
