/** The guarded cleanup as a machine of single calls: the environment may change
    the release and the references between any two, any call may fail, the process
    may die anywhere, and cleanups follow one another (pkg/lifecycle/cleanup.go). */
module CleanupMachine {
  import opened Text
  import opened Releases
  import opened CleanupPlan
  import opened CleanupRun

  /** What a cleanup has read so far. */
  datatype Seen = Seen(s: Settings, first: Release, refs: Refs)

  datatype Stage =
    | Idle
    | ReadingFirst(s: Settings)
    | Listing(s: Settings, first: Release)
    | ReadingSecond(seen: Seen)
    | Uninstalling(seen: Seen, second: Release)
    | Looking(seen: Seen)
    | Deleting(seen: Seen, live: Refs, looked: bool, todo: seq<ObjectRef>)

  /** Every mutation, with what the cleanup had read and what it hit. */
  datatype Act =
    | Removed(seen: Seen, second: Release, at: Release)
    | DeleteIssued(seen: Seen, live: Refs, looked: bool, obj: ObjectRef)

  datatype State = State(rel: Option<Release>, refs: Refs, stage: Stage, acts: seq<Act>)

  /** `Call` is the cleanup's next call; `ok` says whether it goes through. */
  datatype Event = Environment(rel: Option<Release>, refs: Refs) | Begin(s: Settings) | Call(ok: bool) | Crash

  const NOTHING := Refs(0, [], [], 0)

  function PlanFor(seen: Seen): Plan {
    PlanOf(seen.s, seen.first, seen.refs)
  }

  function Next(st: State, e: Event): State {
    match e
    case Environment(rel, refs) => st.(rel := rel, refs := refs)
    case Begin(s) => if st.stage.Idle? then st.(stage := ReadingFirst(s)) else st
    case Crash => st.(stage := Idle)
    case Call(ok) =>
      match st.stage
      case Idle => st
      case ReadingFirst(s) => if ok && st.rel.Some? then st.(stage := Listing(s, st.rel.value)) else st.(stage := Idle)
      case Listing(s, first) =>
        var seen := Seen(s, first, st.refs);
        if ok && PlanFor(seen).deleteRelease then st.(stage := ReadingSecond(seen)) else st.(stage := Idle)
      case ReadingSecond(seen) =>
        if ok && st.rel.Some? && Classify(st.rel.value) == PlanFor(seen).ownership && AllowsDelete(Classify(st.rel.value))
        then st.(stage := Uninstalling(seen, st.rel.value)) else st.(stage := Idle)
      case Uninstalling(seen, second) =>
        if ok && st.rel.Some? && AllowsDelete(Classify(st.rel.value))
        then State(None, st.refs, Looking(seen), st.acts + [Removed(seen, second, st.rel.value)])
        else st.(stage := Idle)
      case Looking(seen) =>
        var live := if ok then st.refs else NOTHING;
        st.(stage := Deleting(seen, live, ok, Calls(PlanFor(seen).deletes, live)))
      case Deleting(seen, live, looked, todo) =>
        if todo == [] then st.(stage := Idle)
        else
          var refs := if ok then st.refs.(dataplane := Without(st.refs.dataplane, Key(todo[0]))) else st.refs;
          State(st.rel, refs, Deleting(seen, live, looked, todo[1..]), st.acts + [DeleteIssued(seen, live, looked, todo[0])])
  }

  function Without(ds: seq<ObjectRef>, key: string): seq<ObjectRef> {
    if ds == [] then []
    else (if Key(ds[0]) == key then [] else [ds[0]]) + Without(ds[1..], key)
  }

  // ----- What every mutation rests on -----

  /** A class the adapter owns, under a policy that lets it go. */
  ghost predicate MayGo(s: Settings, first: Release) {
    AllowsDelete(Classify(first)) && PolicyFor(Classify(first), Removal(s), Adoption(s)) == DeleteOwned
  }

  ghost predicate Doomed(seen: Seen, live: Refs, looked: bool, d: ObjectRef) {
    && d in seen.refs.dataplane && d.ns == seen.first.ns && d.owner in {"", "opi-nvidia-dpf-adapter"}
    && !d.referenced && !OpiNames(seen.refs.opi, d.name, d.ns) && (looked ==> Unreferenced(d, live))
  }

  ghost predicate Justified(a: Act) {
    match a
    case Removed(seen, second, at) =>
      && MayGo(seen.s, seen.first)
      && Classify(second) == Classify(seen.first)
      && AllowsDelete(Classify(at))
    case DeleteIssued(seen, live, looked, d) => MayGo(seen.s, seen.first) && Doomed(seen, live, looked, d)
  }

  ghost predicate StageOK(stage: Stage) {
    match stage
    case ReadingSecond(seen) => MayGo(seen.s, seen.first)
    case Uninstalling(seen, second) => MayGo(seen.s, seen.first) && Classify(second) == Classify(seen.first)
    case Looking(seen) => MayGo(seen.s, seen.first)
    case Deleting(seen, live, looked, todo) =>
      MayGo(seen.s, seen.first) && forall d :: d in todo ==> Doomed(seen, live, looked, d)
    case _ => true
  }

  ghost predicate Inv(st: State) {
    StageOK(st.stage) && forall a :: a in st.acts ==> Justified(a)
  }

  /** From the raw labels and annotations: a named release of this adapter with a
      well-formed mode and no other storage owner goes exactly when the removal
      policy, or for a release not marked installed the adoption policy, is the word
      delete-owned. */
  lemma MayGoIff(s: Settings, rel: Release)
    ensures MayGo(s, rel) <==>
            var mode := Trim(rel.labels.mode);
            && rel.name != "" && Trim(rel.labels.owner) == "opi-nvidia-dpf-adapter" && OneWord(mode)
            && Trim(rel.labels.storage) in {"", "helm", "opi-nvidia-dpf-adapter"}
            && Lower(Trim(if mode == "installed" then s.removal else s.adoption)) == "delete-owned"
  {
    hide Classify, ParsePolicy, Lower, Trim, OneWord;
    DeletableIff(rel);
    OwnershipIff(rel);
    NoteIff(s.removal);
    NoteIff(s.adoption);
  }

  lemma PlanDeletesIff(seen: Seen)
    ensures PlanFor(seen).deleteRelease <==> MayGo(seen.s, seen.first)
    ensures MayGo(seen.s, seen.first) ==>
              && PlanFor(seen).ownership == Classify(seen.first)
              && PlanFor(seen).deletes == Selected(seen.refs.dataplane, seen.first.ns, seen.refs.opi)
  {
    NamelessIsInvalid(seen.first);
    hide Classify, ParsePolicy, Selected, Kept, CrdsGo;
  }

  lemma CallsAreDoomed(seen: Seen, live: Refs, looked: bool, d: ObjectRef)
    requires MayGo(seen.s, seen.first) && d in Calls(PlanFor(seen).deletes, live)
    ensures Doomed(seen, live, looked, d)
  {
    PlanDeletesIff(seen);
    hide PlanFor, MayGo, StillProtected, Unreferenced, OpiNames, Protection, Selected, Calls;
    CallsIff(PlanFor(seen).deletes, live, d);
    SelectedIff(seen.refs.dataplane, seen.first.ns, seen.refs.opi, d);
    ReasonIff(d, seen.first.ns, seen.refs.opi);
    SomeReason(d, seen.first.ns, seen.refs.opi);
    ProtectedIff(d, live);
  }

  lemma NextKeeps(st: State, e: Event)
    requires Inv(st)
    ensures Inv(Next(st, e))
  {
    if e.Call? {
      CallKeeps(st, e.ok);
    }
  }

  lemma CallKeeps(st: State, ok: bool)
    requires Inv(st)
    ensures Inv(Next(st, Call(ok)))
  {
    hide Classify, PlanFor, MayGo, Doomed;
    match st.stage
    case Listing(s, first) => PlanDeletesIff(Seen(s, first, st.refs));
    case ReadingSecond(seen) => PlanDeletesIff(seen);
    case Looking(seen) =>
      var live := if ok then st.refs else NOTHING;
      forall d | d in Calls(PlanFor(seen).deletes, live) ensures Doomed(seen, live, ok, d) {
        CallsAreDoomed(seen, live, ok, d);
      }
    case Deleting(seen, live, looked, todo) =>
      if todo != [] {
        assert todo[0] in todo;
        assert forall d :: d in todo[1..] ==> d in todo;
      }
    case _ =>
  }

  // ----- Runs -----

  ghost function Run(st: State, es: seq<Event>): State
    decreases |es|
  {
    if es == [] then st else Run(Next(st, es[0]), es[1..])
  }

  lemma {:induction false} RunKeeps(st: State, es: seq<Event>)
    requires Inv(st)
    ensures Inv(Run(st, es))
    decreases |es|
  {
    hide Next, Inv;
    if es != [] {
      NextKeeps(st, es[0]);
      RunKeeps(Next(st, es[0]), es[1..]);
    }
  }

  /** Over every run of cleanups, failures, crashes and outside changes: a release
      was removed only when adapter-owned at that instant, of the class it was
      planned as at the second read, and under a delete-owned policy for that class;
      an object was deleted only after such a plan, from the release's namespace,
      not another's, unreferenced at the first lookup, and at the second when that
      lookup succeeded. */
  lemma EveryMutationJustified(rel: Option<Release>, refs: Refs, es: seq<Event>, a: Act)
    requires a in Run(State(rel, refs, Idle, []), es).acts
    ensures Justified(a)
  {
    RunKeeps(State(rel, refs, Idle, []), es);
  }

  /** The cleanup changes the stored release only by a removal it records, at
      exactly the release that was stored; objects leave the index only by a delete
      it records, and then those with the key of the object it names. */
  lemma MutationsAreRecorded(st: State, e: Event)
    requires !e.Environment?
    ensures var n := Next(st, e);
            || (n.rel == st.rel && n.acts == st.acts && n.refs == st.refs)
            || (st.rel.Some? && n.rel == None && n.refs == st.refs && st.stage.Uninstalling?
                && n.acts == st.acts + [Removed(st.stage.seen, st.stage.second, st.rel.value)])
            || (n.rel == st.rel && st.stage.Deleting? && st.stage.todo != []
                && (n.refs == st.refs || n.refs == st.refs.(dataplane := Without(st.refs.dataplane, Key(st.stage.todo[0]))))
                && n.acts == st.acts + [DeleteIssued(st.stage.seen, st.stage.live, st.stage.looked, st.stage.todo[0])])
  {
    hide Classify, PlanFor, Calls;
  }

  /** None of these settings lets the release go: it is external or invalid, or the
      policy for its class retains it. */
  ghost predicate Spared(ss: set<Settings>, rel: Option<Release>) {
    rel.Some? ==> forall s :: s in ss ==> !MayGo(s, rel.value)
  }

  ghost predicate Harmless(ss: set<Settings>, st: State) {
    && Spared(ss, st.rel)
    && match st.stage
       case Idle => true
       case ReadingFirst(s) => s in ss
       case Listing(s, first) => s in ss && Spared(ss, Some(first))
       case _ => false
  }

  /** However often the environment swaps the release and cleanups are started: while
      no started cleanup may let any of the releases go, nothing is mutated at all. */
  lemma {:induction false} NotOursNoMutation(ss: set<Settings>, st: State, es: seq<Event>)
    requires Harmless(ss, st)
    requires forall e :: e in es && e.Environment? ==> Spared(ss, e.rel)
    requires forall e :: e in es && e.Begin? ==> e.s in ss
    ensures Run(st, es).acts == st.acts
    decreases |es|
  {
    if es != [] {
      assert es[0] in es;
      HarmlessStep(ss, st, es[0]);
      hide Next;
      NotOursNoMutation(ss, Next(st, es[0]), es[1..]);
    }
  }

  lemma HarmlessStep(ss: set<Settings>, st: State, e: Event)
    requires Harmless(ss, st) && (e.Environment? ==> Spared(ss, e.rel)) && (e.Begin? ==> e.s in ss)
    ensures Harmless(ss, Next(st, e)) && Next(st, e).acts == st.acts
  {
    if st.stage.Listing? {
      PlanDeletesIff(Seen(st.stage.s, st.stage.first, st.refs));
    }
    hide MayGo, PlanFor, Classify, Calls;
  }

  // ----- An uninterrupted cleanup -----

  /** The worlds at the four instants before the deletes, each set just before its call. */
  ghost function Uninterrupted(s: Settings, first: Option<Release>, refs: Refs, second: Option<Release>, at: Option<Release>, fails: bool): seq<Event> {
    [Begin(s), Environment(first, refs), Call(true), Call(true), Environment(second, refs), Call(true), Environment(at, refs), Call(!fails)]
  }

  /** Without a failed call or a crash the machine removes the release exactly where
      the procedure does, and it is the release stored at that instant. */
  lemma MachineRemovesIff(s: Settings, first: Option<Release>, refs: Refs, second: Option<Release>, at: Option<Release>, fails: bool)
    ensures var st := Run(State(None, refs, Idle, []), Uninterrupted(s, first, refs, second, at, fails));
            var out := Cleanup(Env(Shown(first), Some(refs), Shown(second), at, fails, refs, {}), s);
            && (out.removed.Some? <==> st.acts != [])
            && (out.removed.Some? ==>
                  st.acts == [Removed(Seen(s, first.value, refs), second.value, out.removed.value)] && st.rel == None
                  && st.stage == Looking(Seen(s, first.value, refs)))
  {
    var es := Uninterrupted(s, first, refs, second, at, fails);
    var st0 := State(None, refs, Idle, []);
    RunOfEight(st0, es);
    var s4 := Planned(s, first, refs);
    var s6 := Reread(s4, s, first, refs, second);
    RemovedIff(Env(Shown(first), Some(refs), Shown(second), at, fails, refs, {}), s);
    hide Classify, Cleanup, Run, PolicyFor, Removal, Adoption;
  }

  /** After the first read and the listing. */
  lemma Planned(s: Settings, first: Option<Release>, refs: Refs) returns (st: State)
    ensures st == Next(Next(Next(Next(State(None, refs, Idle, []), Begin(s)), Environment(first, refs)), Call(true)), Call(true))
    ensures st.rel == first && st.refs == refs && st.acts == []
    ensures st.stage == if first.Some? && MayGo(s, first.value) then ReadingSecond(Seen(s, first.value, refs)) else Idle
  {
    st := Next(Next(Next(Next(State(None, refs, Idle, []), Begin(s)), Environment(first, refs)), Call(true)), Call(true));
    if first.Some? {
      PlanDeletesIff(Seen(s, first.value, refs));
    }
    hide MayGo, PlanFor;
  }

  /** After the second read. */
  lemma Reread(st: State, s: Settings, first: Option<Release>, refs: Refs, second: Option<Release>) returns (st': State)
    requires st.rel == first && st.refs == refs && st.acts == []
    requires st.stage == if first.Some? && MayGo(s, first.value) then ReadingSecond(Seen(s, first.value, refs)) else Idle
    ensures st' == Next(Next(st, Environment(second, refs)), Call(true))
    ensures st'.rel == second && st'.refs == refs && st'.acts == []
    ensures st'.stage ==
            if first.Some? && MayGo(s, first.value) && second.Some? && Classify(second.value) == Classify(first.value)
            then Uninstalling(Seen(s, first.value, refs), second.value) else Idle
  {
    st' := Next(Next(st, Environment(second, refs)), Call(true));
    if first.Some? {
      PlanDeletesIff(Seen(s, first.value, refs));
      assert MayGo(s, first.value) ==> AllowsDelete(Classify(first.value));
    }
    hide MayGo, PlanFor, Classify;
  }

  function Shown(r: Option<Release>): Look {
    if r.Some? then Got(r.value) else Missing
  }

  lemma RunOfEight(st: State, es: seq<Event>)
    requires |es| == 8
    ensures Run(st, es) == Next(Next(Next(Next(Next(Next(Next(Next(st, es[0]), es[1]), es[2]), es[3]), es[4]), es[5]), es[6]), es[7])
  {
    hide Next;
    RunTail(st, es, 0);
    var s1 := Next(st, es[0]);
    var s2 := Next(s1, es[1]);
    var s3 := Next(s2, es[2]);
    var s4 := Next(s3, es[3]);
    var s5 := Next(s4, es[4]);
    var s6 := Next(s5, es[5]);
    var s7 := Next(s6, es[6]);
    RunTail(s1, es, 1);
    RunTail(s2, es, 2);
    RunTail(s3, es, 3);
    RunTail(s4, es, 4);
    RunTail(s5, es, 5);
    RunTail(s6, es, 6);
    RunTail(s7, es, 7);
    assert es[0..] == es && es[8..] == [];
  }

  lemma RunTail(st: State, es: seq<Event>, i: nat)
    requires i < |es|
    ensures Run(st, es[i..]) == Run(Next(st, es[i]), es[i + 1..])
  {
    hide Next;
    assert es[i..][1..] == es[i + 1..] && es[i..][0] == es[i];
  }
}
