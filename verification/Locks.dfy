/** Per-key locks and the threads that take them (pkg/lifecycle/helm_client.go,
    lifecycle_controller.go, cleanup.go, secret_helm_client.go,
    cluster_helm_client.go). */
module Locks {
  import opened Text
  import opened Releases

  // ----- The table of mutexes -----

  class Mutex {
    constructor ()
      ensures fresh(this)
    {
    }
  }

  class ReleaseLocks {
    var m: map<string, Mutex>

    /** Two keys never share a mutex. */
    ghost predicate Valid()
      reads this
    {
      forall j, k :: j in m && k in m && m[j] == m[k] ==> j == k
    }

    constructor ()
      ensures Valid() && m == map[]
    {
      m := map[];
    }

    /** The mutex of a key: made on first use, the same one ever after. */
    method MutexFor(key: string) returns (lk: Mutex)
      requires Valid()
      modifies this
      ensures Valid() && key in m && m[key] == lk && m.Keys == old(m).Keys + {key}
      ensures forall k :: k in old(m) ==> m[k] == old(m)[k]
      ensures key !in old(m) ==> fresh(lk)
    {
      if key in m {
        lk := m[key];
      } else {
        lk := new Mutex();
        assert forall k :: k in m ==> m[k] != lk;
        m := m[key := lk];
      }
    }
  }

  // ----- What each thread locks -----

  /** The claim locks are a table of their own; any number of other tables may be in use. */
  datatype Table = Claims | Shared(id: nat)

  datatype Lock = Lock(table: Table, key: string)

  /** A thread's steps: locking, unlocking, and the work done in between. */
  datatype LockOp = Take(l: Lock) | Give(l: Lock) | Do(call: ClientCall)

  function ConfigKey(ns: string, name: string): string {
    "dpuoperatorconfig/" + ns + "/" + name
  }

  /** What the mutation guard looks at. */
  datatype Config = Config(helmArgs: seq<string>, owner: string, name: string, ns: string, chart: string, version: string)

  predicate GuardRefuses(cfg: Config, chartRoot: string) {
    || |cfg.helmArgs| != 0 || cfg.owner != OWNER
    || cfg.name == "" || cfg.ns == "" || cfg.chart == "" || cfg.version == ""
    || cfg.name == RELEASE_NAME
    || Trim(chartRoot) == ""
  }

  /** A mutation gets past the guard only with no extra arguments, this adapter as
      owner, a complete identity, a chart root, and another name than the live one. */
  lemma GuardIff(cfg: Config, chartRoot: string)
    ensures !GuardRefuses(cfg, chartRoot) <==>
            && cfg.helmArgs == [] && cfg.owner == "opi-nvidia-dpf-adapter" && cfg.name !in {"", "dpf-operator"}
            && cfg.ns != "" && cfg.chart != "" && cfg.version != "" && Trim(chartRoot) != ""
  {
    hide Trim;
  }

  /** A call to the cluster: reading the config object, or using the Helm client. */
  datatype ClientCall = ReadConfig | Get | Mutate(chartRoot: string, table: nat) | Claim

  function Bracket(l: Lock, inner: seq<LockOp>): seq<LockOp> {
    [Take(l)] + inner + [Give(l)]
  }

  /** The guard runs before the mutation lock is taken. */
  function CallOps(cfg: Config, c: ClientCall): seq<LockOp> {
    match c
    case Mutate(root, table) =>
      if GuardRefuses(cfg, root) then [Do(c)] else Bracket(Lock(Shared(table), ReleaseKey(cfg.ns, cfg.name)), [Do(c)])
    case Claim => Bracket(Lock(Claims, ReleaseKey(cfg.ns, cfg.name)), [Do(c)])
    case _ => [Do(c)]
  }

  function CallsOps(cfg: Config, cs: seq<ClientCall>): seq<LockOp> {
    if cs == [] then [] else CallOps(cfg, cs[0]) + CallsOps(cfg, cs[1..])
  }

  /** Ensure, cleanup and claim, with whatever client calls they make; a reconcile
      runs ensure or cleanup, or neither, under its config lock. */
  datatype Task =
    | Guarded(table: nat, calls: seq<ClientCall>)
    | ClaimAlone
    | Reconcile(ns: string, name: string, table: nat, inner: Option<seq<ClientCall>>)

  function GuardedOps(cfg: Config, table: nat, calls: seq<ClientCall>): seq<LockOp> {
    Bracket(Lock(Shared(table), ReleaseKey(cfg.ns, cfg.name)), CallsOps(cfg, calls))
  }

  function Program(cfg: Config, t: Task): seq<LockOp> {
    match t
    case Guarded(table, calls) => GuardedOps(cfg, table, calls)
    case ClaimAlone => CallOps(cfg, Claim)
    case Reconcile(ns, name, table, inner) =>
      Bracket(Lock(Shared(table), ConfigKey(ns, name)),
              [Do(ReadConfig)] + if inner.None? then [] else GuardedOps(cfg, table, inner.value))
  }

  // ----- Lock order -----

  function Level(l: Lock): nat {
    if l.table == Claims then 2 else if l.key == KEY then 1 else 0
  }

  ghost predicate Below(held: set<Lock>, l: Lock) {
    forall h :: h in held ==> Level(h) < Level(l)
  }

  /** The locks held after running `ops`, if each is taken above all held and
      given back only when held. */
  ghost function After(ops: seq<LockOp>, held: set<Lock>): Option<set<Lock>> {
    if ops == [] then Some(held)
    else match ops[0]
      case Take(l) => if Below(held, l) then After(ops[1..], held + {l}) else None
      case Give(l) => if l in held then After(ops[1..], held - {l}) else None
      case Do(_) => After(ops[1..], held)
  }

  lemma {:induction false} AfterAppend(a: seq<LockOp>, b: seq<LockOp>, held: set<Lock>)
    requires After(a, held).Some?
    ensures After(a + b, held) == After(b, After(a, held).value)
    decreases |a|
  {
    if a == [] {
      assert a + b == b;
    } else {
      assert (a + b)[1..] == a[1..] + b;
      match a[0]
      case Take(l) => AfterAppend(a[1..], b, held + {l});
      case Give(l) => AfterAppend(a[1..], b, held - {l});
      case Do(_) => AfterAppend(a[1..], b, held);
    }
  }

  lemma BracketKeeps(l: Lock, inner: seq<LockOp>, held: set<Lock>)
    requires Below(held, l) && After(inner, held + {l}) == Some(held + {l})
    ensures After(Bracket(l, inner), held) == Some(held)
  {
    assert l !in held;
    assert held + {l} - {l} == held;
    assert [Give(l)][1..] == [];
    assert After([Give(l)], held + {l}) == Some(held);
    AfterAppend(inner, [Give(l)], held + {l});
    var ops := Bracket(l, inner);
    assert ops[1..] == inner + [Give(l)];
  }

  ghost predicate Live(cfg: Config) {
    cfg.name == RELEASE_NAME && cfg.ns == NAMESPACE
  }

  lemma ConfigKeyIsNotReleaseKey(ns: string, name: string)
    ensures ConfigKey(ns, name) != KEY
  {
    assert ConfigKey(ns, name)[2] == 'u';
    assert KEY[2] == 'f';
  }

  lemma DoKeeps(c: ClientCall, held: set<Lock>)
    ensures After([Do(c)], held) == Some(held)
  {
    assert [Do(c)][1..] == [];
  }

  /** For the live release the guard refuses before the mutation lock. */
  lemma {:induction false} CallsKeep(cfg: Config, cs: seq<ClientCall>, held: set<Lock>)
    requires Live(cfg) && forall h :: h in held ==> Level(h) < 2
    ensures After(CallsOps(cfg, cs), held) == Some(held)
  {
    if cs != [] {
      CallsKeep(cfg, cs[1..], held);
      assert After(CallOps(cfg, cs[0]), held) == Some(held) by {
        DoKeeps(cs[0], held);
        if cs[0].Claim? {
          var l := Lock(Claims, ReleaseKey(cfg.ns, cfg.name));
          DoKeeps(cs[0], held + {l});
          BracketKeeps(l, [Do(cs[0])], held);
        }
      }
      AfterAppend(CallOps(cfg, cs[0]), CallsOps(cfg, cs[1..]), held);
    }
  }

  lemma GuardedKeeps(cfg: Config, table: nat, calls: seq<ClientCall>, held: set<Lock>)
    requires Live(cfg) && forall h :: h in held ==> Level(h) < 1
    ensures After(GuardedOps(cfg, table, calls), held) == Some(held)
  {
    var l := Lock(Shared(table), ReleaseKey(cfg.ns, cfg.name));
    CallsKeep(cfg, calls, held + {l});
    BracketKeeps(l, CallsOps(cfg, calls), held);
  }

  /** Every task of the live release takes locks in the order config, release, claim. */
  lemma ProgramsAreOrdered(cfg: Config, t: Task)
    requires Live(cfg)
    ensures After(Program(cfg, t), {}) == Some({})
  {
    match t
    case Guarded(table, calls) => GuardedKeeps(cfg, table, calls, {});
    case ClaimAlone =>
      var l := Lock(Claims, ReleaseKey(cfg.ns, cfg.name));
      DoKeeps(Claim, {} + {l});
      BracketKeeps(l, [Do(Claim)], {});
    case Reconcile(ns, name, table, inner) =>
      var l := Lock(Shared(table), ConfigKey(ns, name));
      ConfigKeyIsNotReleaseKey(ns, name);
      assert {} + {l} == {l};
      var ops := if inner.None? then [] else GuardedOps(cfg, table, inner.value);
      if inner.Some? {
        GuardedKeeps(cfg, table, inner.value, {l});
      }
      DoKeeps(ReadConfig, {l});
      AfterAppend([Do(ReadConfig)], ops, {l});
      BracketKeeps(l, [Do(ReadConfig)] + ops, {});
  }

  // ----- Interleavings -----

  /** What a thread has still to do, and the mutexes it is between taking and giving back. */
  datatype Thread = Thread(rest: seq<LockOp>, held: set<Lock>)

  /** `locked` is the state of the mutexes; a mutex does not know who locked it. */
  datatype State = State(threads: seq<Thread>, locked: set<Lock>)

  ghost predicate Enabled(s: State, i: nat) {
    i < |s.threads| && s.threads[i].rest != []
    && (s.threads[i].rest[0].Take? ==> s.threads[i].rest[0].l !in s.locked)
  }

  ghost function Step(s: State, i: nat): State
    requires Enabled(s, i)
  {
    var t := s.threads[i];
    match t.rest[0]
    case Take(l) => State(s.threads[i := Thread(t.rest[1..], t.held + {l})], s.locked + {l})
    case Give(l) => State(s.threads[i := Thread(t.rest[1..], t.held - {l})], s.locked - {l})
    case Do(_) => State(s.threads[i := Thread(t.rest[1..], t.held)], s.locked)
  }

  ghost predicate HeldBy(s: State, l: Lock, i: nat) {
    i < |s.threads| && l in s.threads[i].held
  }

  /** Each thread keeps the lock order, a mutex is locked exactly when some thread
      holds it, and no mutex is held by two threads. */
  ghost predicate Inv(s: State) {
    && (forall i :: 0 <= i < |s.threads| ==> After(s.threads[i].rest, s.threads[i].held) == Some({}))
    && (forall l :: l in s.locked ==> exists i :: HeldBy(s, l, i))
    && (forall l, i :: HeldBy(s, l, i) ==> l in s.locked)
    && (forall l, i, j :: HeldBy(s, l, i) && HeldBy(s, l, j) ==> i == j)
  }

  lemma AfterStep(t: Thread)
    requires t.rest != [] && After(t.rest, t.held) == Some({})
    ensures match t.rest[0]
            case Take(l) => l !in t.held && After(t.rest[1..], t.held + {l}) == Some({})
            case Give(l) => l in t.held && After(t.rest[1..], t.held - {l}) == Some({})
            case Do(_) => After(t.rest[1..], t.held) == Some({})
  {
    if t.rest[0].Take? {
      assert Below(t.held, t.rest[0].l);
    }
  }

  lemma StepHeldBy(s: State, i: nat, l: Lock, j: nat)
    requires Inv(s) && Enabled(s, i)
    ensures HeldBy(Step(s, i), l, j) <==>
            var op := s.threads[i].rest[0];
            if j == i && !op.Do? && l == op.l then op.Take? else HeldBy(s, l, j)
  {
  }

  lemma StepKeeps(s: State, i: nat)
    requires Inv(s) && Enabled(s, i)
    ensures Inv(Step(s, i))
  {
    var s' := Step(s, i);
    var op := s.threads[i].rest[0];
    AfterStep(s.threads[i]);
    hide After;
    forall l, j ensures HeldBy(s', l, j) <==> if j == i && !op.Do? && l == op.l then op.Take? else HeldBy(s, l, j) {
      StepHeldBy(s, i, l, j);
    }
    if op.Give? {
      assert HeldBy(s, op.l, i);
    }
    forall l | l in s'.locked ensures exists j :: HeldBy(s', l, j) {
      if !op.Do? && l == op.l {
        assert HeldBy(s', l, i);
      } else {
        var j :| HeldBy(s, l, j);
        assert HeldBy(s', l, j);
      }
    }
  }

  ghost function Init(cfg: Config, tasks: seq<Task>): State {
    State(seq(|tasks|, i requires 0 <= i < |tasks| => Thread(Program(cfg, tasks[i]), {})), {})
  }

  lemma InitInv(cfg: Config, tasks: seq<Task>)
    requires Live(cfg)
    ensures Inv(Init(cfg, tasks))
  {
    var s := Init(cfg, tasks);
    forall i | 0 <= i < |s.threads| ensures After(s.threads[i].rest, s.threads[i].held) == Some({}) {
      ProgramsAreOrdered(cfg, tasks[i]);
    }
  }

  ghost predicate Schedule(s: State, order: seq<nat>)
    decreases |order|
  {
    order == [] || (Enabled(s, order[0]) && Schedule(Step(s, order[0]), order[1..]))
  }

  ghost function Reached(s: State, order: seq<nat>): State
    requires Schedule(s, order)
    decreases |order|
  {
    if order == [] then s else Reached(Step(s, order[0]), order[1..])
  }

  lemma {:induction false} ScheduleKeeps(s: State, order: seq<nat>)
    requires Inv(s) && Schedule(s, order)
    ensures Inv(Reached(s, order))
    decreases |order|
  {
    hide Inv;
    if order != [] {
      StepKeeps(s, order[0]);
      ScheduleKeeps(Step(s, order[0]), order[1..]);
    }
  }

  /** From a thread with work left, follow who waits for whom to one that can move. */
  lemma SomeoneMoves(s: State, i: nat) returns (k: nat)
    requires Inv(s) && i < |s.threads| && s.threads[i].rest != []
    ensures Enabled(s, k)
    decreases if s.threads[i].rest[0].Take? then 3 - Level(s.threads[i].rest[0].l) else 0
  {
    if Enabled(s, i) {
      k := i;
    } else {
      var l := s.threads[i].rest[0].l;
      var j: nat :| HeldBy(s, l, j);
      var t := s.threads[j];
      assert After(t.rest, t.held) == Some({});
      assert t.rest != [];
      if t.rest[0].Take? {
        assert Below(t.held, t.rest[0].l);
      }
      k := SomeoneMoves(s, j);
    }
  }

  /** Any number of reconcile, ensure, cleanup and claim threads for the live
      release, in any interleaving: no mutex is ever held by two threads, and
      while any thread has work left some thread can move. */
  lemma NoDeadlock(cfg: Config, tasks: seq<Task>, order: seq<nat>)
    requires Live(cfg) && Schedule(Init(cfg, tasks), order)
    ensures var s := Reached(Init(cfg, tasks), order);
            && (forall l, i, j :: HeldBy(s, l, i) && HeldBy(s, l, j) ==> i == j)
            && ((exists i :: 0 <= i < |s.threads| && s.threads[i].rest != []) ==> exists k :: Enabled(s, k))
  {
    InitInv(cfg, tasks);
    ScheduleKeeps(Init(cfg, tasks), order);
    var s := Reached(Init(cfg, tasks), order);
    if i :| 0 <= i < |s.threads| && s.threads[i].rest != [] {
      var k := SomeoneMoves(s, i);
    }
  }

  // ----- The guarded sections exclude each other -----

  /** From here on the thread works only while it holds `l`; reading the config
      object counts where `all` says so. */
  ghost predicate Covered(ops: seq<LockOp>, held: set<Lock>, l: Lock, all: bool) {
    ops == [] ||
    match ops[0]
    case Take(x) => Covered(ops[1..], held + {x}, l, all)
    case Give(x) => Covered(ops[1..], held - {x}, l, all)
    case Do(c) => (all || !c.ReadConfig? ==> l in held) && Covered(ops[1..], held, l, all)
  }

  /** The steps up to the one that gives `l` back keep it, and then there is no work left. */
  lemma {:induction false} CoveredAppend(a: seq<LockOp>, b: seq<LockOp>, held: set<Lock>, l: Lock, all: bool)
    requires After(a, held).Some? && Covered(a, held, l, all) && Covered(b, After(a, held).value, l, all)
    ensures Covered(a + b, held, l, all)
    decreases |a|
  {
    if a == [] {
      assert a + b == b;
    } else {
      assert (a + b)[1..] == a[1..] + b;
      match a[0]
      case Take(x) => CoveredAppend(a[1..], b, held + {x}, l, all);
      case Give(x) => CoveredAppend(a[1..], b, held - {x}, l, all);
      case Do(_) => CoveredAppend(a[1..], b, held, l, all);
    }
  }

  lemma BracketCovered(x: Lock, inner: seq<LockOp>, held: set<Lock>, l: Lock, all: bool)
    requires After(inner, held + {x}).Some? && Covered(inner, held + {x}, l, all)
    ensures Covered(Bracket(x, inner), held, l, all)
  {
    assert [Give(x)][1..] == [];
    CoveredAppend(inner, [Give(x)], held + {x}, l, all);
    assert Bracket(x, inner)[1..] == inner + [Give(x)];
  }

  lemma DoCovered(c: ClientCall, held: set<Lock>, l: Lock, all: bool)
    requires all || !c.ReadConfig? ==> l in held
    ensures Covered([Do(c)], held, l, all)
  {
    assert [Do(c)][1..] == [];
  }

  lemma {:induction false} CallsCovered(cfg: Config, cs: seq<ClientCall>, held: set<Lock>, l: Lock, all: bool)
    requires Live(cfg) && l in held && forall h :: h in held ==> Level(h) < 2
    ensures Covered(CallsOps(cfg, cs), held, l, all)
  {
    if cs != [] {
      var c, rest := cs[0], cs[1..];
      CallsCovered(cfg, rest, held, l, all);
      DoCovered(c, held, l, all);
      if c.Claim? {
        var x := Lock(Claims, ReleaseKey(cfg.ns, cfg.name));
        DoCovered(c, held + {x}, l, all);
        DoKeeps(c, held + {x});
        BracketCovered(x, [Do(c)], held, l, all);
      }
      CallsKeep(cfg, [c], held);
      assert CallsOps(cfg, [c]) == CallOps(cfg, c) by {
        assert [c][1..] == [];
      }
      CoveredAppend(CallOps(cfg, c), CallsOps(cfg, rest), held, l, all);
    }
  }

  lemma GuardedCovered(cfg: Config, table: nat, calls: seq<ClientCall>, held: set<Lock>, l: Lock, all: bool)
    requires Live(cfg) && forall h :: h in held ==> Level(h) < 1
    requires l == Lock(Shared(table), KEY) || l in held
    ensures Covered(GuardedOps(cfg, table, calls), held, l, all)
  {
    var x := Lock(Shared(table), ReleaseKey(cfg.ns, cfg.name));
    CallsCovered(cfg, calls, held + {x}, l, all);
    CallsKeep(cfg, calls, held + {x});
    BracketCovered(x, CallsOps(cfg, calls), held, l, all);
  }

  /** The lock every use of the Helm client by the task is made under, and for a
      reconcile the lock all its work is done under. */
  ghost predicate Guards(t: Task, l: Lock, all: bool) {
    match t
    case Guarded(table, _) => l == Lock(Shared(table), "dpf-operator-system/dpf-operator")
    case ClaimAlone => l == Lock(Claims, "dpf-operator-system/dpf-operator")
    case Reconcile(ns, name, table, _) =>
      if all then l == Lock(Shared(table), "dpuoperatorconfig/" + ns + "/" + name)
      else l == Lock(Shared(table), "dpf-operator-system/dpf-operator")
  }

  lemma ProgramCovered(cfg: Config, t: Task, l: Lock, all: bool)
    requires Live(cfg) && Guards(t, l, all)
    ensures Covered(Program(cfg, t), {}, l, all)
  {
    assert ReleaseKey(cfg.ns, cfg.name) == "dpf-operator-system/dpf-operator";
    match t
    case Guarded(table, calls) => GuardedCovered(cfg, table, calls, {}, l, all);
    case ClaimAlone =>
      DoCovered(Claim, {} + {l}, l, all);
      DoKeeps(Claim, {} + {l});
      BracketCovered(l, [Do(Claim)], {}, l, all);
    case Reconcile(ns, name, table, inner) =>
      var x := Lock(Shared(table), ConfigKey(ns, name));
      ConfigKeyIsNotReleaseKey(ns, name);
      assert {} + {x} == {x};
      var ops := if inner.None? then [] else GuardedOps(cfg, table, inner.value);
      if inner.Some? {
        GuardedCovered(cfg, table, inner.value, {x}, l, all);
        GuardedKeeps(cfg, table, inner.value, {x});
      }
      DoCovered(ReadConfig, {x}, l, all);
      DoKeeps(ReadConfig, {x});
      CoveredAppend([Do(ReadConfig)], ops, {x}, l, all);
      AfterAppend([Do(ReadConfig)], ops, {x});
      BracketCovered(x, [Do(ReadConfig)] + ops, {}, l, all);
  }

  lemma {:induction false} CoverKept(s: State, order: seq<nat>, i: nat, l: Lock, all: bool)
    requires Schedule(s, order) && i < |s.threads| && Covered(s.threads[i].rest, s.threads[i].held, l, all)
    ensures var t := Reached(s, order).threads; |t| == |s.threads| && Covered(t[i].rest, t[i].held, l, all)
    decreases |order|
  {
    if order != [] {
      CoverKept(Step(s, order[0]), order[1..], i, l, all);
    }
  }

  /** The thread is at a step of work that `all` counts. */
  ghost predicate Working(t: Thread, all: bool) {
    t.rest != [] && t.rest[0].Do? && (all || !t.rest[0].call.ReadConfig?)
  }

  /** In every interleaving: two threads that guard with the same release lock never
      both use the Helm client, and two reconciles of one config never both work. */
  lemma SectionsExclude(cfg: Config, tasks: seq<Task>, order: seq<nat>, i: nat, j: nat, l: Lock, all: bool)
    requires Live(cfg) && Schedule(Init(cfg, tasks), order) && i < |tasks| && j < |tasks| && i != j
    requires Guards(tasks[i], l, all) && Guards(tasks[j], l, all)
    ensures var t := Reached(Init(cfg, tasks), order).threads;
            |t| == |tasks| && !(Working(t[i], all) && Working(t[j], all))
  {
    hide Program, Guards;
    var s0 := Init(cfg, tasks);
    NoDeadlock(cfg, tasks, order);
    ProgramCovered(cfg, tasks[i], l, all);
    ProgramCovered(cfg, tasks[j], l, all);
    CoverKept(s0, order, i, l, all);
    CoverKept(s0, order, j, l, all);
    hide Reached, Init;
    var s := Reached(s0, order);
    assert Working(s.threads[i], all) ==> HeldBy(s, l, i);
    assert Working(s.threads[j], all) ==> HeldBy(s, l, j);
  }

  ghost function Remaining(ts: seq<Thread>): nat {
    if ts == [] then 0 else |ts[0].rest| + Remaining(ts[1..])
  }

  lemma {:induction false} RemainingUpdate(ts: seq<Thread>, i: nat, t: Thread)
    requires i < |ts|
    ensures Remaining(ts[i := t]) == Remaining(ts) - |ts[i].rest| + |t.rest|
  {
    if i == 0 {
      assert ts[i := t][1..] == ts[1..];
    } else {
      assert ts[i := t][1..] == ts[1..][i - 1 := t];
      RemainingUpdate(ts[1..], i - 1, t);
    }
  }

  /** No schedule is longer than the threads' programs together, so every
      interleaving that keeps moving ends with every thread finished. */
  lemma {:induction false} SchedulesEnd(s: State, order: seq<nat>)
    requires Schedule(s, order)
    ensures |order| + Remaining(Reached(s, order).threads) == Remaining(s.threads)
    decreases |order|
  {
    if order != [] {
      var s' := Step(s, order[0]);
      var t := s.threads[order[0]];
      RemainingUpdate(s.threads, order[0], s'.threads[order[0]]);
      assert s'.threads == s.threads[order[0] := s'.threads[order[0]]];
      SchedulesEnd(s', order[1..]);
    }
  }

  /** Why the guard comes first: a mutation lock taken on the key whose lock the
      caller already holds stops that thread for good. */
  lemma NestedMutationLockSticks(table: nat, rest: seq<LockOp>)
    ensures var l := Lock(Shared(table), KEY);
            var s := State([Thread([Take(l), Take(l)] + rest, {})], {});
            Schedule(s, [0]) && forall k :: !Enabled(Reached(s, [0]), k)
  {
    var l := Lock(Shared(table), KEY);
    var s := State([Thread([Take(l), Take(l)] + rest, {})], {});
    var s1 := Step(s, 0);
    assert s1.threads[0].rest[0] == Take(l) && l in s1.locked && |s1.threads| == 1;
    assert [0][1..] == [] && Reached(s1, []) == s1;
    assert Reached(s, [0]) == s1;
    forall k: nat ensures !Enabled(s1, k) {
    }
  }
}
