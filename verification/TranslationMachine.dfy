/** The translation reconcile as a machine of single API calls: any worker may
    crash between two calls, and users edit and delete sources at any time. */
module TranslationMachine {
  import opened Text
  import opened Translation

  /** A stored source: `fin` is this controller's cleanup finalizer, `otherFin`
      any other one. */
  datatype Stored = Stored(uid: string, rv: nat, deleting: bool, fin: bool, otherFin: bool)

  /** Where the worker of one source stands; the payload is what it has read. */
  datatype Worker =
    | Idle
    | AddingFinalizer(rv: nat)
    | Emitting(uid: string)
    | Applying(uid: string, todo: seq<ChildId>, all: seq<ChildId>)
    | Pruning(todo: seq<ChildId>)
    | Listing(rv: nat)
    | Deleting(rv: nat, todo: seq<ChildId>)

  datatype State = State(sources: map<SourceKey, Stored>, children: Store, workers: map<SourceKey, Worker>, clock: nat)

  datatype Event =
    | Read(k: SourceKey)
    | WriteFinalizer(k: SourceKey)
    | Emit(k: SourceKey, ids: seq<ChildId>)
    | ApplyNext(k: SourceKey)
    | ListStale(k: SourceKey, stale: seq<ChildId>)
    | PruneNext(k: SourceKey)
    | ListForDelete(k: SourceKey, tracked: seq<ChildId>)
    | DeleteNext(k: SourceKey)
    | DropFinalizer(k: SourceKey)
    | Fail(k: SourceKey)
    | Crash
    | UserCreate(k: SourceKey, uid: string, fin: bool, otherFin: bool)
    | UserEdit(k: SourceKey, otherFin: bool)
    | UserDelete(k: SourceKey)
    | ChildDeleted(id: ChildId)
    | ChildFinalizer(id: ChildId, held: bool)

  function WorkerOf(s: State, k: SourceKey): Worker {
    if k in s.workers then s.workers[k] else Idle
  }

  function Go(s: State, k: SourceKey, w: Worker): State {
    s.(workers := s.workers[k := w])
  }

  /** Any accepted write gets a resource version nobody has seen. */
  function Put(s: State, k: SourceKey, src: Stored): State {
    s.(sources := s.sources[k := src.(rv := s.clock)], clock := s.clock + 1)
  }

  /** An object being deleted disappears with its last finalizer. */
  function PutOrRemove(s: State, k: SourceKey, src: Stored): State {
    if src.deleting && !src.fin && !src.otherFin then s.(sources := s.sources - {k}) else Put(s, k, src)
  }

  /** A vendor controller sets or clears the child's own finalizer: none can be
      added to a terminating object, and clearing the last one removes it. */
  function SetHeld(store: Store, id: ChildId, held: bool): Store {
    if id !in store || (store[id].terminating && held) then store
    else if store[id].terminating then store - {id}
    else store[id := store[id].(held := held)]
  }

  function Next(spec: Spec, s: State, e: Event): State {
    match e
    case Read(k) =>
      if !WorkerOf(s, k).Idle? || k !in s.sources then s
      else
        var src := s.sources[k];
        if src.deleting then (if src.fin then Go(s, k, Listing(src.rv)) else s)
        else if !src.fin then Go(s, k, AddingFinalizer(src.rv))
        else Go(s, k, Emitting(src.uid))
    case WriteFinalizer(k) =>
      var w := WorkerOf(s, k);
      if !w.AddingFinalizer? then s
      else if k in s.sources && s.sources[k].rv == w.rv then
        Go(Put(s, k, s.sources[k].(fin := true)), k, Emitting(s.sources[k].uid))
      else Go(s, k, Idle)
    case Emit(k, ids) =>
      var w := WorkerOf(s, k);
      if w.Emitting? then Go(s, k, Applying(w.uid, ids, ids)) else s
    case ApplyNext(k) =>
      var w := WorkerOf(s, k);
      if !w.Applying? || w.todo == [] then s
      else
        var s' := s.(children := ApplyOne(s.children, spec, Source(k, w.uid), w.todo[0]));
        Go(s', k, Applying(w.uid, w.todo[1..], w.all))
    case ListStale(k, stale) =>
      var w := WorkerOf(s, k);
      if w.Applying? && w.todo == [] then Go(s, k, Pruning(stale)) else s
    case PruneNext(k) =>
      var w := WorkerOf(s, k);
      if !w.Pruning? then s
      else if w.todo == [] then Go(s, k, Idle)
      else Go(s.(children := DeleteOne(s.children, w.todo[0])), k, Pruning(w.todo[1..]))
    case ListForDelete(k, tracked) =>
      var w := WorkerOf(s, k);
      if w.Listing? then Go(s, k, Deleting(w.rv, tracked)) else s
    case DeleteNext(k) =>
      var w := WorkerOf(s, k);
      if !w.Deleting? || w.todo == [] then s
      else Go(s.(children := DeleteOne(s.children, w.todo[0])), k, Deleting(w.rv, w.todo[1..]))
    case DropFinalizer(k) =>
      var w := WorkerOf(s, k);
      if !w.Deleting? || w.todo != [] then s
      else if k in s.sources && s.sources[k].rv == w.rv then
        Go(PutOrRemove(s, k, s.sources[k].(fin := false)), k, Idle)
      else Go(s, k, Idle)
    case Fail(k) => Go(s, k, Idle)
    case Crash => s.(workers := map[])
    case UserCreate(k, uid, fin, otherFin) =>
      if k in s.sources then s else Put(s, k, Stored(uid, 0, false, fin, otherFin))
    case UserEdit(k, otherFin) =>
      if k in s.sources then PutOrRemove(s, k, s.sources[k].(otherFin := otherFin)) else s
    case UserDelete(k) =>
      if k in s.sources then PutOrRemove(s, k, s.sources[k].(deleting := true)) else s
    case ChildDeleted(id) => s.(children := DeleteOne(s.children, id))
    case ChildFinalizer(id, held) => s.(children := SetHeld(s.children, id, held))
  }

  /** The source that emits an object of this identity; sources do not share them. */
  type Home = ChildId -> SourceKey

  /** A lasting child tracked by the annotation of k. */
  ghost predicate Tracked(spec: Spec, s: State, id: ChildId, k: SourceKey) {
    id in s.children && !s.children[id].terminating && s.children[id].source == Some(AnnSource(spec.kind, k))
  }

  ghost predicate KeyOK(e: Event) {
    match e
    case Crash => true
    case ChildDeleted(_) => true
    case ChildFinalizer(_, _) => true
    case _ => ValidKey(e.k)
  }

  /** What a listing returns is what is labelled for the source and passes the filter
      of the caller; emitted objects are this source's own and of an emitted kind. */
  ghost predicate Possible(spec: Spec, home: Home, s: State, e: Event) {
    KeyOK(e) &&
    match e
    case Emit(k, ids) => forall id :: id in ids ==> home(id) == k && id.kind in spec.targets
    case ListStale(k, stale) => StaleListing(spec, s, k, stale)
    case ListForDelete(k, tracked) => TrackedListing(spec, s, k, tracked)
    case _ => true
  }

  ghost predicate StaleListing(spec: Spec, s: State, k: SourceKey, stale: seq<ChildId>) {
    var w := WorkerOf(s, k);
    w.Applying? ==>
      forall id :: id in stale <==>
        && id in s.children && Listed(id, s.children[id], spec, Source(k, w.uid))
        && OwnedBySource(s.children[id], spec, Source(k, w.uid)) && id !in w.all
  }

  ghost predicate TrackedListing(spec: Spec, s: State, k: SourceKey, tracked: seq<ChildId>) {
    forall id :: id in tracked <==>
      && id in s.children && Listed(id, s.children[id], spec, Source(k, ""))
      && s.children[id].source == Some(AnnSource(spec.kind, k))
  }

  /** The cleanup finalizer is in place. */
  ghost predicate Guarded(s: State, k: SourceKey) {
    k in s.sources && s.sources[k].fin
  }

  ghost predicate ChildOK(spec: Spec, home: Home, s: State, id: ChildId, k: SourceKey) {
    Tracked(spec, s, id, k) ==>
      Guarded(s, k) && home(id) == k && Listed(id, s.children[id], spec, Source(k, ""))
  }

  ghost predicate WorkerOK(spec: Spec, home: Home, s: State, k: SourceKey) {
    match WorkerOf(s, k)
    case Emitting(_) => Guarded(s, k)
    case Applying(_, todo, _) =>
      Guarded(s, k) && forall id :: id in todo ==> home(id) == k && id.kind in spec.targets
    case Deleting(_, todo) => forall id :: Tracked(spec, s, id, k) ==> id in todo
    case _ => true
  }

  /** What terminates is held by a finalizer of its own. */
  ghost predicate HeldOK(s: State) {
    forall id :: id in s.children && s.children[id].terminating ==> s.children[id].held
  }

  ghost predicate Inv(spec: Spec, home: Home, s: State) {
    && HeldOK(s)
    && (forall k, id :: ValidKey(k) ==> ChildOK(spec, home, s, id, k))
    && (forall k :: ValidKey(k) ==> WorkerOK(spec, home, s, k))
  }

  // ----- What each kind of write keeps -----

  lemma GoKeeps(spec: Spec, home: Home, s: State, k: SourceKey, w: Worker)
    requires Inv(spec, home, s) && WorkerOK(spec, home, Go(s, k, w), k)
    ensures Inv(spec, home, Go(s, k, w))
  {
    var s' := Go(s, k, w);
    forall k', id | ValidKey(k') ensures ChildOK(spec, home, s', id, k') {
      assert ChildOK(spec, home, s, id, k');
      assert Tracked(spec, s', id, k') == Tracked(spec, s, id, k');
    }
    forall k' | ValidKey(k') ensures WorkerOK(spec, home, s', k') {
      if k' != k {
        assert WorkerOK(spec, home, s, k');
        assert forall id :: Tracked(spec, s', id, k') == Tracked(spec, s, id, k');
      }
    }
  }

  lemma DeleteKeeps(spec: Spec, home: Home, s: State, id: ChildId)
    requires Inv(spec, home, s)
    ensures Inv(spec, home, s.(children := DeleteOne(s.children, id)))
    ensures forall k, c :: Tracked(spec, s.(children := DeleteOne(s.children, id)), c, k) ==>
              c != id && Tracked(spec, s, c, k)
  {
    var s' := s.(children := DeleteOne(s.children, id));
    forall k, c | Tracked(spec, s', c, k) ensures c != id && Tracked(spec, s, c, k) {
    }
    forall k, c | ValidKey(k) ensures ChildOK(spec, home, s', c, k) {
      assert ChildOK(spec, home, s, c, k);
    }
    forall k | ValidKey(k) ensures WorkerOK(spec, home, s', k) {
      assert WorkerOK(spec, home, s, k);
    }
  }

  /** A source may be rewritten as long as nothing that counts on its finalizer loses it. */
  lemma SourceKeeps(spec: Spec, home: Home, s: State, s': State, k: SourceKey)
    requires Inv(spec, home, s) && s'.children == s.children && s'.workers == s.workers
    requires forall k' :: k' != k ==> Guarded(s', k') == Guarded(s, k')
    requires Guarded(s, k) && !Guarded(s', k) ==>
               (forall id :: !Tracked(spec, s, id, k)) && !WorkerOf(s, k).Emitting? && !WorkerOf(s, k).Applying?
    ensures Inv(spec, home, s')
  {
    forall k', id | ValidKey(k') ensures ChildOK(spec, home, s', id, k') {
      assert ChildOK(spec, home, s, id, k');
      assert Tracked(spec, s', id, k') == Tracked(spec, s, id, k');
    }
    forall k' | ValidKey(k') ensures WorkerOK(spec, home, s', k') {
      assert WorkerOK(spec, home, s, k');
      assert forall id :: Tracked(spec, s', id, k') == Tracked(spec, s, id, k');
    }
  }

  /** Applying an object of source k under its finalizer. */
  lemma ApplyTracks(spec: Spec, home: Home, s: State, k: SourceKey, uid: string, id: ChildId, k': SourceKey)
    requires Inv(spec, home, s) && ValidKey(k) && ValidKey(k') && Guarded(s, k)
    requires home(id) == k && id.kind in spec.targets
    ensures var s' := s.(children := ApplyOne(s.children, spec, Source(k, uid), id));
            && ChildOK(spec, home, s', id, k')
            && (Tracked(spec, s', id, k') ==> k' == k)
  {
    var s' := s.(children := ApplyOne(s.children, spec, Source(k, uid), id));
    assert ChildOK(spec, home, s, id, k');
    if Tracked(spec, s', id, k') {
      AnnSourceInjective(spec.kind, k, k');
    }
  }

  lemma ApplyKeeps(spec: Spec, home: Home, s: State, k: SourceKey, uid: string, id: ChildId)
    requires Inv(spec, home, s) && ValidKey(k) && WorkerOf(s, k).Applying?
    requires home(id) == k && id.kind in spec.targets
    ensures Inv(spec, home, s.(children := ApplyOne(s.children, spec, Source(k, uid), id)))
  {
    var s' := s.(children := ApplyOne(s.children, spec, Source(k, uid), id));
    assert WorkerOK(spec, home, s, k);
    forall k', c | ValidKey(k') ensures ChildOK(spec, home, s', c, k') {
      if c == id {
        ApplyTracks(spec, home, s, k, uid, id, k');
      } else {
        assert ChildOK(spec, home, s, c, k');
      }
    }
    forall k' | ValidKey(k') ensures WorkerOK(spec, home, s', k') {
      assert WorkerOK(spec, home, s, k');
      if WorkerOf(s, k').Deleting? {
        forall c | Tracked(spec, s', c, k') ensures c in WorkerOf(s, k').todo {
          if c == id {
            ApplyTracks(spec, home, s, k, uid, id, k');
          } else {
            assert Tracked(spec, s, c, k');
          }
        }
      }
    }
  }

  // ----- Every step keeps the invariant -----

  lemma WorkerStepKeeps(spec: Spec, home: Home, s: State, e: Event)
    requires Inv(spec, home, s) && Possible(spec, home, s, e)
    requires e.Read? || e.Emit? || e.ListStale? || e.ListForDelete? || e.Fail?
    ensures Inv(spec, home, Next(spec, s, e))
  {
    var k := e.k;
    assert WorkerOK(spec, home, s, k);
    match e
    case Read(_) =>
      if WorkerOf(s, k).Idle? && k in s.sources {
        GoKeeps(spec, home, s, k, WorkerOf(Next(spec, s, e), k));
      }
    case Emit(_, ids) =>
      if WorkerOf(s, k).Emitting? {
        GoKeeps(spec, home, s, k, Applying(WorkerOf(s, k).uid, ids, ids));
      }
    case ListStale(_, stale) =>
      if WorkerOf(s, k).Applying? && WorkerOf(s, k).todo == [] {
        GoKeeps(spec, home, s, k, Pruning(stale));
      }
    case ListForDelete(_, tracked) =>
      if WorkerOf(s, k).Listing? {
        var s' := Go(s, k, Deleting(WorkerOf(s, k).rv, tracked));
        forall id | Tracked(spec, s', id, k) ensures id in tracked {
          assert Tracked(spec, s, id, k);
          assert ChildOK(spec, home, s, id, k);
        }
        GoKeeps(spec, home, s, k, Deleting(WorkerOf(s, k).rv, tracked));
      }
    case Fail(_) =>
      GoKeeps(spec, home, s, k, Idle);
  }

  lemma ChildStepKeeps(spec: Spec, home: Home, s: State, e: Event)
    requires Inv(spec, home, s) && Possible(spec, home, s, e)
    requires e.ApplyNext? || e.PruneNext? || e.DeleteNext?
    ensures Inv(spec, home, Next(spec, s, e))
  {
    var k, w := e.k, WorkerOf(s, e.k);
    assert WorkerOK(spec, home, s, k);
    match e
    case ApplyNext(_) =>
      if w.Applying? && w.todo != [] {
        var s' := s.(children := ApplyOne(s.children, spec, Source(k, w.uid), w.todo[0]));
        assert w.todo[0] in w.todo;
        ApplyKeeps(spec, home, s, k, w.uid, w.todo[0]);
        GoKeeps(spec, home, s', k, Applying(w.uid, w.todo[1..], w.all));
      }
    case PruneNext(_) =>
      if w.Pruning? && w.todo == [] {
        GoKeeps(spec, home, s, k, Idle);
      } else if w.Pruning? {
        DeleteKeeps(spec, home, s, w.todo[0]);
        GoKeeps(spec, home, s.(children := DeleteOne(s.children, w.todo[0])), k, Pruning(w.todo[1..]));
      }
    case DeleteNext(_) =>
      if w.Deleting? && w.todo != [] {
        var s' := s.(children := DeleteOne(s.children, w.todo[0]));
        DeleteKeeps(spec, home, s, w.todo[0]);
        var next := Deleting(w.rv, w.todo[1..]);
        forall id | Tracked(spec, Go(s', k, next), id, k) ensures id in w.todo[1..] {
          assert Tracked(spec, s', id, k);
          assert id != w.todo[0] && id in w.todo;
        }
        GoKeeps(spec, home, s', k, next);
      }
  }

  lemma SourceStepKeeps(spec: Spec, home: Home, s: State, e: Event)
    requires Inv(spec, home, s) && Possible(spec, home, s, e)
    requires e.WriteFinalizer? || e.DropFinalizer? || e.UserCreate? || e.UserEdit? || e.UserDelete?
    ensures Inv(spec, home, Next(spec, s, e))
  {
    var k, w := e.k, WorkerOf(s, e.k);
    assert WorkerOK(spec, home, s, k);
    match e
    case WriteFinalizer(_) =>
      if w.AddingFinalizer? && k in s.sources && s.sources[k].rv == w.rv {
        var s' := Put(s, k, s.sources[k].(fin := true));
        SourceKeeps(spec, home, s, s', k);
        GoKeeps(spec, home, s', k, Emitting(s.sources[k].uid));
      } else if w.AddingFinalizer? {
        GoKeeps(spec, home, s, k, Idle);
      }
    case DropFinalizer(_) =>
      if w.Deleting? && w.todo == [] && k in s.sources && s.sources[k].rv == w.rv {
        var s' := PutOrRemove(s, k, s.sources[k].(fin := false));
        SourceKeeps(spec, home, s, s', k);
        GoKeeps(spec, home, s', k, Idle);
      } else if w.Deleting? && w.todo == [] {
        GoKeeps(spec, home, s, k, Idle);
      }
    case UserCreate(_, _, _, _) => SourceKeeps(spec, home, s, Next(spec, s, e), k);
    case UserEdit(_, _) => SourceKeeps(spec, home, s, Next(spec, s, e), k);
    case UserDelete(_) => SourceKeeps(spec, home, s, Next(spec, s, e), k);
  }

  lemma EnvironmentKeeps(spec: Spec, home: Home, s: State, e: Event)
    requires Inv(spec, home, s) && Possible(spec, home, s, e)
    requires e.Crash? || e.ChildDeleted? || e.ChildFinalizer?
    ensures Inv(spec, home, Next(spec, s, e))
  {
    var s' := Next(spec, s, e);
    if e.ChildDeleted? {
      DeleteKeeps(spec, home, s, e.id);
    } else {
      forall k, c | ValidKey(k) ensures ChildOK(spec, home, s', c, k) {
        assert ChildOK(spec, home, s, c, k);
        assert Tracked(spec, s', c, k) ==> Tracked(spec, s, c, k);
      }
      forall k | ValidKey(k) ensures WorkerOK(spec, home, s', k) {
        assert WorkerOK(spec, home, s, k);
        assert forall c :: Tracked(spec, s', c, k) ==> Tracked(spec, s, c, k);
      }
    }
  }

  lemma NextKeeps(spec: Spec, home: Home, s: State, e: Event)
    requires Inv(spec, home, s) && Possible(spec, home, s, e)
    ensures Inv(spec, home, Next(spec, s, e))
  {
    if e.Crash? || e.ChildDeleted? || e.ChildFinalizer? {
      EnvironmentKeeps(spec, home, s, e);
    } else if e.WriteFinalizer? || e.DropFinalizer? || e.UserCreate? || e.UserEdit? || e.UserDelete? {
      SourceStepKeeps(spec, home, s, e);
    } else if e.ApplyNext? || e.PruneNext? || e.DeleteNext? {
      ChildStepKeeps(spec, home, s, e);
    } else {
      WorkerStepKeeps(spec, home, s, e);
    }
  }

  ghost predicate Runs(spec: Spec, home: Home, s: State, events: seq<Event>)
    decreases |events|
  {
    events == [] || (Possible(spec, home, s, events[0]) && Runs(spec, home, Next(spec, s, events[0]), events[1..]))
  }

  ghost function End(spec: Spec, s: State, events: seq<Event>): State
    decreases |events|
  {
    if events == [] then s else End(spec, Next(spec, s, events[0]), events[1..])
  }

  const EMPTY := State(map[], map[], map[], 0)

  lemma {:induction false} RunKeeps(spec: Spec, home: Home, s: State, events: seq<Event>)
    requires Inv(spec, home, s) && Runs(spec, home, s, events)
    ensures Inv(spec, home, End(spec, s, events))
    decreases |events|
  {
    if events != [] {
      NextKeeps(spec, home, s, events[0]);
      RunKeeps(spec, home, Next(spec, s, events[0]), events[1..]);
    }
  }

  /** Stored with the provenance annotation of k, terminating or not. */
  ghost predicate Annotated(spec: Spec, s: State, id: ChildId, k: SourceKey) {
    id in s.children && s.children[id].source == Some(AnnSource(spec.kind, k))
  }

  /** In every reachable state a child annotated for a source that is gone, or that
      no longer carries the cleanup finalizer, is terminating and held by a
      finalizer of its own. */
  lemma NoOrphan(spec: Spec, home: Home, events: seq<Event>, id: ChildId, k: SourceKey)
    requires Runs(spec, home, EMPTY, events) && ValidKey(k)
    requires Annotated(spec, End(spec, EMPTY, events), id, k) && !Guarded(End(spec, EMPTY, events), k)
    ensures var c := End(spec, EMPTY, events).children[id]; c.terminating && c.held
  {
    RunKeeps(spec, home, EMPTY, events);
    assert ChildOK(spec, home, End(spec, EMPTY, events), id, k);
  }

  /** A child on its way out, kept by its own finalizer, whose source let go. */
  ghost predicate HeldOrphan(spec: Spec, s: State, id: ChildId, k: SourceKey) {
    ValidKey(k) && Annotated(spec, s, id, k) && !Guarded(s, k) && s.children[id].terminating && s.children[id].held
  }

  /** In every reachable state: each annotated child has its source with the
      cleanup finalizer, unless some child is held by a finalizer of its own. */
  lemma GuardedIffNoHeldOrphan(spec: Spec, home: Home, events: seq<Event>)
    requires Runs(spec, home, EMPTY, events)
    ensures var s := End(spec, EMPTY, events); AllGuarded(spec, s) <==> forall id, k :: !HeldOrphan(spec, s, id, k)
  {
    var s := End(spec, EMPTY, events);
    hide End, Runs;
    if forall id, k :: !HeldOrphan(spec, s, id, k) {
      forall id, k | ValidKey(k) && Annotated(spec, s, id, k) ensures Guarded(s, k) {
        assert !HeldOrphan(spec, s, id, k);
        if !Guarded(s, k) {
          NoOrphan(spec, home, events, id, k);
        }
      }
    }
  }

  /** Every annotated child has its source, with the cleanup finalizer. */
  ghost predicate AllGuarded(spec: Spec, s: State) {
    forall id, k :: ValidKey(k) && Annotated(spec, s, id, k) ==> Guarded(s, k)
  }

  /** The finalizer is dropped while a child of the source is still there. */
  ghost predicate DropsEarly(spec: Spec, s: State, e: Event) {
    e.DropFinalizer? && Drops(s, e, e.k) && exists id :: Annotated(spec, s, id, e.k)
  }

  /** Annotated children after a step: those before it, and what an apply under the
      finalizer stamps. */
  lemma StepAnnotates(spec: Spec, home: Home, s: State, e: Event, id: ChildId, k: SourceKey)
    requires Inv(spec, home, s) && Possible(spec, home, s, e) && ValidKey(k)
    requires Annotated(spec, Next(spec, s, e), id, k)
    ensures Annotated(spec, s, id, k) || Guarded(s, k)
  {
    if e.ApplyNext? {
      var w := WorkerOf(s, e.k);
      assert WorkerOK(spec, home, s, e.k);
      if w.Applying? && w.todo != [] && id == w.todo[0] && !Annotated(spec, s, id, k) {
        AnnSourceInjective(spec.kind, e.k, k);
      }
    }
  }

  /** The finalizer drop that goes through. */
  ghost predicate Drops(s: State, e: Event, k: SourceKey) {
    e == DropFinalizer(k) &&
    var w := WorkerOf(s, k); w.Deleting? && w.todo == [] && k in s.sources && s.sources[k].rv == w.rv
  }

  /** A step takes the finalizer or the source away only by dropping it, and that
      step leaves the children alone. */
  lemma StepKeepsGuard(spec: Spec, s: State, e: Event, k: SourceKey)
    requires Guarded(s, k)
    ensures Guarded(Next(spec, s, e), k) <==> !Drops(s, e, k)
    ensures Drops(s, e, k) ==> Next(spec, s, e).children == s.children
  {
  }

  /** Exactly one kind of step breaks the plain property: dropping the finalizer
      while an annotated child, held by its own finalizer, is still stored. */
  lemma GuardedUntilDroppedEarly(spec: Spec, home: Home, s: State, e: Event)
    requires Inv(spec, home, s) && Possible(spec, home, s, e) && AllGuarded(spec, s)
    ensures AllGuarded(spec, Next(spec, s, e)) <==> !DropsEarly(spec, s, e)
  {
    var s' := Next(spec, s, e);
    hide Next, Guarded;
    if DropsEarly(spec, s, e) {
      var id :| Annotated(spec, s, id, e.k);
      StepKeepsGuard(spec, s, e, e.k);
      assert Annotated(spec, s', id, e.k) && !Guarded(s', e.k);
    } else {
      forall id, k | ValidKey(k) && Annotated(spec, s', id, k) ensures Guarded(s', k) {
        StepAnnotates(spec, home, s, e, id, k);
        assert Guarded(s, k);
        StepKeepsGuard(spec, s, e, k);
        assert Drops(s, e, k) ==> Annotated(spec, s, id, k);
      }
    }
  }

  /** A child that never gets a finalizer of its own never outlives its source. */
  lemma {:induction false} UnheldRunGuarded(spec: Spec, home: Home, s: State, events: seq<Event>)
    requires Inv(spec, home, s) && AllGuarded(spec, s) && Runs(spec, home, s, events)
    requires forall id :: id in s.children ==> !s.children[id].held
    requires forall e :: e in events ==> !(e.ChildFinalizer? && e.held)
    ensures AllGuarded(spec, End(spec, s, events))
    decreases |events|
  {
    if events != [] {
      var e, s' := events[0], Next(spec, s, events[0]);
      assert e in events;
      NextKeeps(spec, home, s, e);
      UnheldStep(spec, s, e);
      UnheldDropsNothingEarly(spec, home, s, e);
      GuardedUntilDroppedEarly(spec, home, s, e);
      UnheldRunGuarded(spec, home, s', events[1..]);
    }
  }

  lemma UnheldStep(spec: Spec, s: State, e: Event)
    requires forall id :: id in s.children ==> !s.children[id].held
    requires !(e.ChildFinalizer? && e.held)
    ensures forall id :: id in Next(spec, s, e).children ==> !Next(spec, s, e).children[id].held
  {
  }

  lemma UnheldDropsNothingEarly(spec: Spec, home: Home, s: State, e: Event)
    requires Inv(spec, home, s) && Possible(spec, home, s, e) && forall id :: id in s.children ==> !s.children[id].held
    ensures !DropsEarly(spec, s, e)
  {
    if e.DropFinalizer? {
      assert WorkerOK(spec, home, s, e.k);
      var w := WorkerOf(s, e.k);
      forall id | w.Deleting? && w.todo == [] ensures !Annotated(spec, s, id, e.k) {
        assert !Tracked(spec, s, id, e.k);
      }
    }
  }

  // ----- A run in which a child outlives its source -----

  const SPEC := Spec("m", "S", {"C"})
  const KEY := SourceKey("a", "n")
  const CHILD := ChildId("C", "b", "x")

  /** A child in another namespace, so tracked by annotation. */
  ghost function Stored0(held: bool, terminating: bool): Store {
    map[CHILD := Child(Some(Labels("m", "S", "n")), {}, {}, Some(AnnSource("S", KEY)), held, terminating)]
  }

  /** The source with its finalizer at a resource version. */
  ghost function Sources(rv: nat, deleting: bool): map<SourceKey, Stored> {
    map[KEY := Stored("u", rv, deleting, true, false)]
  }

  const SETUP := [UserCreate(KEY, "u", false, false), Read(KEY), WriteFinalizer(KEY), Emit(KEY, [CHILD]), ApplyNext(KEY)]
  const HOLD := [ListStale(KEY, []), PruneNext(KEY), ChildFinalizer(CHILD, true), UserDelete(KEY)]
  const LEAVE := [Read(KEY), ListForDelete(KEY, [CHILD]), DeleteNext(KEY), DropFinalizer(KEY)]

  lemma RunsCons(home: Home, s: State, e: Event, rest: seq<Event>)
    requires Possible(SPEC, home, s, e) && Runs(SPEC, home, Next(SPEC, s, e), rest)
    ensures Runs(SPEC, home, s, [e] + rest) && End(SPEC, s, [e] + rest) == End(SPEC, Next(SPEC, s, e), rest)
  {
    assert ([e] + rest)[1..] == rest;
  }

  lemma SetupRuns(home: Home, rest: seq<Event>)
    requires home(CHILD) == KEY
    requires var s := State(Sources(1, false), Stored0(false, false), map[KEY := Applying("u", [], [CHILD])], 2);
             Runs(SPEC, home, s, rest)
    ensures Runs(SPEC, home, EMPTY, SETUP + rest)
    ensures var s := State(Sources(1, false), Stored0(false, false), map[KEY := Applying("u", [], [CHILD])], 2);
            End(SPEC, EMPTY, SETUP + rest) == End(SPEC, s, rest)
  {
    var s1 := State(map[KEY := Stored("u", 0, false, false, false)], map[], map[], 1);
    var s2 := Go(s1, KEY, AddingFinalizer(0));
    var s3 := State(Sources(1, false), map[], map[KEY := Emitting("u")], 2);
    var s4 := Go(s3, KEY, Applying("u", [CHILD], [CHILD]));
    var s5 := State(Sources(1, false), Stored0(false, false), map[KEY := Applying("u", [], [CHILD])], 2);
    assert Next(SPEC, EMPTY, SETUP[0]) == s1;
    assert Next(SPEC, s1, SETUP[1]) == s2;
    assert Next(SPEC, s2, SETUP[2]) == s3;
    assert Next(SPEC, s3, SETUP[3]) == s4;
    assert [CHILD][1..] == [];
    assert Next(SPEC, s4, SETUP[4]) == s5;
    hide Next, Runs, End;
    RunsCons(home, s4, SETUP[4], rest);
    RunsCons(home, s3, SETUP[3], [SETUP[4]] + rest);
    RunsCons(home, s2, SETUP[2], [SETUP[3]] + ([SETUP[4]] + rest));
    RunsCons(home, s1, SETUP[1], [SETUP[2]] + ([SETUP[3]] + ([SETUP[4]] + rest)));
    var all := [SETUP[1]] + ([SETUP[2]] + ([SETUP[3]] + ([SETUP[4]] + rest)));
    RunsCons(home, EMPTY, SETUP[0], all);
    assert [SETUP[0]] + all == SETUP + rest;
  }

  lemma NothingStale(home: Home)
    ensures var s := State(Sources(1, false), Stored0(false, false), map[KEY := Applying("u", [], [CHILD])], 2);
            Possible(SPEC, home, s, HOLD[0])
  {
    assert CHILD in [CHILD];
  }

  lemma HoldSteps()
    ensures var s0 := State(Sources(1, false), Stored0(false, false), map[KEY := Applying("u", [], [CHILD])], 2);
            var s3 := State(Sources(1, false), Stored0(true, false), map[KEY := Idle], 2);
            && Next(SPEC, s0, HOLD[0]) == Go(s0, KEY, Pruning([]))
            && Next(SPEC, Go(s0, KEY, Pruning([])), HOLD[1]) == Go(s0, KEY, Idle)
            && Next(SPEC, Go(s0, KEY, Idle), HOLD[2]) == s3
            && Next(SPEC, s3, HOLD[3]) == State(Sources(2, true), Stored0(true, false), map[KEY := Idle], 3)
  {
  }

  /** Events other than listings and emits are always possible at the key. */
  lemma PossibleHere(home: Home, s: State, e: Event)
    requires match e
             case Emit(_, _) => false
             case ListStale(_, _) => false
             case ListForDelete(_, _) => false
             case Crash => true
             case ChildDeleted(_) => true
             case ChildFinalizer(_, _) => true
             case _ => e.k == KEY
    ensures Possible(SPEC, home, s, e)
  {
  }

  lemma HoldRuns(home: Home, rest: seq<Event>)
    requires Runs(SPEC, home, State(Sources(2, true), Stored0(true, false), map[KEY := Idle], 3), rest)
    ensures var s := State(Sources(1, false), Stored0(false, false), map[KEY := Applying("u", [], [CHILD])], 2);
            && Runs(SPEC, home, s, HOLD + rest)
            && End(SPEC, s, HOLD + rest) == End(SPEC, State(Sources(2, true), Stored0(true, false), map[KEY := Idle], 3), rest)
  {
    hide Next, Runs, End, Possible, Sources, Stored0;
    var s0 := State(Sources(1, false), Stored0(false, false), map[KEY := Applying("u", [], [CHILD])], 2);
    var s1 := Go(s0, KEY, Pruning([]));
    var s2 := Go(s0, KEY, Idle);
    var s3 := State(Sources(1, false), Stored0(true, false), map[KEY := Idle], 2);
    var s4 := State(Sources(2, true), Stored0(true, false), map[KEY := Idle], 3);
    HoldSteps();
    NothingStale(home);
    PossibleHere(home, s1, HOLD[1]);
    PossibleHere(home, s2, HOLD[2]);
    PossibleHere(home, s3, HOLD[3]);
    RunsCons(home, s3, HOLD[3], rest);
    RunsCons(home, s2, HOLD[2], [HOLD[3]] + rest);
    RunsCons(home, s1, HOLD[1], [HOLD[2]] + ([HOLD[3]] + rest));
    var all := [HOLD[1]] + ([HOLD[2]] + ([HOLD[3]] + rest));
    RunsCons(home, s0, HOLD[0], all);
    assert [HOLD[0]] + all == HOLD + rest;
  }

  lemma LeaveSteps()
    ensures var s0 := State(Sources(2, true), Stored0(true, false), map[KEY := Idle], 3);
            var s3 := State(Sources(2, true), Stored0(true, true), map[KEY := Deleting(2, [])], 3);
            && Next(SPEC, s0, LEAVE[0]) == Go(s0, KEY, Listing(2))
            && Next(SPEC, Go(s0, KEY, Listing(2)), LEAVE[1]) == Go(s0, KEY, Deleting(2, [CHILD]))
            && Next(SPEC, Go(s0, KEY, Deleting(2, [CHILD])), LEAVE[2]) == s3
            && Next(SPEC, s3, LEAVE[3]) == State(map[], Stored0(true, true), map[KEY := Idle], 3)
  {
    assert [CHILD][1..] == [];
  }

  lemma ListsTheChild(home: Home)
    ensures var s0 := State(Sources(2, true), Stored0(true, false), map[KEY := Idle], 3);
            Possible(SPEC, home, Go(s0, KEY, Listing(2)), LEAVE[1])
  {
  }

  lemma LeaveRuns(home: Home)
    ensures var s := State(Sources(2, true), Stored0(true, false), map[KEY := Idle], 3);
            && Runs(SPEC, home, s, LEAVE)
            && End(SPEC, s, LEAVE) == State(map[], Stored0(true, true), map[KEY := Idle], 3)
  {
    hide Next, Possible, Sources, Stored0;
    var s0 := State(Sources(2, true), Stored0(true, false), map[KEY := Idle], 3);
    var s1 := Go(s0, KEY, Listing(2));
    var s2 := Go(s0, KEY, Deleting(2, [CHILD]));
    var s3 := State(Sources(2, true), Stored0(true, true), map[KEY := Deleting(2, [])], 3);
    var s4 := State(map[], Stored0(true, true), map[KEY := Idle], 3);
    LeaveSteps();
    ListsTheChild(home);
    assert Runs(SPEC, home, s4, []) && End(SPEC, s4, []) == s4;
    hide Runs, End;
    PossibleHere(home, s0, LEAVE[0]);
    PossibleHere(home, s2, LEAVE[2]);
    PossibleHere(home, s3, LEAVE[3]);
    RunsCons(home, s3, LEAVE[3], []);
    RunsCons(home, s2, LEAVE[2], [LEAVE[3]] + []);
    RunsCons(home, s1, LEAVE[1], [LEAVE[2]] + ([LEAVE[3]] + []));
    var all := [LEAVE[1]] + ([LEAVE[2]] + ([LEAVE[3]] + []));
    RunsCons(home, s0, LEAVE[0], all);
    assert [LEAVE[0]] + all == LEAVE;
  }

  /** From the empty cluster: the source is created, translated and deleted, and is
      gone while its annotated child, held by a finalizer of its own, is still stored. */
  lemma HeldChildOutlivesSource()
    ensures var home: Home := (id: ChildId) => KEY;
            var events := SETUP + (HOLD + LEAVE);
            && Runs(SPEC, home, EMPTY, events)
            && KEY !in End(SPEC, EMPTY, events).sources
            && Annotated(SPEC, End(SPEC, EMPTY, events), CHILD, KEY)
  {
    var home: Home := (id: ChildId) => KEY;
    hide Runs, End;
    LeaveRuns(home);
    HoldRuns(home, LEAVE);
    SetupRuns(home, HOLD + LEAVE);
  }
}
