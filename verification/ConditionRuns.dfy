/** Every interleaving of the condition writers under optimistic concurrency. */
module ConditionRuns {
  import opened Text
  import opened Conditions
  import opened ConditionWriters
  import opened ConditionProtocol

  datatype Snapshot = Snapshot(conds: seq<Cond>, rv: nat)

  /** The stored list, its resource version, and what each writer has read. */
  datatype State = State(conds: seq<Cond>, rv: nat, held: map<Writer, Snapshot>)

  /** `Touch` is any other write to the object: a spec edit or another status field. */
  datatype Event =
    | Read(writer: Writer)
    | Write(writer: Writer, input: Input, now: string)
    | Touch

  /** The write goes through: something to write, and nobody wrote in between. */
  predicate Commits(s: State, e: Event) {
    && e.Write? && e.writer in s.held
    && Merge(s.held[e.writer].conds, e.input, e.now) != s.held[e.writer].conds
    && s.held[e.writer].rv == s.rv
  }

  /** A conflicting write is refused and the writer has to read again. */
  function Next(s: State, e: Event): State {
    match e
    case Read(w) => s.(held := s.held[w := Snapshot(s.conds, s.rv)])
    case Write(w, input, now) =>
      if Commits(s, e) then State(Merge(s.held[w].conds, input, now), s.rv + 1, s.held - {w})
      else s.(held := s.held - {w})
    case Touch => s.(rv := s.rv + 1)
  }

  function Run(s: State, events: seq<Event>): State
    decreases |events|
  {
    if events == [] then s else Run(Next(s, events[0]), events[1..])
  }

  /** The writes that went through, in order. */
  function Committed(s: State, events: seq<Event>): seq<Event>
    decreases |events|
  {
    if events == [] then []
    else (if Commits(s, events[0]) then [events[0]] else []) + Committed(Next(s, events[0]), events[1..])
  }

  /** The writer table: one writer per condition type. */
  type Table = map<string, Writer>

  ghost predicate Allowed(table: Table, e: Event) {
    e.Write? ==> InputOK(e.input) && forall t :: Writes(e.input, t) ==> t in table && table[t] == e.writer
  }

  ghost predicate AllowedAll(table: Table, events: seq<Event>) {
    forall i :: 0 <= i < |events| ==> Allowed(table, events[i])
  }

  /** Conditions other than Ready carry nothing but the five known fields. */
  ghost predicate FiveOnly(conds: seq<Cond>) {
    forall c :: c in conds ==> EqualFold(TypeOf(c), READY) || Five(c) == c
  }

  ghost predicate Good(s: State) {
    && WellFormed(s.conds) && FiveOnly(s.conds)
    && forall w :: w in s.held ==> s.held[w].rv <= s.rv && (s.held[w].rv == s.rv ==> s.held[w].conds == s.conds)
  }

  lemma ItemFive(input: Input, found: Option<Cond>, t: string, now: string)
    requires InputOK(input) && Writes(input, t)
    requires found.Some? ==> EqualFold(t, READY) || Five(found.value) == found.value
    ensures EqualFold(t, READY) || Five(Item(input, found, t, now)) == Item(input, found, t, now)
  {
  }

  lemma MergeFive(conds: seq<Cond>, input: Input, now: string)
    requires WellFormed(conds) && InputOK(input) && FiveOnly(conds)
    ensures FiveOnly(Merge(conds, input, now))
  {
    var out := Merge(conds, input, now);
    MergeKeepsOrder(conds, input, now);
    forall c | c in out ensures EqualFold(TypeOf(c), READY) || Five(c) == c {
      var t := TypeOf(c);
      FindMember(out, c);
      if Writes(input, t) {
        MergeWrites(conds, input, now, t);
        ItemFive(input, Find(conds, t), t, now);
      } else {
        MergeFrame(conds, input, now, t);
      }
    }
  }

  lemma NextGood(table: Table, s: State, e: Event)
    requires Good(s) && Allowed(table, e)
    ensures Good(Next(s, e))
  {
    if Commits(s, e) {
      MergeKeepsOrder(s.conds, e.input, e.now);
      MergeFive(s.conds, e.input, e.now);
    }
  }

  /** One event, seen at one type: only a committed write that writes the type moves it. */
  lemma NextFind(table: Table, s: State, e: Event, t: string)
    requires Good(s) && Allowed(table, e)
    ensures Find(Next(s, e).conds, t) ==
            if Commits(s, e) && Writes(e.input, t) then Some(Item(e.input, Find(s.conds, t), t, e.now))
            else Find(s.conds, t)
  {
    if Commits(s, e) {
      if Writes(e.input, t) {
        MergeWrites(s.conds, e.input, e.now, t);
      } else {
        MergeFrame(s.conds, e.input, e.now, t);
      }
    }
  }

  ghost predicate Reads(got: Cond, status: string, reason: string, message: string) {
    Get(got, Status) == Str(status) && Get(got, Reason) == Str(reason) && Get(got, Message) == Str(message)
  }

  ghost predicate SameWords(got: Cond, d: Cond) {
    Get(got, Status) == Get(d, Status) && Get(got, Reason) == Get(d, Reason) && Get(got, Message) == Get(d, Message)
  }

  /** The words of an input for a type: the manager's four values, the daemon's
      health, the translator's condition. */
  ghost predicate Meant(input: Input, t: string, got: Cond) {
    match input
    case Wants(wants) => exists w :: w in wants && w.t == t && Reads(got, w.status, w.reason, w.message)
    case Health(healthy) =>
      if healthy then Reads(got, "True", "DeviceHealthy", "VSP handshake enumerated a healthy device")
      else Reads(got, "False", "DeviceUnhealthy", "VSP handshake reported no healthy device")
    case Mirrored(own) => exists d :: d in own && TypeOf(d) == t && SameWords(got, d)
  }

  /** The time of an entry: kept while the status stands and a time is there, the
      clock of the write when the status moved or the entry is new. */
  ghost predicate Timed(found: Option<Cond>, got: Cond, now: string) {
    && (found.None? || Get(found.value, Status) != Get(got, Status) ==> Get(got, Time) == Str(now))
    && (found.Some? && Get(found.value, Status) == Get(got, Status) && HasTime(found.value) ==>
          Get(got, Time) == Get(found.value, Time))
  }

  lemma LcmSpeaks(found: Option<Cond>, w: Want, now: string)
    requires found.Some? ==> TypeOf(found.value) == w.t
    ensures var got := LcmItem(found, w, now);
            TypeOf(got) == w.t && Reads(got, w.status, w.reason, w.message) && Timed(found, got, now)
  {
    LcmItemMeans(found, w, now);
    hide LcmItem, TypeOf;
  }

  lemma ReadySpeaks(found: Option<Cond>, healthy: bool, now: string)
    requires found.Some? ==> TypeOf(found.value) == READY
    ensures var got := ReadyItem(found, healthy, now);
            && TypeOf(got) == READY && Meant(Health(healthy), READY, got) && Timed(found, got, now)
            && (found.Some? && got != found.value && Get(found.value, Time) in {Null, Str("")} ==> Get(got, Time) == Str(now))
  {
    if found.Some? {
      ReadyItemMeans(found.value, healthy, now, Type);
      ReadyItemTyped(found.value, healthy, now);
      hide ReadyItem, TypeOf;
    }
  }

  lemma MirrorSpeaks(found: Option<Cond>, d: Cond, now: string)
    requires !Skipped(d)
    ensures var got := MirrorItem(found, d, now); TypeOf(got) == TypeOf(d) && SameWords(got, d) && Timed(found, got, now)
  {
    MirrorItemMeans(found, d, now, Type);
    hide MirrorItem, TypeOf;
  }

  lemma ReadyItemTyped(m: Cond, healthy: bool, now: string)
    requires TypeOf(m) == READY
    ensures TypeOf(ReadyItem(Some(m), healthy, now)) == READY
  {
    hide ReadyStatus, ReadyReason, ReadyMessage;
  }

  lemma ItemMeans(input: Input, found: Option<Cond>, t: string, now: string)
    requires InputOK(input) && Writes(input, t) && (found.Some? ==> TypeOf(found.value) == t)
    ensures var got := Item(input, found, t, now); TypeOf(got) == t && Meant(input, t, got) && Timed(found, got, now)
  {
    hide LcmItem, ReadyItem, MirrorItem, Reads, SameWords, Timed, TypeOf;
    match input
    case Wants(wants) =>
      var i :| 0 <= i < |wants| && wants[i].t == t && Item(input, found, t, now) == LcmItem(found, wants[i], now);
      LcmSpeaks(found, wants[i], now);
      assert wants[i] in wants;
    case Health(healthy) => ReadySpeaks(found, healthy, now);
    case Mirrored(own) =>
      var i :| 0 <= i < |own| && TypeOf(own[i]) == t && Item(input, found, t, now) == MirrorItem(found, own[i], now);
      MirrorSpeaks(found, own[i], now);
      assert own[i] in own;
  }

  /** A committed write is read back as it was meant: of every type the input writes
      the list then says, once, what its writer wanted to say, with the right time. */
  lemma CommittedIsMeant(table: Table, s: State, e: Event, t: string)
    requires Good(s) && Allowed(table, e) && Commits(s, e) && Writes(e.input, t)
    ensures var got := Find(Next(s, e).conds, t);
            got.Some? && TypeOf(got.value) == t && Meant(e.input, t, got.value) && Timed(Find(s.conds, t), got.value, e.now)
    ensures WellFormed(Next(s, e).conds)
  {
    hide Item, Meant, Merge, Timed;
    NextFind(table, s, e, t);
    NextGood(table, s, e);
    ItemMeans(e.input, Find(s.conds, t), t, e.now);
  }

  /** The daemon's report in its own words: Ready is "True" exactly for a healthy
      device and "False" otherwise, with the reason and message of each. */
  lemma HealthIsReported(table: Table, s: State, e: Event)
    requires Good(s) && Allowed(table, e) && Commits(s, e) && e.input.Health?
    ensures var got := Find(Next(s, e).conds, "Ready");
            && got.Some?
            && Get(got.value, Status) == Str(if e.input.healthy then "True" else "False")
            && Get(got.value, Reason) == Str(if e.input.healthy then "DeviceHealthy" else "DeviceUnhealthy")
            && Get(got.value, Message) ==
               Str(if e.input.healthy then "VSP handshake enumerated a healthy device" else "VSP handshake reported no healthy device")
  {
    hide Next, Good, Find;
    CommittedIsMeant(table, s, e, READY);
  }

  /** One condition, moved only by the committed writes that write its type. */
  ghost function Replay(entry: Option<Cond>, commits: seq<Event>, t: string): Option<Cond>
    decreases |commits|
  {
    if commits == [] then entry
    else
      var e := commits[0];
      Replay(if e.Write? && Writes(e.input, t) then Some(Item(e.input, entry, t, e.now)) else entry, commits[1..], t)
  }

  /** No interference: after any interleaving a condition is what its own writer's
      committed writes alone would have made of it. */
  lemma {:induction false} NoInterference(table: Table, s: State, events: seq<Event>, t: string)
    requires Good(s) && AllowedAll(table, events)
    ensures Good(Run(s, events))
    ensures Find(Run(s, events).conds, t) == Replay(Find(s.conds, t), Committed(s, events), t)
    decreases |events|
  {
    if events != [] {
      var e, s' := events[0], Next(s, events[0]);
      assert Allowed(table, e);
      NextGood(table, s, e);
      NextFind(table, s, e, t);
      NoInterference(table, s', events[1..], t);
      var rest := Committed(s', events[1..]);
      if Commits(s, e) {
        assert Committed(s, events) == [e] + rest;
        assert ([e] + rest)[1..] == rest;
      } else {
        assert Committed(s, events) == rest;
      }
    }
  }

  ghost function ByWriter(commits: seq<Event>, w: Writer): seq<Event> {
    if commits == [] then []
    else (if commits[0].Write? && commits[0].writer == w then [commits[0]] else []) + ByWriter(commits[1..], w)
  }

  lemma {:induction false} ReplayOwn(table: Table, entry: Option<Cond>, commits: seq<Event>, t: string)
    requires AllowedAll(table, commits) && t in table && forall i :: 0 <= i < |commits| ==> commits[i].Write?
    ensures Replay(entry, commits, t) == Replay(entry, ByWriter(commits, table[t]), t)
    decreases |commits|
  {
    if commits != [] {
      var e, w := commits[0], table[t];
      assert Allowed(table, e);
      var next := if Writes(e.input, t) then Some(Item(e.input, entry, t, e.now)) else entry;
      ReplayOwn(table, next, commits[1..], t);
      var rest := ByWriter(commits[1..], w);
      if e.writer == w {
        assert ByWriter(commits, w) == [e] + rest;
        assert ([e] + rest)[1..] == rest;
      } else {
        assert ByWriter(commits, w) == rest;
      }
    }
  }

  lemma {:induction false} CommittedAllowed(table: Table, s: State, events: seq<Event>)
    requires AllowedAll(table, events)
    ensures AllowedAll(table, Committed(s, events))
    ensures forall i :: 0 <= i < |Committed(s, events)| ==> Committed(s, events)[i].Write?
    decreases |events|
  {
    if events != [] {
      assert Allowed(table, events[0]);
      CommittedAllowed(table, Next(s, events[0]), events[1..]);
    }
  }

  /** Single writer: the condition of a type in the table is decided by its one
      writer alone, whatever the others did in between. */
  lemma SingleWriter(table: Table, s: State, events: seq<Event>, t: string)
    requires Good(s) && AllowedAll(table, events) && t in table
    ensures Find(Run(s, events).conds, t) ==
            Replay(Find(s.conds, t), ByWriter(Committed(s, events), table[t]), t)
  {
    NoInterference(table, s, events, t);
    CommittedAllowed(table, s, events);
    ReplayOwn(table, Find(s.conds, t), Committed(s, events), t);
  }

  lemma {:induction false} ReplayForeign(table: Table, entry: Option<Cond>, commits: seq<Event>, t: string)
    requires AllowedAll(table, commits) && t !in table
    ensures Replay(entry, commits, t) == entry
    decreases |commits|
  {
    if commits != [] {
      assert Allowed(table, commits[0]);
      ReplayForeign(table, entry, commits[1..], t);
    }
  }

  /** A condition no writer in the table owns is never touched. */
  lemma ForeignUntouched(table: Table, s: State, events: seq<Event>, t: string)
    requires Good(s) && AllowedAll(table, events) && t !in table
    ensures Find(Run(s, events).conds, t) == Find(s.conds, t)
  {
    NoInterference(table, s, events, t);
    CommittedAllowed(table, s, events);
    ReplayForeign(table, Find(s.conds, t), Committed(s, events), t);
  }

  /** In every reachable state: no event loses a condition, and a present transition
      time changes only together with the status. */
  lemma TimeMovesWithStatus(table: Table, s: State, events: seq<Event>, e: Event, t: string)
    requires Good(s) && AllowedAll(table, events) && Allowed(table, e)
    requires Find(Run(s, events).conds, t).Some?
    ensures var was := Find(Run(s, events).conds, t).value;
            var got := Find(Next(Run(s, events), e).conds, t);
            && got.Some?
            && (HasTime(was) && Get(got.value, Time) != Get(was, Time) ==> Get(got.value, Status) != Get(was, Status))
  {
    NoInterference(table, s, events, t);
    var r := Run(s, events);
    if Commits(r, e) {
      MergeKeepsTime(r.conds, e.input, e.now, t);
    }
  }
}
