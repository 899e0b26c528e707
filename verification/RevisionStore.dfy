/** Helm revisions kept as Secrets: reading the latest, and install, upgrade and
    rollback with a crash after any write
    (pkg/lifecycle/cluster_helm_client.go, secret_helm_client.go). */
module RevisionStore {
  import opened Text
  import opened Versions

  datatype Kind = HelmType | Untyped | OtherType

  /** The status label of a Secret. */
  datatype Status = NoStatus | Deployed | Superseded | OtherStatus

  /** The decoded payload. */
  datatype Doc = Doc(revision: int, chart: string, version: string)

  /** `ver` is the numeric version label; `doc` is None when the payload does not decode. */
  datatype Secret = Secret(kind: Kind, ver: int, status: Status, owned: bool, doc: Option<Doc>)

  /** The Secrets of one release by the number in their name. */
  type Store = map<int, Secret>

  // ----- Reading -----

  predicate Eligible(s: Secret) {
    s.kind != OtherType && s.status != OtherStatus
  }

  predicate Beats(s: Secret, best: Option<Secret>) {
    best.None? || s.ver > best.value.ver || (s.ver == best.value.ver && s.status == Deployed)
  }

  /** What the scan has kept after `items`. */
  function Latest(items: seq<Secret>): Option<Secret> {
    if items == [] then None
    else
      var best, s := Latest(items[..|items| - 1]), items[|items| - 1];
      if Eligible(s) && Beats(s, best) then Some(s) else best
  }

  /** The scan with its best, best version and found flag. */
  method LatestHelmSecret(items: seq<Secret>) returns (best: Secret, found: bool)
    ensures (if found then Some(best) else None) == Latest(items)
  {
    best := Secret(Untyped, 0, NoStatus, false, None);
    var bestVer := -1;
    found := false;
    for i := 0 to |items|
      invariant (if found then Some(best) else None) == Latest(items[..i])
      invariant found ==> bestVer == best.ver
    {
      var item := items[i];
      assert items[..i + 1][..i] == items[..i];
      if item.kind == OtherType || item.status == OtherStatus {
        continue;
      }
      if !found || item.ver > bestVer || (item.ver == bestVer && item.status == Deployed) {
        best, bestVer, found := item, item.ver, true;
      }
    }
    assert items[..|items|] == items;
  }

  /** The scan finds an eligible Secret when there is one, of the highest
      version, and a deployed one among equals. */
  lemma {:induction false} LatestIsBest(items: seq<Secret>, s: Secret)
    requires s in items && s.kind in {HelmType, Untyped} && s.status in {NoStatus, Deployed, Superseded}
    ensures var r := Latest(items);
            && r.Some? && r.value in items && r.value.ver >= s.ver
            && r.value.kind in {HelmType, Untyped} && r.value.status in {NoStatus, Deployed, Superseded}
            && (s.ver == r.value.ver && s.status == Deployed ==> r.value.status == Deployed)
  {
    var init, last := items[..|items| - 1], items[|items| - 1];
    assert items == init + [last];
    LatestIsEligible(init);
    if s in init {
      LatestIsBest(init, s);
    }
  }

  lemma {:induction false} LatestIsEligible(items: seq<Secret>)
    ensures var r := Latest(items); r.Some? ==> r.value in items && Eligible(r.value)
  {
    if items != [] {
      LatestIsEligible(items[..|items| - 1]);
    }
  }

  /** The first listed revision whose version equals `v`. */
  function FindRevision(items: seq<Secret>, v: string): Option<Doc> {
    if items == [] then None
    else if items[0].doc.Some? && VersionsEqual(items[0].doc.value.version, v) then items[0].doc
    else FindRevision(items[1..], v)
  }

  method FindRevisionLoop(items: seq<Secret>, v: string) returns (r: Option<Doc>)
    ensures r == FindRevision(items, v)
  {
    hide VersionsEqual;
    for i := 0 to |items|
      invariant FindRevision(items, v) == FindRevision(items[i..], v)
    {
      assert items[i..][1..] == items[i + 1..];
      if items[i].doc.Some? && VersionsEqual(items[i].doc.value.version, v) {
        return items[i].doc;
      }
    }
    return None;
  }

  /** Entry i is the first of the listing with that version. */
  ghost predicate FirstAt(items: seq<Secret>, v: string, i: int) {
    && 0 <= i < |items| && items[i].doc.Some? && VersionsEqual(items[i].doc.value.version, v)
    && forall j :: 0 <= j < i ==> items[j].doc.None? || !VersionsEqual(items[j].doc.value.version, v)
  }

  /** Found exactly when some listed revision has that version, and then it is the first of them. */
  lemma {:induction false} FindRevisionSpec(items: seq<Secret>, v: string)
    ensures var r := FindRevision(items, v);
            && (r.Some? ==> VersionsEqual(r.value.version, v) && (exists s :: s in items && s.doc == r)
                            && exists i :: FirstAt(items, v, i) && items[i].doc == r)
            && (r.None? ==> forall s :: s in items && s.doc.Some? ==> !VersionsEqual(s.doc.value.version, v))
  {
    hide VersionsEqual;
    if items != [] {
      FindRevisionSpec(items[1..], v);
      assert items == [items[0]] + items[1..];
      if items[0].doc.Some? && VersionsEqual(items[0].doc.value.version, v) {
        assert items[0] in items;
        assert FirstAt(items, v, 0);
      } else {
        var r := FindRevision(items[1..], v);
        if r.Some? {
          var i :| FirstAt(items[1..], v, i) && items[1..][i].doc == r;
          assert FirstAt(items, v, i + 1) && items[i + 1].doc == r by {
            forall j | 0 <= j < i + 1 ensures items[j].doc.None? || !VersionsEqual(items[j].doc.value.version, v) {
              assert j > 0 ==> items[j] == items[1..][j - 1];
            }
          }
          var s :| s in items[1..] && s.doc == r;
          assert s in items;
        }
      }
    }
  }

  // ----- Writing -----

  datatype Op = Install(chart: string, version: string) | Upgrade(chart: string, version: string) | Rollback(to: string)

  datatype Write = Mark(rev: int) | Put(rev: int, doc: Doc)

  /** The writes an operation issues, in order, from what its two listings show:
      one for the current release and one for the history. A forbidden first
      listing comes as an empty one. No write means the operation was refused. */
  function Plan(op: Op, items: seq<Secret>, again: seq<Secret>): seq<Write> {
    var cur := Latest(items);
    if op.Install? then
      if cur.None? then [Put(1, Doc(1, op.chart, op.version))] else []
    else if (op.Rollback? && !ValidRelease(op.to)) || cur.None? || cur.value.doc.None? || !cur.value.owned then []
    else
      var rev := cur.value.doc.value.revision;
      if op.Upgrade? then [Mark(rev), Put(rev + 1, Doc(rev + 1, op.chart, op.version))]
      else
        var prev := FindRevision(again, op.to);
        if prev.None? then []
        else [Mark(rev), Put(rev + 1, Doc(rev + 1, prev.value.chart, prev.value.version))]
  }

  function ApplyWrite(store: Store, w: Write): Store {
    match w
    case Mark(rev) => if rev in store then store[rev := store[rev].(status := Superseded)] else store
    case Put(rev, doc) => store[rev := Secret(HelmType, rev, Deployed, true, Some(doc))]
  }

  /** Marking a revision that is not there ends the operation. */
  function ApplyWrites(store: Store, ws: seq<Write>): Store
    decreases |ws|
  {
    if ws == [] || (ws[0].Mark? && ws[0].rev !in store) then store
    else ApplyWrites(ApplyWrite(store, ws[0]), ws[1..])
  }

  ghost predicate StoredAt(store: Store, k: int, s: Secret) {
    k in store && store[k] == s
  }

  /** A listing in any order. */
  ghost predicate Lists(items: seq<Secret>, store: Store) {
    && (forall k :: k in store ==> store[k] in items)
    && (forall s :: s in items ==> exists k :: StoredAt(store, k, s))
  }

  /** One operation that dies, or gives up with an error, after `done` of its writes. */
  datatype Event = Event(op: Op, items: seq<Secret>, again: seq<Secret>, done: nat)

  /** The first listing is complete, or was forbidden and reads as not found. */
  ghost predicate Fires(store: Store, e: Event) {
    (Lists(e.items, store) || e.items == []) && Lists(e.again, store)
  }

  /** An install that sees no release although one is stored. */
  ghost predicate Blind(store: Store, e: Event) {
    e.op.Install? && e.items == [] && 1 in store && e.done > 0
  }

  ghost function Next(store: Store, e: Event): Store {
    var plan := Plan(e.op, e.items, e.again);
    ApplyWrites(store, if e.done < |plan| then plan[..e.done] else plan)
  }

  lemma TwoWrites(store: Store, a: Write, b: Write)
    requires b.Put?
    ensures ApplyWrites(store, []) == store
    ensures ApplyWrites(store, [a]) == ApplyWrite(store, a)
    ensures ApplyWrites(store, [a, b]) == if a.Mark? && a.rev !in store then store else ApplyWrite(ApplyWrite(store, a), b)
  {
    assert [a][1..] == [] && [a, b][1..] == [b] && [b][1..] == [];
    var s := ApplyWrite(store, a);
    assert ApplyWrites(s, [b]) == ApplyWrite(s, b);
  }

  /** The store as the client writes it, one Secret at a time; `done` is the
      number of writes before the process dies. */
  class ClusterHelmClient {
    var secrets: Store

    constructor (secrets: Store)
      ensures this.secrets == secrets
    {
      this.secrets := secrets;
    }

    method MarkSuperseded(rev: int) returns (ok: bool)
      modifies this
      ensures ok == (rev in old(secrets)) && secrets == ApplyWrite(old(secrets), Mark(rev))
    {
      ok := rev in secrets;
      if ok {
        secrets := secrets[rev := secrets[rev].(status := Superseded)];
      }
    }

    method StoreSecret(doc: Doc)
      modifies this
      ensures secrets == ApplyWrite(old(secrets), Put(doc.revision, doc))
    {
      secrets := secrets[doc.revision := Secret(HelmType, doc.revision, Deployed, true, Some(doc))];
    }

    method OwnedRelease(items: seq<Secret>) returns (r: Option<Doc>)
      ensures var cur := Latest(items); r == if cur.Some? && cur.value.owned then cur.value.doc else None
    {
      var best, found := LatestHelmSecret(items);
      r := if found && best.owned then best.doc else None;
    }

    method Install(chart: string, version: string, items: seq<Secret>, done: nat) returns (ok: bool)
      modifies this
      ensures secrets == Next(old(secrets), Event(Op.Install(chart, version), items, items, done))
      ensures ok <==> Latest(items).None? && done >= 1
    {
      var _, found := LatestHelmSecret(items);
      ghost var put := Put(1, Doc(1, chart, version));
      assert [put][..0] == [];
      TwoWrites(secrets, put, put);
      ok := !found && done >= 1;
      if ok {
        StoreSecret(Doc(1, chart, version));
      }
    }

    method Supersede(rev: int, next: Doc, done: nat) returns (ok: bool)
      requires next.revision == rev + 1
      modifies this
      ensures var plan := [Mark(rev), Put(rev + 1, next)];
              secrets == ApplyWrites(old(secrets), if done < 2 then plan[..done] else plan)
      ensures ok <==> rev in old(secrets) && done >= 2
    {
      ghost var plan := [Mark(rev), Put(rev + 1, next)];
      assert plan[..0] == [] && plan[..1] == [Mark(rev)];
      TwoWrites(secrets, Mark(rev), Put(rev + 1, next));
      ok := false;
      if done >= 1 {
        ok := MarkSuperseded(rev);
        ok := ok && done >= 2;
        if ok {
          StoreSecret(next);
        }
      }
    }

    method Upgrade(chart: string, version: string, items: seq<Secret>, done: nat) returns (ok: bool)
      modifies this
      ensures secrets == Next(old(secrets), Event(Op.Upgrade(chart, version), items, items, done))
    {
      var cur := OwnedRelease(items);
      if cur.None? {
        return false;
      }
      var rev := cur.value.revision;
      ok := Supersede(rev, Doc(rev + 1, chart, version), done);
    }

    method Rollback(to: string, items: seq<Secret>, again: seq<Secret>, done: nat) returns (ok: bool)
      modifies this
      ensures secrets == Next(old(secrets), Event(Op.Rollback(to), items, again, done))
    {
      hide VersionsEqual, ValidRelease;
      if !ValidRelease(to) {
        return false;
      }
      var cur := OwnedRelease(items);
      if cur.None? {
        return false;
      }
      var prev := FindRevisionLoop(again, to);
      if prev.None? {
        return false;
      }
      var rev := cur.value.revision;
      ok := Supersede(rev, Doc(rev + 1, prev.value.chart, prev.value.version), done);
    }
  }

  // ----- The invariant -----

  ghost predicate Revision(store: Store, n: nat, k: int) {
    && k in store && store[k].kind == HelmType && store[k].ver == k && store[k].owned
    && store[k].doc.Some? && store[k].doc.value.revision == k
    && (store[k].status == Superseded || (store[k].status == Deployed && k == n))
  }

  /** Exactly the revisions 1..n, with only n possibly labelled deployed. */
  ghost predicate Inv(store: Store, n: nat) {
    (forall k :: k in store <==> 1 <= k <= n) && forall k :: 1 <= k <= n ==> Revision(store, n, k)
  }

  /** What was stored for a revision stays, except for its status label. */
  ghost predicate HistoryKept(old_: Store, new_: Store) {
    forall k :: k in old_ ==> k in new_ && new_[k].doc == old_[k].doc
  }

  /** Whatever the listing order, the read gives revision n. */
  lemma LatestIsNewest(items: seq<Secret>, store: Store, n: nat)
    requires Inv(store, n) && Lists(items, store)
    ensures Latest(items) == if n == 0 then None else Some(store[n])
  {
    LatestIsEligible(items);
    if n > 0 {
      assert Revision(store, n, n);
      LatestIsBest(items, store[n]);
      var r := Latest(items).value;
      var k :| StoredAt(store, k, r);
      assert Revision(store, n, k);
    }
  }

  lemma MarkKeeps(store: Store, n: nat)
    requires Inv(store, n) && n > 0
    ensures var s := ApplyWrite(store, Mark(n));
            && Inv(s, n) && HistoryKept(store, s) && s[n].status == Superseded
  {
    var s := ApplyWrite(store, Mark(n));
    assert Revision(store, n, n);
    forall k | 1 <= k <= n ensures Revision(s, n, k) {
      assert Revision(store, n, k);
    }
  }

  lemma PutKeeps(store: Store, n: nat, doc: Doc)
    requires Inv(store, n) && (n > 0 ==> store[n].status == Superseded) && doc.revision == n + 1
    ensures var s := ApplyWrite(store, Put(n + 1, doc));
            && Inv(s, n + 1) && HistoryKept(store, s) && s[n + 1].doc == Some(doc) && s[n + 1].status == Deployed
  {
    var m := n + 1;
    var s := ApplyWrite(store, Put(m, doc));
    forall k | 1 <= k <= m ensures Revision(s, m, k) {
      if k <= n {
        assert Revision(store, n, k);
      }
    }
  }

  /** The plan an operation makes of a store that satisfies the invariant. */
  lemma PlanShape(store: Store, n: nat, e: Event)
    requires Inv(store, n) && Fires(store, e) && !(e.op.Install? && e.items == [] && n > 0)
    ensures var plan := Plan(e.op, e.items, e.again);
            || plan == []
            || (n == 0 && |plan| == 1 && plan[0].Put? && plan[0].rev == 1 && plan[0].doc.revision == 1)
            || (n > 0 && |plan| == 2 && plan[0] == Mark(n) && plan[1].Put? && plan[1].rev == n + 1 && plan[1].doc.revision == n + 1)
  {
    hide VersionsEqual, ValidRelease;
    if Lists(e.items, store) {
      LatestIsNewest(e.items, store, n);
    }
    if n > 0 {
      assert Revision(store, n, n);
    }
  }

  /** One operation, cut short anywhere: the revisions stay 1..n or become 1..n+1. */
  lemma NextKeeps(store: Store, n: nat, e: Event) returns (m: nat)
    requires Inv(store, n) && Fires(store, e) && !Blind(store, e)
    ensures n <= m <= n + 1 && Inv(Next(store, e), m) && HistoryKept(store, Next(store, e))
    ensures m == n + 1 <==> Plan(e.op, e.items, e.again) != [] && e.done >= |Plan(e.op, e.items, e.again)|
  {
    hide VersionsEqual, ValidRelease, Revision, Lists;
    var plan := Plan(e.op, e.items, e.again);
    if e.op.Install? && e.items == [] && n > 0 {
      assert 1 in store;
      assert plan[..0] == [] && ApplyWrites(store, []) == store;
      return n;
    }
    PlanShape(store, n, e);
    hide Plan;
    var done := if e.done < |plan| then plan[..e.done] else plan;
    if plan == [] || done == [] {
      assert ApplyWrites(store, []) == store;
      m := n;
    } else if n == 0 {
      TwoWrites(store, plan[0], plan[0]);
      assert done == [plan[0]];
      PutKeeps(store, 0, plan[0].doc);
      m := 1;
    } else {
      TwoWrites(store, plan[0], plan[1]);
      MarkKeeps(store, n);
      var s := ApplyWrite(store, Mark(n));
      if e.done < 2 {
        assert done == [plan[0]];
        m := n;
      } else {
        assert done == [plan[0], plan[1]];
        PutKeeps(s, n, plan[1].doc);
        m := n + 1;
      }
    }
  }

  /** Exactly the blind install breaks the store: with two or more revisions it
      leaves revision 1 labelled deployed beside a later one, and it rewrites the
      history unless it writes what revision 1 already holds. */
  lemma BlindInstallBreaks(store: Store, n: nat, e: Event)
    requires Inv(store, n) && Fires(store, e)
    ensures (exists m :: Inv(Next(store, e), m)) <==> !(Blind(store, e) && n > 1)
    ensures HistoryKept(store, Next(store, e)) <==>
            !(Blind(store, e) && store[1].doc != Some(Doc(1, e.op.chart, e.op.version)))
  {
    if Blind(store, e) {
      var put := Put(1, Doc(1, e.op.chart, e.op.version));
      assert Plan(e.op, e.items, e.again) == [put];
      TwoWrites(store, put, put);
      var s := Next(store, e);
      assert s == ApplyWrite(store, put);
      assert s[1].doc == Some(put.doc);
      if n == 1 {
        assert Revision(store, 1, 1);
        forall k | 1 <= k <= 1 ensures Revision(s, 1, k) {
        }
        assert Inv(s, 1);
      } else {
        forall m: nat ensures !Inv(s, m) {
          assert n in s && 1 in s && s[1].status == Deployed;
          if m > 1 {
            assert !Revision(s, m, 1);
          } else {
            assert !(1 <= n <= m);
          }
        }
      }
    } else {
      var m := NextKeeps(store, n, e);
    }
  }

  // ----- Runs -----

  ghost predicate Run(store: Store, es: seq<Event>)
    decreases |es|
  {
    es == [] || (Fires(store, es[0]) && !Blind(store, es[0]) && Run(Next(store, es[0]), es[1..]))
  }

  ghost function After(store: Store, es: seq<Event>): Store
    decreases |es|
  {
    if es == [] then store else After(Next(store, es[0]), es[1..])
  }

  lemma {:induction false} RunKeeps(store: Store, n: nat, es: seq<Event>) returns (m: nat)
    requires Inv(store, n) && Run(store, es)
    ensures n <= m && Inv(After(store, es), m) && HistoryKept(store, After(store, es))
    decreases |es|
  {
    hide Next;
    if es == [] {
      m := n;
    } else {
      var k := NextKeeps(store, n, es[0]);
      var mid := Next(store, es[0]);
      m := RunKeeps(mid, k, es[1..]);
      assert HistoryKept(mid, After(mid, es[1..]));
    }
  }

  /** Any run of installs, upgrades and rollbacks from an empty store, each cut
      short after any write: revisions 1..n, at most one labelled deployed and
      that one n, and every read returns revision n. */
  lemma RevisionsAreContiguous(es: seq<Event>, items: seq<Secret>) returns (n: nat)
    requires Run(map[], es) && Lists(items, After(map[], es))
    ensures var s := After(map[], es);
            && (forall k :: k in s <==> 1 <= k <= n)
            && (forall k :: k in s && s[k].status == Deployed ==> k == n)
            && (if n == 0 then Latest(items).None?
                else Latest(items) == Some(s[n]) && s[n].doc.Some? && s[n].doc.value.revision == n)
  {
    n := RunKeeps(map[], 0, es);
    var s := After(map[], es);
    LatestIsNewest(items, s, n);
    forall k | k in s && s[k].status == Deployed ensures k == n {
      assert Revision(s, n, k);
    }
    if n > 0 {
      assert Revision(s, n, n);
    }
  }

  /** A rollback that is not cut short succeeds exactly when the store can be
      listed and the version is valid and in the history, and then yields revision n+1 at that version, deployed. */
  lemma RollbackYieldsNext(store: Store, n: nat, e: Event)
    requires Inv(store, n) && Fires(store, e) && e.op.Rollback? && e.done >= 2
    ensures var s := Next(store, e);
            if Lists(e.items, store) && ValidRelease(e.op.to) && (exists k :: InHistory(store, k, e.op.to))
            then Inv(s, n + 1) && s[n + 1].status == Deployed && RestoredFrom(store, s[n + 1].doc, e.op.to)
            else s == store
  {
    hide VersionsEqual, ValidRelease;
    var plan := Plan(e.op, e.items, e.again);
    if !Lists(e.items, store) {
      assert plan == [] && ApplyWrites(store, []) == store;
      return;
    }
    LatestIsNewest(e.items, store, n);
    FindRevisionSpec(e.again, e.op.to);
    var prev := FindRevision(e.again, e.op.to);
    if exists k :: InHistory(store, k, e.op.to) {
      var k :| InHistory(store, k, e.op.to);
      assert store[k] in e.again;
      assert Revision(store, n, k);
      assert prev.Some?;
    }
    if prev.Some? {
      var sec :| sec in e.again && sec.doc == prev;
      var k :| StoredAt(store, k, sec);
      assert InHistory(store, k, e.op.to);
      assert Revision(store, n, k) && Revision(store, n, n);
      if ValidRelease(e.op.to) {
        var doc := Doc(n + 1, prev.value.chart, prev.value.version);
        assert plan == [Mark(n), Put(n + 1, doc)];
        TwoWrites(store, Mark(n), Put(n + 1, doc));
        MarkKeeps(store, n);
        PutKeeps(ApplyWrite(store, Mark(n)), n, doc);
        assert Restores(store, k, doc) && RestoredFrom(store, Some(doc), e.op.to);
      }
    }
  }

  /** An upgrade that is not cut short stores revision n+1 at the version it was
      asked for, deployed, and leaves revision n superseded. */
  lemma UpgradeYieldsNext(store: Store, n: nat, e: Event)
    requires Inv(store, n) && n > 0 && Lists(e.items, store) && e.op.Upgrade? && e.done >= 2
    ensures var s := Next(store, e);
            && Inv(s, n + 1) && HistoryKept(store, s)
            && s[n + 1].doc == Some(Doc(n + 1, e.op.chart, e.op.version)) && s[n + 1].status == Deployed && s[n + 1].owned
            && s[n].status == Superseded
  {
    LatestIsNewest(e.items, store, n);
    assert Revision(store, n, n);
    var doc := Doc(n + 1, e.op.chart, e.op.version);
    assert Plan(e.op, e.items, e.again) == [Mark(n), Put(n + 1, doc)];
    TwoWrites(store, Mark(n), Put(n + 1, doc));
    MarkKeeps(store, n);
    PutKeeps(ApplyWrite(store, Mark(n)), n, doc);
  }

  /** An install into an empty store that is not cut short stores revision 1 at the
      version it was asked for; into any other that is listed it writes nothing. */
  lemma InstallYieldsFirst(store: Store, n: nat, e: Event)
    requires Inv(store, n) && Lists(e.items, store) && e.op.Install? && e.done >= 1
    ensures var s := Next(store, e);
            if n == 0
            then Inv(s, 1) && s[1].doc == Some(Doc(1, e.op.chart, e.op.version)) && s[1].status == Deployed && s[1].owned
            else s == store
  {
    LatestIsNewest(e.items, store, n);
    var put := Put(1, Doc(1, e.op.chart, e.op.version));
    TwoWrites(store, put, put);
    if n == 0 {
      assert Plan(e.op, e.items, e.again) == [put];
      PutKeeps(store, 0, put.doc);
    }
  }

  ghost predicate InHistory(store: Store, k: int, v: string) {
    k in store && store[k].doc.Some? && VersionsEqual(store[k].doc.value.version, v)
  }

  /** The new revision copies the chart and version of an earlier one. */
  ghost predicate Restores(store: Store, k: int, doc: Doc) {
    k in store && store[k].doc.Some? && store[k].doc.value.chart == doc.chart && store[k].doc.value.version == doc.version
  }

  ghost predicate RestoredFrom(store: Store, doc: Option<Doc>, v: string) {
    doc.Some? && VersionsEqual(doc.value.version, v) && exists k :: Restores(store, k, doc.value)
  }
}
