/** The storage operations as sequences of atomic actions. Each operation's plan
    runs, ends in the state the operation is specified to produce, and passes
    only through safe states; a crash leaves the state after some prefix. */
module Operations {
  import opened Bytes
  import opened Store
  import opened Safety

  /** FailOp is a put or commit that ends in an I/O error of its own: at most the
      session's expiry has happened, and for a put that failed in its transaction the
      file is there. */
  datatype Op =
    | CreateOp(id: SessionId, ident: Ident, size: U64, digest: Digest, owner: string, syntaxOk: bool)
    | PutOp(id: SessionId, ordinal: nat, data: Bytes)
    | CommitOp(id: SessionId, room: nat)
    | FailOp(id: SessionId, data: Bytes, stored: bool)
    | AbortOp(id: SessionId)
    | DeleteOp(ident: Ident)
    | GcOp(dryRun: bool)
    | MaintainOp

  /** Session ids are fresh, and only contents of the corpus are uploaded. */
  ghost predicate Admissible(cfg: Config, s: State, op: Op) {
    match op
    case CreateOp(id, _, _, _, _, _) => id !in s.sessions
    case PutOp(_, _, data) => cfg.corpus(data)
    case FailOp(_, data, stored) => stored ==> cfg.corpus(data) && |data| < TWO_64
    case _ => true
  }

  /** A session's expiry, if it exists and is due. */
  function Expired(s: State, id: SessionId, now: int): State {
    if id in s.sessions then ExpireIfDue(s, id, now) else s
  }

  function Failed(cfg: Config, s: State, now: int, id: SessionId, data: Bytes, stored: bool): State {
    var t := Expired(s, id, now);
    if stored && id in s.sessions then StoreFile(t, cfg.sha(data), data) else t
  }

  ghost function OpState(cfg: Config, s: State, op: Op, now: int): State
  {
    match op
    case CreateOp(id, ident, size, digest, owner, ok) =>
      CreateSession(cfg, s, now, id, ident, size, digest, owner, ok).0
    case PutOp(id, ordinal, data) => PutChunk(cfg, s, now, id, ordinal, data).0
    case CommitOp(id, room) => CommitSession(cfg, s, now, id, room).0
    case FailOp(id, data, stored) => Failed(cfg, s, now, id, data, stored)
    case AbortOp(id) => AbortSession(s, now, id).0
    case DeleteOp(ident) => DeleteArtifact(s, now, ident).0
    case GcOp(dryRun) => CollectGarbage(cfg, s, now, dryRun).0
    case MaintainOp => RunMaintenance(s, now).0
  }

  // ---- Running a plan -------------------------------------------------------------

  /** Every action is enabled where it is reached. */
  ghost predicate Runs(cfg: Config, s: State, plan: seq<Action>, now: int)
    decreases |plan|
  {
    plan == [] ||
    (Enabled(cfg, s, plan[0], now) && Runs(cfg, Apply(cfg, s, plan[0], now), plan[1..], now))
  }

  /** The state a plan leads to; it stops where an action is not enabled. */
  ghost function After(cfg: Config, s: State, plan: seq<Action>, now: int): State
    decreases |plan|
  {
    if plan == [] || !Enabled(cfg, s, plan[0], now) then s
    else After(cfg, Apply(cfg, s, plan[0], now), plan[1..], now)
  }

  lemma {:induction false} RunsAppend(cfg: Config, s: State, p: seq<Action>, q: seq<Action>, now: int)
    requires Runs(cfg, s, p, now)
    ensures Runs(cfg, s, p + q, now) <==> Runs(cfg, After(cfg, s, p, now), q, now)
    ensures Runs(cfg, s, p + q, now) ==>
              After(cfg, s, p + q, now) == After(cfg, After(cfg, s, p, now), q, now)
    decreases |p|
  {
    hide Enabled, Apply;
    if p == [] {
      assert p + q == q;
    } else {
      assert (p + q)[0] == p[0] && (p + q)[1..] == p[1..] + q;
      RunsAppend(cfg, Apply(cfg, s, p[0], now), p[1..], q, now);
    }
  }

  lemma {:induction false} RunsPrefix(cfg: Config, s: State, p: seq<Action>, k: nat, now: int)
    requires Runs(cfg, s, p, now) && k <= |p|
    ensures Runs(cfg, s, p[..k], now)
    decreases |p|
  {
    hide Enabled, Apply;
    if k != 0 {
      assert p[..k][1..] == p[1..][..k - 1];
      RunsPrefix(cfg, Apply(cfg, s, p[0], now), p[1..], k - 1, now);
    }
  }

  lemma {:induction false} RunSafe(cfg: Config, s: State, p: seq<Action>, now: int)
    requires ValidConfig(cfg) && Safe(cfg, s) && Runs(cfg, s, p, now)
    ensures Safe(cfg, After(cfg, s, p, now))
    decreases |p|
  {
    hide Enabled, Apply, Safe, ValidConfig;
    if p != [] {
      ActionSafe(cfg, s, p[0], now);
      RunSafe(cfg, Apply(cfg, s, p[0], now), p[1..], now);
    }
  }

  lemma RunOne(cfg: Config, s: State, a: Action, now: int)
    ensures Runs(cfg, s, [a], now) <==> Enabled(cfg, s, a, now)
    ensures Enabled(cfg, s, a, now) ==> After(cfg, s, [a], now) == Apply(cfg, s, a, now)
  {
    hide Enabled, Apply;
    assert [a][1..] == [];
    if Enabled(cfg, s, a, now) {
      assert Runs(cfg, Apply(cfg, s, a, now), [], now);
    }
  }

  lemma RunTwo(cfg: Config, s: State, a: Action, b: Action, now: int)
    requires Enabled(cfg, s, a, now) && Enabled(cfg, Apply(cfg, s, a, now), b, now)
    ensures Runs(cfg, s, [a, b], now)
    ensures After(cfg, s, [a, b], now) == Apply(cfg, Apply(cfg, s, a, now), b, now)
  {
    hide Enabled, Apply;
    RunOne(cfg, s, a, now);
    RunOne(cfg, Apply(cfg, s, a, now), b, now);
    RunsAppend(cfg, s, [a], [b], now);
    assert [a] + [b] == [a, b];
  }

  // ---- Plans ------------------------------------------------------------------------

  function Elems<T>(xs: seq<T>): set<T> { set x | x in xs }

  /** The rows of a query, in some order. */
  ghost function Listing<T>(xs: set<T>): (r: seq<T>)
    ensures Elems(r) == xs
  {
    if xs == {} then []
    else
      var x :| x in xs;
      var r := Listing(xs - {x});
      assert Elems([x] + r) == {x} + Elems(r);
      [x] + r
  }

  /** The UPDATE statements of the marking loop: one per unreferenced digest. */
  function MarkList(s: State, ds: seq<Digest>): seq<Action> {
    if ds == [] then []
    else (if Referenced(s, ds[0]) then [] else [Mark(ds[0])]) + MarkList(s, ds[1..])
  }

  ghost function RetirePlan(s: State, id: SessionId): seq<Action>
  {
    [DropRows(id)] + MarkList(DropParts(s, id), Listing(DigestsOf(s, id)))
  }

  ghost function ExpirePlan(s: State, id: SessionId, now: int): seq<Action>
    requires id in s.sessions
  {
    if Due(s.sessions[id], now) then [ExpireOne(id)] + RetirePlan(WithState(s, id, EXPIRED), id) else []
  }

  ghost function PutPlan(cfg: Config, s: State, id: SessionId, ordinal: nat, data: Bytes): seq<Action>
    requires id in s.sessions
  {
    var x := s.sessions[id];
    if x.state != OPEN || ordinal >= Count(x) || |data| == 0 || |data| > x.chunkSize then []
    else if PartKey(id, ordinal) in s.parts then [Put(data)]
    else [Put(data), RegisterTx(PartKey(id, ordinal), data)]
  }

  ghost function CommitPlan(cfg: Config, s: State, id: SessionId, room: nat): seq<Action>
    requires id in s.sessions
  {
    if s.sessions[id].state != OPEN then []
    else if Count(s.sessions[id]) > room then [Begin(id)]
    else if CheckUpload(cfg, s, id) == OK then [Begin(id), PublishTx(id)]
    else [Begin(id), Rollback(id)]
  }

  function SweepPlan(ds: seq<Digest>): seq<Action> {
    if ds == [] then [] else [Unlink(ds[0]), DropRow(ds[0])] + SweepPlan(ds[1..])
  }

  function DeadIds(s: State): set<SessionId> {
    set id | id in s.sessions && Dead(s.sessions[id].state)
  }

  ghost function RetireAllPlan(s: State, ids: seq<SessionId>, now: int): seq<Action>
    decreases |ids|
  {
    if ids == [] then []
    else RetirePlan(s, ids[0]) + RetireAllPlan(MarkParts(s, ids[0], now), ids[1..], now)
  }

  ghost function Plan(cfg: Config, s: State, op: Op, now: int): seq<Action>
  {
    match op
    case CreateOp(id, ident, size, digest, owner, ok) =>
      if CreateSession(cfg, s, now, id, ident, size, digest, owner, ok).1.Ok?
      then [Create(id, NewSession(cfg, now, ident, size, digest, owner))] else []
    case PutOp(id, ordinal, data) =>
      if id !in s.sessions then []
      else
        ExpirePlan(s, id, now) + PutPlan(cfg, ExpireIfDue(s, id, now), id, ordinal, data)
    case CommitOp(id, room) =>
      if id !in s.sessions then []
      else
        ExpirePlan(s, id, now) + CommitPlan(cfg, ExpireIfDue(s, id, now), id, room)
    case FailOp(id, data, stored) =>
      if id !in s.sessions then []
      else ExpirePlan(s, id, now) + (if stored then [Put(data)] else [])
    case AbortOp(id) =>
      if id in s.sessions && Live(s.sessions[id].state) then [Abort(id)] else []
    case DeleteOp(ident) => if ident in s.artifacts then [Delete(ident)] else []
    case GcOp(dryRun) => if dryRun then [] else SweepPlan(Listing(Garbage(cfg, s, now)))
    case MaintainOp =>
      var s1 := ReopenAll(ExpireAllDue(s, now));
      [ExpireDue, Reopen] + RetireAllPlan(s1, Listing(DeadIds(s1)), now)
  }

  // ---- Marking ------------------------------------------------------------------------

  lemma MarkAllNone(s: State, now: int)
    ensures MarkAll(s, {}, now) == s
  {
    assert MarkAll(s, {}, now).chunks == s.chunks;
  }

  lemma MarkAllMore(s: State, ds: set<Digest>, es: set<Digest>, now: int)
    ensures MarkAll(MarkAll(s, ds, now), es, now) == MarkAll(s, ds + es, now)
  {
    var t := MarkAll(s, ds, now);
    SameRefs(s, t);
    hide Referenced;
    assert MarkAll(t, es, now).chunks == MarkAll(s, ds + es, now).chunks;
  }

  lemma MarkReferenced(s: State, d: Digest, now: int)
    requires Referenced(s, d)
    ensures MarkAll(s, {d}, now) == s
  {
    hide Referenced;
    assert MarkAll(s, {d}, now).chunks == s.chunks;
  }

  lemma {:induction false} MarkListSame(s: State, t: State, ds: seq<Digest>)
    requires forall d :: Referenced(t, d) <==> Referenced(s, d)
    ensures MarkList(t, ds) == MarkList(s, ds)
  {
    hide Referenced;
    if ds != [] {
      MarkListSame(s, t, ds[1..]);
    }
  }

  lemma {:induction false} MarkListRuns(cfg: Config, s: State, ds: seq<Digest>, now: int)
    ensures Runs(cfg, s, MarkList(s, ds), now)
    ensures After(cfg, s, MarkList(s, ds), now) == MarkAll(s, Elems(ds), now)
    decreases |ds|
  {
    if ds == [] {
      MarkAllNone(s, now);
      assert Elems(ds) == {};
    } else {
      var d, rest := ds[0], ds[1..];
      var t := MarkAll(s, {d}, now);
      SameRefs(s, t);
      MarkAllMore(s, {d}, Elems(rest), now);
      assert Elems(ds) == {d} + Elems(rest);
      MarkListRuns(cfg, t, rest, now);
      MarkListSame(s, t, rest);
      if Referenced(s, d) {
        MarkReferenced(s, d, now);
        assert MarkList(s, ds) == MarkList(s, rest);
      } else {
        var a := Mark(d);
        assert Enabled(cfg, s, a, now) && Apply(cfg, s, a, now) == t;
        assert ([a] + MarkList(s, rest))[1..] == MarkList(s, rest);
        hide Enabled, Apply, MarkAll, MarkList, Referenced;
        assert Runs(cfg, s, [a] + MarkList(s, rest), now);
      }
    }
  }

  lemma RetireRuns(cfg: Config, s: State, id: SessionId, now: int)
    requires id in s.sessions && Dead(s.sessions[id].state)
    ensures Runs(cfg, s, RetirePlan(s, id), now)
    ensures After(cfg, s, RetirePlan(s, id), now) == MarkParts(s, id, now)
  {
    var t := DropParts(s, id);
    var ds := Listing(DigestsOf(s, id));
    assert Enabled(cfg, s, DropRows(id), now) && Apply(cfg, s, DropRows(id), now) == t;
    hide Enabled, Apply, MarkAll, MarkList, DropParts, DigestsOf, Runs, After;
    RunOne(cfg, s, DropRows(id), now);
    MarkListRuns(cfg, t, ds, now);
    RunsAppend(cfg, s, [DropRows(id)], MarkList(t, ds), now);
  }

  lemma ExpireRuns(cfg: Config, s: State, id: SessionId, now: int)
    requires id in s.sessions
    ensures Runs(cfg, s, ExpirePlan(s, id, now), now)
    ensures After(cfg, s, ExpirePlan(s, id, now), now) == ExpireIfDue(s, id, now)
  {
    if Due(s.sessions[id], now) {
      var t := WithState(s, id, EXPIRED);
      assert Enabled(cfg, s, ExpireOne(id), now) && Apply(cfg, s, ExpireOne(id), now) == t;
      RetireRuns(cfg, t, id, now);
      hide Enabled, Apply, RetirePlan, Runs, After;
      RunOne(cfg, s, ExpireOne(id), now);
      RunsAppend(cfg, s, [ExpireOne(id)], RetirePlan(t, id), now);
    }
  }

  // ---- Put and commit ----------------------------------------------------------------------

  lemma NotDueAfterExpire(s: State, id: SessionId, now: int)
    requires id in s.sessions
    ensures !Due(ExpireIfDue(s, id, now).sessions[id], now)
    ensures ExpireIfDue(s, id, now).sessions[id] ==
            s.sessions[id].(state := ExpireIfDue(s, id, now).sessions[id].state)
  {
  }

  lemma PutRuns(cfg: Config, s: State, id: SessionId, ordinal: nat, data: Bytes, now: int)
    requires id in s.sessions && !Due(s.sessions[id], now) && cfg.corpus(data)
    ensures Runs(cfg, s, PutPlan(cfg, s, id, ordinal, data), now)
    ensures After(cfg, s, PutPlan(cfg, s, id, ordinal, data), now) == PutChunk(cfg, s, now, id, ordinal, data).0
  {
    var x := s.sessions[id];
    var plan := PutPlan(cfg, s, id, ordinal, data);
    var k := PartKey(id, ordinal);
    hide Count, ChunkCount;
    assert Count(x) == ChunkCount(x.expectedSize, x.chunkSize) by { CountDef(x); }
    if plan != [] {
      var t := StoreFile(s, cfg.sha(data), data);
      assert Enabled(cfg, s, Put(data), now) && Apply(cfg, s, Put(data), now) == t;
      RunOne(cfg, s, Put(data), now);
      if k !in s.parts {
        assert Enabled(cfg, t, RegisterTx(k, data), now);
        RunTwo(cfg, s, Put(data), RegisterTx(k, data), now);
      }
    }
  }

  lemma CountDef(x: Session)
    ensures Count(x) == ChunkCount(x.expectedSize, x.chunkSize)
  {
  }

  /** The verdict does not depend on the session's own state. */
  lemma CheckIgnoresState(cfg: Config, s: State, id: SessionId, st: SessionState)
    requires id in s.sessions
    ensures CheckUpload(cfg, WithState(s, id, st), id) == CheckUpload(cfg, s, id)
  {
    var t := WithState(s, id, st);
    assert Count(t.sessions[id]) == Count(s.sessions[id]);
    assert Contiguous(t, id, Count(s.sessions[id])) == Contiguous(s, id, Count(s.sessions[id]));
  }

  lemma WithStateTwice(s: State, id: SessionId, a: SessionState, b: SessionState)
    requires id in s.sessions
    ensures WithState(WithState(s, id, a), id, b) == WithState(s, id, b)
    ensures s.sessions[id].state == a ==> WithState(s, id, a) == s
  {
    var t := WithState(WithState(s, id, a), id, b);
    assert t.sessions == s.sessions[id := s.sessions[id].(state := b)];
  }

  lemma PublishIgnoresState(cfg: Config, s: State, id: SessionId, now: int)
    requires id in s.sessions && CheckUpload(cfg, s, id) == OK
    ensures var t := WithState(s, id, COMMITTING);
            CheckUpload(cfg, t, id) == OK && Publish(t, id, now) == Publish(s, id, now)
  {
    var t := WithState(s, id, COMMITTING);
    CheckIgnoresState(cfg, s, id, COMMITTING);
    assert Count(t.sessions[id]) == Count(s.sessions[id]);
    assert NewArtifact(t, id, now) == NewArtifact(s, id, now);
    var a := NewArtifact(s, id, now);
    var u := s.(artifacts := s.artifacts[s.sessions[id].ident := a], chunks := ReactivateAll(s.chunks, a.manifest));
    WithStateTwice(u, id, COMMITTING, COMPLETED);
    hide ReactivateAll, CheckUpload, Manifest, Count, Contiguous;
    assert t.(artifacts := t.artifacts[t.sessions[id].ident := a],
              chunks := ReactivateAll(t.chunks, a.manifest)) == WithState(u, id, COMMITTING);
  }

  lemma CommitRuns(cfg: Config, s: State, id: SessionId, room: nat, now: int)
    requires id in s.sessions && !Due(s.sessions[id], now)
    ensures Runs(cfg, s, CommitPlan(cfg, s, id, room), now)
    ensures After(cfg, s, CommitPlan(cfg, s, id, room), now) == CommitSession(cfg, s, now, id, room).0
  {
    if s.sessions[id].state == OPEN {
      var t := WithState(s, id, COMMITTING);
      assert Enabled(cfg, s, Begin(id), now) && Apply(cfg, s, Begin(id), now) == t;
      if Count(s.sessions[id]) > room {
        hide CheckUpload, Publish, Count;
        RunOne(cfg, s, Begin(id), now);
      } else if CheckUpload(cfg, s, id) == OK {
        PublishIgnoresState(cfg, s, id, now);
        hide CheckUpload, Publish;
        assert Enabled(cfg, t, PublishTx(id), now);
        RunTwo(cfg, s, Begin(id), PublishTx(id), now);
      } else {
        WithStateTwice(s, id, COMMITTING, OPEN);
        WithStateTwice(s, id, OPEN, OPEN);
        hide CheckUpload, Publish;
        assert Enabled(cfg, t, Rollback(id), now);
        RunTwo(cfg, s, Begin(id), Rollback(id), now);
      }
    }
  }

  // ---- Sweeping and maintenance --------------------------------------------------------------

  lemma SweepNone(s: State)
    ensures Sweep(s, {}) == s
  {
    assert s.chunks - {} == s.chunks && s.files - {} == s.files;
  }

  lemma SweepMore(s: State, ds: set<Digest>, es: set<Digest>)
    ensures Sweep(Sweep(s, ds), es) == Sweep(s, ds + es)
  {
    assert s.chunks - ds - es == s.chunks - (ds + es);
    assert s.files - ds - es == s.files - (ds + es);
  }

  lemma {:induction false} SweepRuns(cfg: Config, s: State, ds: seq<Digest>, now: int)
    requires forall d :: d in ds ==> Ripe(cfg, s, d, now) && !Referenced(s, d)
    requires forall i, j :: 0 <= i < j < |ds| ==> ds[i] != ds[j]
    ensures Runs(cfg, s, SweepPlan(ds), now)
    ensures After(cfg, s, SweepPlan(ds), now) == Sweep(s, Elems(ds))
    decreases |ds|
  {
    if ds == [] {
      SweepNone(s);
      assert Elems(ds) == {};
    } else {
      var d, rest := ds[0], ds[1..];
      var t := s.(files := s.files - {d});
      SameRefs(s, t);
      var u := Sweep(s, {d});
      SameRefs(s, u);
      assert Enabled(cfg, s, Unlink(d), now) && Apply(cfg, s, Unlink(d), now) == t;
      assert Enabled(cfg, t, DropRow(d), now) && Apply(cfg, t, DropRow(d), now) == u;
      RunTwo(cfg, s, Unlink(d), DropRow(d), now);
      forall e | e in rest ensures Ripe(cfg, u, e, now) && !Referenced(u, e) {
        assert e in ds && e != d;
      }
      hide Enabled, Apply, Ripe, Referenced, Sweep;
      SweepRuns(cfg, u, rest, now);
      SweepMore(s, {d}, Elems(rest));
      assert Elems(ds) == {d} + Elems(rest);
      RunsAppend(cfg, s, [Unlink(d), DropRow(d)], SweepPlan(rest), now);
    }
  }

  function DropSet(s: State, ids: set<SessionId>): State {
    s.(parts := map k | k in s.parts && k.session !in ids :: s.parts[k])
  }

  function DigestsIn(s: State, ids: set<SessionId>): set<Digest> {
    set k | k in s.parts && k.session in ids :: s.parts[k].digest
  }

  /** Dropping rows of dead sessions takes no reference away. */
  lemma DropDeadRefs(s: State, ids: set<SessionId>)
    requires forall id :: id in ids && id in s.sessions ==> Dead(s.sessions[id].state)
    ensures forall d :: Referenced(DropSet(s, ids), d) <==> Referenced(s, d)
  {
    var t := DropSet(s, ids);
    RefsSubset(s, t);
    RefsSubsetDead(s, t, ids);
  }

  lemma RefsSubsetDead(s: State, t: State, ids: set<SessionId>)
    requires t == DropSet(s, ids)
    requires forall id :: id in ids && id in s.sessions ==> Dead(s.sessions[id].state)
    ensures forall d :: Referenced(s, d) ==> Referenced(t, d)
  {
    forall d | Referenced(s, d) ensures Referenced(t, d) {
      if ByArtifact(s, d) {
        assert ByArtifact(t, d);
      } else {
        var k :| k in s.parts && LivePart(s, k) && s.parts[k].digest == d;
        assert k in t.parts && LivePart(t, k) && ByUpload(t, d);
      }
    }
  }

  lemma DropMore(s: State, ids: set<SessionId>, id: SessionId)
    requires id !in ids
    ensures DropParts(DropSet(s, ids), id) == DropSet(s, ids + {id})
    ensures DigestsIn(s, ids + {id}) == DigestsIn(s, ids) + DigestsOf(DropSet(s, ids), id)
  {
    assert DropParts(DropSet(s, ids), id).parts == DropSet(s, ids + {id}).parts;
  }

  /** Marking and dropping commute where the drop takes no reference away. */
  lemma MarkDrop(s: State, ds: set<Digest>, id: SessionId, now: int)
    requires forall d :: Referenced(DropParts(s, id), d) <==> Referenced(s, d)
    ensures DropParts(MarkAll(s, ds, now), id) == MarkAll(DropParts(s, id), ds, now)
    ensures DigestsOf(MarkAll(s, ds, now), id) == DigestsOf(s, id)
  {
    hide Referenced;
    assert DropParts(MarkAll(s, ds, now), id).chunks == MarkAll(DropParts(s, id), ds, now).chunks;
  }

  /** One more dead session retired: the marks and the drops commute. */
  lemma RetireMore(s: State, ids: set<SessionId>, id: SessionId, now: int)
    requires forall j :: j in ids + {id} && j in s.sessions ==> Dead(s.sessions[j].state)
    requires id !in ids
    ensures var t := MarkAll(DropSet(s, ids), DigestsIn(s, ids), now);
            MarkParts(t, id, now) == MarkAll(DropSet(s, ids + {id}), DigestsIn(s, ids + {id}), now)
  {
    DropDeadRefs(s, ids);
    DropDeadRefs(s, ids + {id});
    DropMore(s, ids, id);
    hide Referenced, DropSet, DropParts, DigestsIn, DigestsOf, MarkAll;
    MarkDrop(DropSet(s, ids), DigestsIn(s, ids), id, now);
    MarkAllMore(DropSet(s, ids + {id}), DigestsIn(s, ids), DigestsOf(DropSet(s, ids), id), now);
  }

  lemma {:induction false} RetireAllRuns(cfg: Config, s: State, done: set<SessionId>, ids: seq<SessionId>, now: int)
    requires forall j :: j in done + Elems(ids) ==> j in s.sessions && Dead(s.sessions[j].state)
    requires forall i, j :: 0 <= i < j < |ids| ==> ids[i] != ids[j]
    requires done !! Elems(ids)
    ensures var t := MarkAll(DropSet(s, done), DigestsIn(s, done), now);
            && Runs(cfg, t, RetireAllPlan(t, ids, now), now)
            && After(cfg, t, RetireAllPlan(t, ids, now), now)
               == MarkAll(DropSet(s, done + Elems(ids)), DigestsIn(s, done + Elems(ids)), now)
    decreases |ids|
  {
    var t := MarkAll(DropSet(s, done), DigestsIn(s, done), now);
    if ids == [] {
      assert done + Elems(ids) == done;
    } else {
      var id, rest := ids[0], ids[1..];
      assert Elems(ids) == {id} + Elems(rest);
      assert done + {id} + Elems(rest) == done + Elems(ids);
      RetireMore(s, done, id, now);
      assert t.sessions == s.sessions;
      RetireRuns(cfg, t, id, now);
      hide MarkParts, RetirePlan, MarkAll, DigestsIn, DropSet, Runs, After;
      RetireAllRuns(cfg, s, done + {id}, rest, now);
      RunsAppend(cfg, t, RetirePlan(t, id), RetireAllPlan(MarkParts(t, id, now), rest, now), now);
    }
  }

  ghost function UniqueListing<T>(xs: set<T>): (r: seq<T>)
    ensures r == Listing(xs)
    ensures forall i, j :: 0 <= i < j < |r| ==> r[i] != r[j]
  {
    if xs == {} then []
    else
      var x :| x in xs && Listing(xs) == [x] + Listing(xs - {x});
      var r := UniqueListing(xs - {x});
      assert forall y :: y in r ==> y in Elems(r);
      [x] + r
  }

  lemma DropNone(s: State, now: int)
    ensures MarkAll(DropSet(s, {}), DigestsIn(s, {}), now) == s
  {
    assert DropSet(s, {}).parts == s.parts;
    assert DigestsIn(s, {}) == {};
    MarkAllNone(s, now);
  }

  lemma DropDeadIsDropSet(s: State)
    ensures DropDeadParts(s) == DropSet(s, DeadIds(s))
    ensures DeadDigests(s) == DigestsIn(s, DeadIds(s))
  {
    assert forall k :: k in s.parts ==> (DeadKey(s, k) <==> k.session in DeadIds(s));
    assert DropDeadParts(s).parts == DropSet(s, DeadIds(s)).parts;
  }

  lemma ExpireReopenRuns(cfg: Config, s: State, now: int)
    ensures Runs(cfg, s, [ExpireDue, Reopen], now)
    ensures After(cfg, s, [ExpireDue, Reopen], now) == ReopenAll(ExpireAllDue(s, now))
  {
    var s0 := ExpireAllDue(s, now);
    hide ExpireAllDue, ReopenAll;
    assert Enabled(cfg, s, ExpireDue, now) && Apply(cfg, s, ExpireDue, now) == s0;
    assert Enabled(cfg, s0, Reopen, now) && Apply(cfg, s0, Reopen, now) == ReopenAll(s0);
    RunTwo(cfg, s, ExpireDue, Reopen, now);
  }

  lemma MaintainRuns(cfg: Config, s: State, now: int)
    ensures Runs(cfg, s, Plan(cfg, s, MaintainOp, now), now)
    ensures After(cfg, s, Plan(cfg, s, MaintainOp, now), now) == RunMaintenance(s, now).0
  {
    var s1 := ReopenAll(ExpireAllDue(s, now));
    var ids := UniqueListing(DeadIds(s1));
    ExpireReopenRuns(cfg, s, now);
    DropNone(s1, now);
    DropDeadIsDropSet(s1);
    hide Enabled, Apply, MarkAll, DropSet, DigestsIn, ReopenAll, ExpireAllDue, Runs, After, DropDeadParts, DeadDigests;
    assert {} + Elems(ids) == DeadIds(s1);
    RetireAllRuns(cfg, s1, {}, ids, now);
    RunsAppend(cfg, s, [ExpireDue, Reopen], RetireAllPlan(s1, ids, now), now);
  }

  // ---- Every operation is its plan -----------------------------------------------------------

  /** A chunk pending deletion is unreferenced in every safe state, so the sweep
      never has anything to re-activate. */
  lemma NothingToRescue(cfg: Config, s: State, now: int)
    requires LiveOk(s)
    ensures Rescued(cfg, s, now) == {}
    ensures Rescue(s, Rescued(cfg, s, now)) == s
  {
    assert forall d :: Referenced(s, d) ==> Alive(s, d);
    assert Rescued(cfg, s, now) == {};
    assert Rescue(s, {}).chunks == s.chunks;
  }

  lemma CreateRuns(cfg: Config, s: State, op: Op, now: int)
    requires ValidConfig(cfg) && SessionsOk(s) && op.CreateOp? && Admissible(cfg, s, op)
    ensures Runs(cfg, s, Plan(cfg, s, op, now), now)
    ensures After(cfg, s, Plan(cfg, s, op, now), now) == OpState(cfg, s, op, now)
  {
    var plan := Plan(cfg, s, op, now);
    hide UsedBytes, OpenOf, Watermark, CollisionFree;
    if plan != [] {
      assert Enabled(cfg, s, plan[0], now);
      RunOne(cfg, s, plan[0], now);
    }
  }

  lemma PlanRuns(cfg: Config, s: State, op: Op, now: int)
    requires ValidConfig(cfg) && Safe(cfg, s) && Admissible(cfg, s, op)
    ensures Runs(cfg, s, Plan(cfg, s, op, now), now)
    ensures After(cfg, s, Plan(cfg, s, op, now), now) == OpState(cfg, s, op, now)
  {
    match op {
      case CreateOp(_, _, _, _, _, _) =>
        CreateRuns(cfg, s, op, now);
      case PutOp(id, ordinal, data) =>
        if id in s.sessions {
          PutOpRuns(cfg, s, id, ordinal, data, now);
        }
      case CommitOp(id, room) =>
        if id in s.sessions {
          CommitOpRuns(cfg, s, id, room, now);
        }
      case FailOp(id, data, stored) =>
        if id in s.sessions {
          FailOpRuns(cfg, s, id, data, stored, now);
        }
      case AbortOp(id) =>
        if id in s.sessions && Live(s.sessions[id].state) {
          RunOne(cfg, s, Abort(id), now);
        }
      case DeleteOp(ident) =>
        if ident in s.artifacts {
          RunOne(cfg, s, Delete(ident), now);
        }
      case GcOp(dryRun) =>
        GcRuns(cfg, s, dryRun, now);
      case MaintainOp =>
        MaintainRuns(cfg, s, now);
    }
  }

  lemma PutOpRuns(cfg: Config, s: State, id: SessionId, ordinal: nat, data: Bytes, now: int)
    requires id in s.sessions && cfg.corpus(data)
    ensures var op := PutOp(id, ordinal, data);
            Runs(cfg, s, Plan(cfg, s, op, now), now)
            && After(cfg, s, Plan(cfg, s, op, now), now) == OpState(cfg, s, op, now)
  {
    var s1 := ExpireIfDue(s, id, now);
    NotDueAfterExpire(s, id, now);
    ExpireRuns(cfg, s, id, now);
    PutRuns(cfg, s1, id, ordinal, data, now);
    ExpireTwice(s, id, now);
    hide ExpireIfDue, ExpirePlan, PutPlan, Runs, After, StoreFile, Register, ChunkCount;
    RunsAppend(cfg, s, ExpirePlan(s, id, now), PutPlan(cfg, s1, id, ordinal, data), now);
  }

  lemma ExpireTwice(s: State, id: SessionId, now: int)
    requires id in s.sessions
    ensures ExpireIfDue(ExpireIfDue(s, id, now), id, now) == ExpireIfDue(s, id, now)
  {
  }

  lemma CommitOpRuns(cfg: Config, s: State, id: SessionId, room: nat, now: int)
    requires id in s.sessions
    ensures var op := CommitOp(id, room);
            Runs(cfg, s, Plan(cfg, s, op, now), now)
            && After(cfg, s, Plan(cfg, s, op, now), now) == OpState(cfg, s, op, now)
  {
    var s1 := ExpireIfDue(s, id, now);
    NotDueAfterExpire(s, id, now);
    ExpireRuns(cfg, s, id, now);
    CommitRuns(cfg, s1, id, room, now);
    ExpireTwice(s, id, now);
    hide ExpireIfDue, ExpirePlan, CommitPlan, Runs, After, CheckUpload, Publish, NewArtifact;
    RunsAppend(cfg, s, ExpirePlan(s, id, now), CommitPlan(cfg, s1, id, room), now);
  }

  lemma FailOpRuns(cfg: Config, s: State, id: SessionId, data: Bytes, stored: bool, now: int)
    requires id in s.sessions && (stored ==> cfg.corpus(data))
    ensures var op := FailOp(id, data, stored);
            Runs(cfg, s, Plan(cfg, s, op, now), now)
            && After(cfg, s, Plan(cfg, s, op, now), now) == OpState(cfg, s, op, now)
  {
    var s1 := ExpireIfDue(s, id, now);
    ExpireRuns(cfg, s, id, now);
    RunOne(cfg, s1, Put(data), now);
    hide ExpireIfDue, ExpirePlan, Runs, After, StoreFile;
    if stored {
      RunsAppend(cfg, s, ExpirePlan(s, id, now), [Put(data)], now);
    } else {
      assert ExpirePlan(s, id, now) + [] == ExpirePlan(s, id, now);
    }
  }

  lemma GcRuns(cfg: Config, s: State, dryRun: bool, now: int)
    requires LiveOk(s)
    ensures var op := GcOp(dryRun);
            Runs(cfg, s, Plan(cfg, s, op, now), now)
            && After(cfg, s, Plan(cfg, s, op, now), now) == OpState(cfg, s, op, now)
  {
    NothingToRescue(cfg, s, now);
    if !dryRun {
      var ds := UniqueListing(Garbage(cfg, s, now));
      assert forall d :: d in ds ==> d in Elems(ds);
      SweepRuns(cfg, s, ds, now);
    }
  }

  /** Main result: whatever prefix of an operation's statements was executed
      before a crash, the state left behind is safe; run to its end, it is the
      state the operation specifies. */
  lemma CrashSafe(cfg: Config, s: State, op: Op, now: int, k: nat)
    requires ValidConfig(cfg) && Safe(cfg, s) && Admissible(cfg, s, op)
    requires k <= |Plan(cfg, s, op, now)|
    ensures var plan := Plan(cfg, s, op, now);
            && Runs(cfg, s, plan[..k], now)
            && Safe(cfg, After(cfg, s, plan[..k], now))
            && (k == |plan| ==> After(cfg, s, plan[..k], now) == OpState(cfg, s, op, now))
  {
    hide Safe, ValidConfig, Runs, After, OpState, Plan, Admissible;
    var plan := Plan(cfg, s, op, now);
    PlanRuns(cfg, s, op, now);
    RunsPrefix(cfg, s, plan, k, now);
    RunSafe(cfg, s, plan[..k], now);
    if k == |plan| {
      assert plan[..k] == plan;
    }
  }
}
