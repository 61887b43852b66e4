/** Without crashes the cached chunk state is exact: a chunk row is ACTIVE exactly
    when something references it. With crashes only one half survives; when
    recovery restores the other half is characterised here, and which crashes
    recovery does not make good in module Orphans. */
module Exactness {
  import opened Bytes
  import opened Store
  import opened Safety
  import opened Operations

  /** No row is ACTIVE without a reference. */
  ghost predicate NoOrphans(s: State) {
    forall d :: d in s.chunks && s.chunks[d].state == ACTIVE ==> Referenced(s, d)
  }

  ghost predicate FilesPresent(s: State) {
    forall d :: d in s.chunks ==> d in s.files
  }

  ghost predicate NoCommitting(s: State) {
    forall id :: id in s.sessions ==> s.sessions[id].state != COMMITTING
  }

  ghost predicate NoDeadParts(s: State) {
    forall k :: k in s.parts ==> !DeadKey(s, k)
  }

  /** The invariant of runs of whole operations. */
  ghost predicate Exact(cfg: Config, s: State) {
    Safe(cfg, s) && NoOrphans(s) && FilesPresent(s) && NoDeadParts(s)
  }

  lemma ExactInitially(cfg: Config)
    ensures Exact(cfg, EMPTY)
  {
  }

  /** What the invariant says of one row. */
  lemma ActiveIffReferenced(cfg: Config, s: State, d: Digest)
    requires Exact(cfg, s)
    ensures (d in s.chunks && s.chunks[d].state == ACTIVE) <==> Referenced(s, d)
    ensures Referenced(s, d) ==> d in s.files && cfg.sha(s.files[d]) == d
  {
    hide Referenced;
    assert Referenced(s, d) ==> Alive(s, d);
  }

  // ---- Retiring a session -----------------------------------------------------------

  lemma MarkedNoOrphans(s: State, ds: set<Digest>, now: int)
    requires forall d :: d in s.chunks && s.chunks[d].state == ACTIVE ==> Referenced(s, d) || d in ds
    ensures NoOrphans(MarkAll(s, ds, now))
  {
    var t := MarkAll(s, ds, now);
    SameRefs(s, t);
    hide Referenced;
  }

  /** A reference survives unless it came from a part of the retired sessions. */
  lemma RefsAfterDrop(s: State, t: State, ids: set<SessionId>, d: Digest)
    requires Referenced(s, d)
    requires t.artifacts == s.artifacts
    requires forall k :: k in s.parts && k.session !in ids && LivePart(s, k) ==>
               k in t.parts && t.parts[k] == s.parts[k] && LivePart(t, k)
    ensures Referenced(t, d) || d in DigestsIn(s, ids)
  {
    if ByArtifact(s, d) {
      assert ByArtifact(t, d);
    } else {
      var k :| k in s.parts && LivePart(s, k) && s.parts[k].digest == d;
      if k.session !in ids {
        assert ByUpload(t, d);
      }
    }
  }

  lemma RetireNoOrphans(s: State, id: SessionId, st: SessionState, now: int)
    requires NoOrphans(s) && id in s.sessions && Dead(st)
    ensures NoOrphans(MarkParts(WithState(s, id, st), id, now))
  {
    var t := WithState(s, id, st);
    var u := DropParts(t, id);
    assert DigestsIn(s, {id}) == DigestsOf(t, id);
    forall d | d in u.chunks && u.chunks[d].state == ACTIVE
      ensures Referenced(u, d) || d in DigestsOf(t, id)
    {
      assert Referenced(s, d);
      RefsAfterDrop(s, u, {id}, d);
    }
    MarkedNoOrphans(u, DigestsOf(t, id), now);
  }

  lemma RetireExact(cfg: Config, s: State, id: SessionId, st: SessionState, now: int)
    requires Exact(cfg, s) && id in s.sessions && Dead(st)
    ensures Exact(cfg, MarkParts(WithState(s, id, st), id, now))
  {
    var t := WithState(s, id, st);
    SafeWithState(cfg, s, id, st);
    SafeDropParts(cfg, t, id);
    SafeMarkAll(cfg, DropParts(t, id), DigestsOf(t, id), now);
    RetireNoOrphans(s, id, st, now);
    hide Safe, NoOrphans, Markable;
  }

  lemma ExpireExact(cfg: Config, s: State, id: SessionId, now: int)
    requires Exact(cfg, s) && id in s.sessions
    ensures Exact(cfg, ExpireIfDue(s, id, now))
  {
    hide Exact;
    if Due(s.sessions[id], now) {
      RetireExact(cfg, s, id, EXPIRED, now);
    }
  }

  // ---- Put and commit ---------------------------------------------------------------

  lemma StoreExact(cfg: Config, s: State, data: Bytes)
    requires Exact(cfg, s) && cfg.corpus(data)
    ensures Exact(cfg, StoreFile(s, cfg.sha(data), data))
  {
    hide Safe, Referenced;
    var t := StoreFile(s, cfg.sha(data), data);
    SafeStoreFile(cfg, s, data);
    SameRefs(s, t);
  }

  lemma RegisterNoOrphans(s: State, k: PartKey, d0: Digest, size: nat, now: int)
    requires NoOrphans(s) && k !in s.parts && k.session in s.sessions && Live(s.sessions[k.session].state)
    ensures NoOrphans(Register(s, k, d0, size, now))
  {
    var t := Register(s, k, d0, size, now);
    assert LivePart(t, k) && ByUpload(t, d0);
    RefsSubset(t, s);
    forall d | d in t.chunks && t.chunks[d].state == ACTIVE ensures Referenced(t, d) {
      if d != d0 {
        assert Referenced(s, d);
      }
    }
  }

  lemma RegisterExact(cfg: Config, s: State, k: PartKey, data: Bytes, now: int)
    requires Exact(cfg, s) && Enabled(cfg, s, RegisterTx(k, data), now)
    ensures Exact(cfg, Register(s, k, cfg.sha(data), |data|, now))
  {
    SafeRegister(cfg, s, k, data, now);
    RegisterNoOrphans(s, k, cfg.sha(data), |data|, now);
    hide Safe, NoOrphans, Count;
  }

  lemma PutOpenExact(cfg: Config, s: State, now: int, id: SessionId, ordinal: nat, data: Bytes)
    requires Exact(cfg, s) && cfg.corpus(data) && HasState(s, id, OPEN) && !Due(s.sessions[id], now)
    requires ordinal < Count(s.sessions[id]) && 0 < |data| <= s.sessions[id].chunkSize
    ensures Exact(cfg, PutChunk(cfg, s, now, id, ordinal, data).0)
  {
    hide Exact, Count, ChunkCount, StoreFile, Register;
    var k := PartKey(id, ordinal);
    var t := StoreFile(s, cfg.sha(data), data);
    CountDef(s.sessions[id]);
    StoreExact(cfg, s, data);
    StoredOnly(s, cfg.sha(data), data);
    if k !in s.parts {
      assert Enabled(cfg, t, RegisterTx(k, data), now);
      RegisterExact(cfg, t, k, data, now);
    }
  }

  lemma StoredOnly(s: State, d: Digest, data: Bytes)
    ensures StoreFile(s, d, data) == s.(files := StoreFile(s, d, data).files) && d in StoreFile(s, d, data).files
  {
  }

  lemma PutExact(cfg: Config, s: State, now: int, id: SessionId, ordinal: nat, data: Bytes)
    requires Exact(cfg, s) && cfg.corpus(data)
    ensures Exact(cfg, PutChunk(cfg, s, now, id, ordinal, data).0)
  {
    if id in s.sessions {
      var s1 := ExpireIfDue(s, id, now);
      ExpireExact(cfg, s, id, now);
      NotDueAfterExpire(s, id, now);
      ExpireTwice(s, id, now);
      var x := s1.sessions[id];
      CountDef(x);
      hide ExpireIfDue, StoreFile, Register, ChunkCount, Count;
      if x.state == OPEN && ordinal < Count(x) && 0 < |data| <= x.chunkSize {
        PutOpenExact(cfg, s1, now, id, ordinal, data);
      }
      hide Exact;
    }
  }

  lemma PublishNoOrphans(s: State, id: SessionId, now: int)
    requires NoOrphans(s) && id in s.sessions
    requires Contiguous(s, id, Count(s.sessions[id]))
    requires s.sessions[id].ident !in s.artifacts
    requires Publish(s, id, now).chunks == s.chunks
    ensures NoOrphans(Publish(s, id, now))
  {
    var x := s.sessions[id];
    var t := Publish(s, id, now);
    var a := NewArtifact(s, id, now);
    forall d | d in t.chunks && t.chunks[d].state == ACTIVE ensures Referenced(t, d) {
      assert Referenced(s, d);
      if ByArtifact(s, d) {
        var j :| j in s.artifacts && InManifest(s.artifacts[j], d);
        assert j in t.artifacts && t.artifacts[j] == s.artifacts[j];
        assert ByArtifact(t, d);
      } else {
        var k :| k in s.parts && LivePart(s, k) && s.parts[k].digest == d;
        if k.session == id {
          ManifestRow(s.parts, id, Count(x), k.ordinal);
          assert a.manifest[k.ordinal].digest == d;
          assert InManifest(t.artifacts[x.ident], d);
          assert ByArtifact(t, d);
        } else {
          assert LivePart(t, k) && ByUpload(t, d);
        }
      }
    }
  }

  lemma BeginExact(cfg: Config, s: State, id: SessionId)
    requires Exact(cfg, s) && HasState(s, id, OPEN)
    ensures Exact(cfg, WithState(s, id, COMMITTING))
  {
    var t := WithState(s, id, COMMITTING);
    SafeWithState(cfg, s, id, COMMITTING);
    RefsSubset(t, s);
    hide Safe, Referenced;
  }

  lemma CommitExact(cfg: Config, s: State, now: int, id: SessionId, room: nat)
    requires Exact(cfg, s)
    ensures Exact(cfg, CommitSession(cfg, s, now, id, room).0)
  {
    if id in s.sessions {
      var s1 := ExpireIfDue(s, id, now);
      ExpireExact(cfg, s, id, now);
      if s1.sessions[id].state == OPEN && Count(s1.sessions[id]) > room {
        hide Exact, ExpireIfDue, CheckUpload, Publish, WithState, Count;
        BeginExact(cfg, s1, id);
      } else if s1.sessions[id].state == OPEN && CheckUpload(cfg, s1, id) == OK {
        SafePublish(cfg, s1, id, now);
        CheckedUpload(cfg, s1, id);
        PublishNoOrphans(s1, id, now);
        PublishRest(s1, id, now);
        hide Safe, NoOrphans, CheckUpload, Publish, ExpireIfDue, NewArtifact;
      }
    }
  }

  lemma CheckedUpload(cfg: Config, s: State, id: SessionId)
    requires id in s.sessions && CheckUpload(cfg, s, id) == OK
    ensures Contiguous(s, id, Count(s.sessions[id])) && s.sessions[id].ident !in s.artifacts
  {
  }

  lemma PublishRest(s: State, id: SessionId, now: int)
    requires id in s.sessions
    requires Contiguous(s, id, Count(s.sessions[id]))
    requires Publish(s, id, now).chunks == s.chunks
    requires FilesPresent(s) && NoDeadParts(s)
    ensures var t := Publish(s, id, now);
            FilesPresent(t) && NoDeadParts(t)
  {
  }

  // ---- Delete, collect, maintain ------------------------------------------------------

  lemma DeleteNoOrphans(s: State, ident: Ident, now: int)
    requires NoOrphans(s) && ident in s.artifacts
    ensures NoOrphans(DeleteTx(s, ident, now))
  {
    var a := s.artifacts[ident];
    var t := Unpublish(s, ident);
    forall d | d in t.chunks && t.chunks[d].state == ACTIVE
      ensures Referenced(t, d) || d in ManifestDigests(a)
    {
      UnpublishRefs(s, ident, d);
    }
    MarkedNoOrphans(t, ManifestDigests(a), now);
  }

  lemma UnpublishRefs(s: State, ident: Ident, d: Digest)
    requires ident in s.artifacts && Referenced(s, d)
    ensures Referenced(Unpublish(s, ident), d) || d in ManifestDigests(s.artifacts[ident])
  {
    var t := Unpublish(s, ident);
    if ByArtifact(s, d) {
      var j :| j in s.artifacts && InManifest(s.artifacts[j], d);
      if j != ident {
        assert j in t.artifacts && ByArtifact(t, d);
      }
    } else {
      var k :| k in s.parts && LivePart(s, k) && s.parts[k].digest == d;
      assert LivePart(t, k) && ByUpload(t, d);
    }
  }

  lemma DeleteExact(cfg: Config, s: State, ident: Ident, now: int)
    requires Exact(cfg, s) && ident in s.artifacts
    ensures Exact(cfg, DeleteTx(s, ident, now))
  {
    SafeDelete(cfg, s, ident, now);
    DeleteNoOrphans(s, ident, now);
    hide Safe, NoOrphans, Markable;
  }

  lemma SweepExact(cfg: Config, s: State, ds: set<Digest>)
    requires Exact(cfg, s) && forall d :: d in ds ==> !Referenced(s, d)
    ensures Exact(cfg, Sweep(s, ds))
  {
    var t := s.(files := s.files - ds);
    SafeRemove(cfg, s, ds);
    SameRefs(s, t);
    SafeRemove(cfg, t, ds);
    var u := Sweep(s, ds);
    assert u == t.(chunks := t.chunks - ds);
    SameRefs(s, u);
    hide Safe, Referenced;
  }

  lemma GcExact(cfg: Config, s: State, now: int, dryRun: bool)
    requires Exact(cfg, s)
    ensures Exact(cfg, CollectGarbage(cfg, s, now, dryRun).0)
  {
    NothingToRescue(cfg, s, now);
    SweepExact(cfg, s, Garbage(cfg, s, now));
  }

  /** The sessions after maintenance's two bulk updates. */
  function Settled(s: State, now: int): State { ReopenAll(ExpireAllDue(s, now)) }

  lemma SafeSettled(cfg: Config, s: State, now: int)
    requires Safe(cfg, s)
    ensures Safe(cfg, Settled(s, now))
    ensures Settled(s, now).chunks == s.chunks && Settled(s, now).files == s.files
    ensures Settled(s, now).parts == s.parts && Settled(s, now).artifacts == s.artifacts
  {
    hide Safe;
    SafeExpireAllDue(cfg, s, now);
    SafeReopenAll(cfg, ExpireAllDue(s, now));
  }

  lemma SafeDropSet(cfg: Config, s: State, ids: set<SessionId>)
    requires Safe(cfg, s)
    ensures Safe(cfg, DropSet(s, ids))
  {
    var t := DropSet(s, ids);
    RefsSubset(s, t);
    hide Referenced, Sized, Count;
    LiveFrame(s, t);
    ArtifactFrame(cfg, s, t);
  }

  lemma SafeMaintenance(cfg: Config, s: State, now: int)
    requires Safe(cfg, s)
    ensures Safe(cfg, RunMaintenance(s, now).0)
  {
    hide Safe;
    var s1 := Settled(s, now);
    SafeSettled(cfg, s, now);
    DropDeadIsDropSet(s1);
    SafeDropSet(cfg, s1, DeadIds(s1));
    SafeMarkAll(cfg, DropDeadParts(s1), DeadDigests(s1), now);
  }

  /** Recovery: no session is left COMMITTING and no dead session keeps parts. */
  lemma MaintenanceSettles(s: State, now: int)
    ensures NoCommitting(RunMaintenance(s, now).0) && NoDeadParts(RunMaintenance(s, now).0)
    ensures FilesPresent(s) ==> FilesPresent(RunMaintenance(s, now).0)
  {
    hide Markable;
  }

  /** Exactly when a maintenance pass leaves no orphan: every ACTIVE row was
      either referenced or still named by a part of a dead session. */
  lemma RecoveryExactIff(s: State, now: int)
    ensures NoOrphans(RunMaintenance(s, now).0) <==>
            forall d :: d in s.chunks && s.chunks[d].state == ACTIVE ==>
              Referenced(Settled(s, now), d) || d in DeadDigests(Settled(s, now))
  {
    var s1 := Settled(s, now);
    var u := DropDeadParts(s1);
    var ds := DeadDigests(s1);
    var t := RunMaintenance(s, now).0;
    assert t == MarkAll(u, ds, now);
    DropDeadIsDropSet(s1);
    DropDeadRefs(s1, DeadIds(s1));
    SameRefs(u, t);
    assert u.chunks == s.chunks;
    hide Referenced, DeadDigests, DropDeadParts, RunMaintenance;
    if forall d :: d in s.chunks && s.chunks[d].state == ACTIVE ==> Referenced(s1, d) || d in ds {
      MarkedNoOrphans(u, ds, now);
    }
    if NoOrphans(t) {
      forall d | d in s.chunks && s.chunks[d].state == ACTIVE ensures Referenced(s1, d) || d in ds {
        if d !in ds {
          assert t.chunks[d] == u.chunks[d];
        }
      }
    }
  }

  lemma MaintainNoOrphans(s: State, now: int)
    requires NoOrphans(s)
    ensures NoOrphans(RunMaintenance(s, now).0)
  {
    var s1 := Settled(s, now);
    forall d | d in s.chunks && s.chunks[d].state == ACTIVE
      ensures Referenced(s1, d) || d in DeadDigests(s1)
    {
      RefsAfterDrop(s, s1, DeadIds(s1), d);
      DropDeadIsDropSet(s1);
    }
    RecoveryExactIff(s, now);
    hide RunMaintenance;
  }

  lemma MaintainExact(cfg: Config, s: State, now: int)
    requires Exact(cfg, s)
    ensures Exact(cfg, RunMaintenance(s, now).0)
  {
    SafeMaintenance(cfg, s, now);
    MaintenanceSettles(s, now);
    MaintainNoOrphans(s, now);
    hide RunMaintenance, Safe, NoOrphans;
  }

  /** Main result: every completed operation keeps the cached state exact. */
  lemma OpExact(cfg: Config, s: State, op: Op, now: int)
    requires ValidConfig(cfg) && Exact(cfg, s) && Admissible(cfg, s, op)
    ensures Exact(cfg, OpState(cfg, s, op, now))
  {
    hide UsedBytes, OpenOf, Watermark, CheckUpload, CollisionFree;
    match op {
      case CreateOp(id, ident, size, digest, owner, ok) =>
        CreateExact(cfg, s, id, NewSession(cfg, now, ident, size, digest, owner));
      case PutOp(id, ordinal, data) => PutExact(cfg, s, now, id, ordinal, data);
      case CommitOp(id, room) => CommitExact(cfg, s, now, id, room);
      case FailOp(id, data, stored) =>
        if id in s.sessions { FailExact(cfg, s, now, id, data, stored); }
      case AbortOp(id) =>
        if id in s.sessions && Live(s.sessions[id].state) {
          RetireExact(cfg, s, id, ABORTED, now);
        }
      case DeleteOp(ident) =>
        if ident in s.artifacts {
          DeleteExact(cfg, s, ident, now);
        }
      case GcOp(dryRun) => GcExact(cfg, s, now, dryRun);
      case MaintainOp => MaintainExact(cfg, s, now);
    }
  }

  lemma FailExact(cfg: Config, s: State, now: int, id: SessionId, data: Bytes, stored: bool)
    requires Exact(cfg, s) && id in s.sessions && (stored ==> cfg.corpus(data))
    ensures Exact(cfg, Failed(cfg, s, now, id, data, stored))
  {
    ExpireExact(cfg, s, id, now);
    hide Exact, ExpireIfDue, StoreFile;
    if stored {
      StoreExact(cfg, ExpireIfDue(s, id, now), data);
    }
  }

  lemma CreateExact(cfg: Config, s: State, id: SessionId, x: Session)
    requires Exact(cfg, s) && id !in s.sessions && SizeOk(x.chunkSize) && x.state == OPEN
    ensures Exact(cfg, s.(sessions := s.sessions[id := x]))
  {
    var t := s.(sessions := s.sessions[id := x]);
    SafeCreate(cfg, s, id, x);
    RefsSubset(t, s);
    assert forall k :: k in s.parts ==> k.session in s.sessions;
    hide Safe, Referenced;
  }

  // ---- Whole runs -----------------------------------------------------------------------

  /** A completed call and the clock it read. */
  datatype Call = Call(op: Op, now: int)

  ghost predicate CallsOk(cfg: Config, s: State, calls: seq<Call>)
    decreases |calls|
  {
    calls == [] ||
    (Admissible(cfg, s, calls[0].op)
     && CallsOk(cfg, OpState(cfg, s, calls[0].op, calls[0].now), calls[1..]))
  }

  ghost function AfterCalls(cfg: Config, s: State, calls: seq<Call>): State
    requires CallsOk(cfg, s, calls)
    decreases |calls|
  {
    if calls == [] then s else AfterCalls(cfg, OpState(cfg, s, calls[0].op, calls[0].now), calls[1..])
  }

  lemma {:induction false} CallsConcat(cfg: Config, s: State, a: seq<Call>, b: seq<Call>)
    requires CallsOk(cfg, s, a) && CallsOk(cfg, AfterCalls(cfg, s, a), b)
    ensures CallsOk(cfg, s, a + b) && AfterCalls(cfg, s, a + b) == AfterCalls(cfg, AfterCalls(cfg, s, a), b)
    decreases |a|
  {
    hide OpState, Admissible;
    if a == [] {
      assert a + b == b;
    } else {
      assert (a + b)[0] == a[0] && (a + b)[1..] == a[1..] + b;
      CallsConcat(cfg, OpState(cfg, s, a[0].op, a[0].now), a[1..], b);
    }
  }

  lemma TwoCalls(cfg: Config, s: State, a: Call, b: Call)
    requires Admissible(cfg, s, a.op) && Admissible(cfg, OpState(cfg, s, a.op, a.now), b.op)
    ensures CallsOk(cfg, s, [a, b])
    ensures AfterCalls(cfg, s, [a, b]) == OpState(cfg, OpState(cfg, s, a.op, a.now), b.op, b.now)
  {
    hide Admissible, OpState;
    var s1 := OpState(cfg, s, a.op, a.now);
    var s2 := OpState(cfg, s1, b.op, b.now);
    assert [a, b][1..] == [b] && [b][1..] == [];
    assert CallsOk(cfg, s2, []) && AfterCalls(cfg, s2, []) == s2;
    assert CallsOk(cfg, s1, [b]) && AfterCalls(cfg, s1, [b]) == s2;
  }

  /** In every run of serialized operations from the empty store, the cached state
      of every chunk agrees with the truth. */
  lemma {:induction false} RunExact(cfg: Config, s: State, calls: seq<Call>)
    requires ValidConfig(cfg) && Exact(cfg, s) && CallsOk(cfg, s, calls)
    ensures Exact(cfg, AfterCalls(cfg, s, calls))
    decreases |calls|
  {
    hide Exact, OpState, Admissible, ValidConfig;
    if calls != [] {
      OpExact(cfg, s, calls[0].op, calls[0].now);
      RunExact(cfg, OpState(cfg, s, calls[0].op, calls[0].now), calls[1..]);
    }
  }

  // ---- What exactness buys --------------------------------------------------------------

  ghost function LiveChunks(s: State): set<Digest> {
    set d | d in s.chunks && Referenced(s, d)
  }

  function FileSizes(s: State): Digest -> nat {
    d => |FileOf(s.files, d)|
  }

  /** used_bytes is the deduplicated size of the live content. */
  lemma UsedIsLiveSize(cfg: Config, s: State)
    requires ValidConfig(cfg) && Exact(cfg, s)
    ensures UsedBytes(s) == Sum(LiveChunks(s), FileSizes(s))
    ensures forall d :: Referenced(s, d) <==> d in LiveChunks(s)
  {
    forall d ensures Referenced(s, d) <==> d in ActiveSet(s) {
      ActiveIffReferenced(cfg, s, d);
    }
    assert ActiveSet(s) == LiveChunks(s);
    forall d | d in ActiveSet(s) ensures RawSize(s.chunks)(d) == FileSizes(s)(d) {
      FileSize(cfg, s, d, s.chunks[d].rawSize);
    }
    SumSame(ActiveSet(s), RawSize(s.chunks), FileSizes(s));
  }

  /** delete_artifact returns how many digests lost their last reference. */
  lemma DeleteCounts(cfg: Config, s: State, ident: Ident, now: int)
    requires Exact(cfg, s) && ident in s.artifacts
    ensures var t := DeleteArtifact(s, now, ident).0;
            DeleteArtifact(s, now, ident).1 ==
            Ok(|set d | d in s.chunks && Referenced(s, d) && !Referenced(t, d)|)
  {
    var t := DeleteTx(s, ident, now);
    SameRefs(Unpublish(s, ident), t);
    var lost := set d | d in s.chunks && Referenced(s, d) && !Referenced(t, d);
    forall d ensures d in lost <==> d in NewlyMarked(s, ident) {
      hide Referenced, DeleteTx;
      LostOrMarked(cfg, s, ident, d);
    }
    assert lost == NewlyMarked(s, ident);
  }

  lemma LostOrMarked(cfg: Config, s: State, ident: Ident, d: Digest)
    requires Exact(cfg, s) && ident in s.artifacts
    ensures d in NewlyMarked(s, ident) <==>
            d in s.chunks && Referenced(s, d) && !Referenced(Unpublish(s, ident), d)
  {
    ActiveIffReferenced(cfg, s, d);
    if Referenced(s, d) {
      UnpublishRefs(s, ident, d);
    }
    hide Referenced, Exact;
  }

  /** From any safe state the dry run changes nothing and reports exactly what the
      real run then deletes: those rows and files, and no others. */
  lemma DryRunPredicts(cfg: Config, s: State, now: int)
    requires ValidConfig(cfg) && Safe(cfg, s)
    ensures CollectGarbage(cfg, s, now, true).0 == s
    ensures CollectGarbage(cfg, s, now, true).1 == CollectGarbage(cfg, s, now, false).1
    ensures var t := CollectGarbage(cfg, s, now, false).0;
            var gone := s.chunks.Keys - t.chunks.Keys;
            && gone == Garbage(cfg, s, now) && t.chunks == s.chunks - gone && t.files == s.files - gone
            && CollectGarbage(cfg, s, now, true).1.deletedCount == |gone|
            && CollectGarbage(cfg, s, now, true).1.deletedBytes == Sum(gone, RawSize(s.chunks))
  {
    NothingToRescue(cfg, s, now);
    var garbage := Garbage(cfg, s, now);
    var t := CollectGarbage(cfg, s, now, false).0;
    hide Referenced, Ripe;
    assert s.chunks.Keys - t.chunks.Keys == garbage;
  }

  /** Maintenance is idempotent at a fixed clock when no commit was interrupted. */
  lemma MaintenanceIdempotent(s: State, now: int)
    requires NoCommitting(s)
    ensures var t := RunMaintenance(s, now).0;
            RunMaintenance(t, now) == (t, RecoveryReport(0, 0))
  {
    hide Markable, Referenced;
    var t := RunMaintenance(s, now).0;
    MaintenanceSettles(s, now);
    assert DueSet(t, now) == {} && CommittingSet(t) == {};
    SettledFixed(t, now);
    MarkAllNone(t, now);
  }

  lemma SettledFixed(t: State, now: int)
    requires NoCommitting(t) && NoDeadParts(t) && DueSet(t, now) == {}
    ensures Settled(t, now) == t && DropDeadParts(t) == t && DeadDigests(t) == {}
  {
    assert forall id :: id in t.sessions ==> (Due(t.sessions[id], now) <==> id in DueSet(t, now));
    assert ExpireAllDue(t, now).sessions == t.sessions;
    assert ReopenAll(t).sessions == t.sessions;
    assert DropDeadParts(t).parts == t.parts;
  }
}
