/** What never stops being true of the storage layer. The atomic actions are the
    single SQL statements, transactions and file operations the source issues;
    an operation interrupted by a crash has performed a prefix of its actions,
    so an invariant of the actions holds at every crash point as well. */
module Safety {
  import opened Bytes
  import opened Store

  /** Some content of the corpus hashes to d and has n bytes. */
  ghost predicate Sized(cfg: Config, d: Digest, n: nat) {
    exists c :: cfg.corpus(c) && cfg.sha(c) == d && |c| == n
  }

  ghost predicate SizeOk(chunkSize: nat) { MIB <= chunkSize <= 8 * MIB }

  ghost predicate SessionsOk(s: State) {
    forall id :: id in s.sessions ==> SizeOk(s.sessions[id].chunkSize)
  }

  ghost predicate PartOk(cfg: Config, x: Session, ordinal: nat, p: Part) {
    SizeOk(x.chunkSize) && ordinal < Count(x) && 0 < p.length <= x.chunkSize && Sized(cfg, p.digest, p.length)
  }

  ghost predicate PartsOk(cfg: Config, s: State) {
    forall k :: k in s.parts ==>
      k.session in s.sessions && PartOk(cfg, s.sessions[k.session], k.ordinal, s.parts[k])
  }

  ghost predicate EntryOk(cfg: Config, chunkSize: nat, m: seq<Entry>, i: nat)
    requires i < |m|
  {
    m[i].ordinal == i && m[i].offset == TotalLength(m[..i]) && 0 < m[i].length <= chunkSize
    && Sized(cfg, m[i].digest, m[i].length)
  }

  /** The shape of a manifest: ordinals 0, 1, 2, ..., offsets the running sums of
      positive lengths of at most chunkSize. */
  ghost predicate ManifestOk(cfg: Config, chunkSize: nat, m: seq<Entry>) {
    forall i :: 0 <= i < |m| ==> EntryOk(cfg, chunkSize, m, i)
  }

  ghost predicate ArtifactOk(cfg: Config, files: map<Digest, Bytes>, a: Artifact) {
    && SizeOk(a.chunkSize)
    && ManifestOk(cfg, a.chunkSize, a.manifest)
    && |a.manifest| == ChunkCount(a.size, a.chunkSize)
    && TotalLength(a.manifest) == a.size
    && cfg.sha(Content(files, a.manifest)) == a.digest
  }

  ghost predicate ArtifactsOk(cfg: Config, s: State) {
    forall id :: id in s.artifacts ==> ArtifactOk(cfg, s.files, s.artifacts[id])
  }

  ghost predicate FilesOk(cfg: Config, s: State) {
    forall d :: d in s.files ==> cfg.corpus(s.files[d]) && cfg.sha(s.files[d]) == d
  }

  ghost predicate Alive(s: State, d: Digest) {
    d in s.chunks && s.chunks[d].state == ACTIVE && d in s.files
  }

  /** Nothing that an artifact or an unfinished upload refers to is ever lost. */
  ghost predicate LiveOk(s: State) {
    forall d :: Referenced(s, d) ==> Alive(s, d)
  }

  ghost predicate RowsOk(cfg: Config, s: State) {
    forall d :: d in s.chunks ==>
      (s.chunks[d].state == ACTIVE <==> s.chunks[d].pendingAt.None?) && Sized(cfg, d, s.chunks[d].rawSize)
  }

  ghost predicate Safe(cfg: Config, s: State) {
    && SessionsOk(s)
    && PartsOk(cfg, s)
    && ArtifactsOk(cfg, s)
    && FilesOk(cfg, s)
    && LiveOk(s)
    && RowsOk(cfg, s)
  }

  lemma SafeInitially(cfg: Config)
    ensures Safe(cfg, EMPTY)
  {
  }

  /** A file that exists has the size every row says it has. */
  lemma FileSize(cfg: Config, s: State, d: Digest, n: nat)
    requires ValidConfig(cfg) && FilesOk(cfg, s) && d in s.files && Sized(cfg, d, n)
    ensures |s.files[d]| == n
  {
  }

  // ---- Actions -----------------------------------------------------------------------

  datatype Action =
    | Create(id: SessionId, session: Session)
    | ExpireOne(id: SessionId)
    | DropRows(id: SessionId)
    | Mark(digest: Digest)
    | Put(data: Bytes)
    | RegisterTx(key: PartKey, data: Bytes)
    | Begin(id: SessionId)
    | Rollback(id: SessionId)
    | PublishTx(id: SessionId)
    | Abort(id: SessionId)
    | Delete(ident: Ident)
    | Unlink(digest: Digest)
    | DropRow(digest: Digest)
    | ExpireDue
    | Reopen

  ghost predicate HasState(s: State, id: SessionId, st: SessionState) {
    id in s.sessions && s.sessions[id].state == st
  }

  /** When the code issues an action: the branch conditions on its path. */
  ghost predicate Enabled(cfg: Config, s: State, a: Action, now: int) {
    match a
    case Create(id, x) =>
      id !in s.sessions && x.state == OPEN && SizeOk(x.chunkSize)
      && x.createdAt == now && x.expiresAt == now + cfg.sessionHours * 3600
      && |OpenOf(s, x.owner)| < cfg.maxSessions && UsedBytes(s) < Watermark(cfg)
    case ExpireOne(id) => id in s.sessions && Due(s.sessions[id], now)
    case DropRows(id) => id in s.sessions && Dead(s.sessions[id].state)
    case Mark(d) => !Referenced(s, d)
    case Put(data) => cfg.corpus(data)
    case RegisterTx(k, data) =>
      HasState(s, k.session, OPEN) && now < s.sessions[k.session].expiresAt
      && k.ordinal < Count(s.sessions[k.session])
      && 0 < |data| <= s.sessions[k.session].chunkSize && k !in s.parts
      && cfg.corpus(data) && cfg.sha(data) in s.files
    case Begin(id) => HasState(s, id, OPEN) && now < s.sessions[id].expiresAt
    case Rollback(id) => HasState(s, id, COMMITTING)
    case PublishTx(id) =>
      HasState(s, id, COMMITTING) && CheckUpload(cfg, s, id) == OK
    case Abort(id) => id in s.sessions && Live(s.sessions[id].state)
    case Delete(ident) => ident in s.artifacts
    case Unlink(d) => Ripe(cfg, s, d, now) && !Referenced(s, d)
    case DropRow(d) => Ripe(cfg, s, d, now) && !Referenced(s, d) && d !in s.files
    case ExpireDue => true
    case Reopen => true
  }

  function MarkOne(s: State, d: Digest, now: int): State { MarkAll(s, {d}, now) }

  ghost function Apply(cfg: Config, s: State, a: Action, now: int): State
    requires Enabled(cfg, s, a, now)
  {
    match a
    case Create(id, x) => s.(sessions := s.sessions[id := x])
    case ExpireOne(id) => WithState(s, id, EXPIRED)
    case DropRows(id) => DropParts(s, id)
    case Mark(d) => MarkOne(s, d, now)
    case Put(data) => StoreFile(s, cfg.sha(data), data)
    case RegisterTx(k, data) => Register(s, k, cfg.sha(data), |data|, now)
    case Begin(id) => WithState(s, id, COMMITTING)
    case Rollback(id) => WithState(s, id, OPEN)
    case PublishTx(id) => Publish(s, id, now)
    case Abort(id) => AbortTx(s, id, now)
    case Delete(ident) => DeleteTx(s, ident, now)
    case Unlink(d) => s.(files := s.files - {d})
    case DropRow(d) => s.(chunks := s.chunks - {d})
    case ExpireDue => ExpireAllDue(s, now)
    case Reopen => ReopenAll(s)
  }

  // ---- Preservation ----------------------------------------------------------------------

  /** Content only looks at the files a manifest names. */
  lemma {:induction false} ContentFrame(f: map<Digest, Bytes>, g: map<Digest, Bytes>, m: seq<Entry>)
    requires forall i :: 0 <= i < |m| ==> FileOf(f, m[i].digest) == FileOf(g, m[i].digest)
    ensures Content(f, m) == Content(g, m)
  {
    if m != [] {
      ContentFrame(f, g, m[..|m| - 1]);
    }
  }

  lemma ArtifactFrame(cfg: Config, s: State, t: State)
    requires ArtifactsOk(cfg, s) && t.artifacts == s.artifacts
    requires forall d :: ByArtifact(s, d) ==> FileOf(s.files, d) == FileOf(t.files, d)
    ensures ArtifactsOk(cfg, t)
  {
    forall id | id in t.artifacts
      ensures ArtifactOk(cfg, t.files, t.artifacts[id])
    {
      var a := s.artifacts[id];
      assert ArtifactOk(cfg, s.files, a);
      forall i | 0 <= i < |a.manifest|
        ensures FileOf(s.files, a.manifest[i].digest) == FileOf(t.files, a.manifest[i].digest)
      {
        assert InManifest(a, a.manifest[i].digest);
        assert ByArtifact(s, a.manifest[i].digest);
      }
      ContentFrame(s.files, t.files, a.manifest);
    }
  }

  /** Fewer references and untouched live chunks keep LiveOk. */
  lemma LiveFrame(s: State, t: State)
    requires LiveOk(s)
    requires forall d :: Referenced(t, d) ==> Referenced(s, d)
    requires forall d :: Referenced(t, d) && Alive(s, d) ==> Alive(t, d)
    ensures LiveOk(t)
  {
  }

  lemma RefsSubset(s: State, t: State)
    requires forall id :: id in t.artifacts ==> id in s.artifacts && t.artifacts[id] == s.artifacts[id]
    requires forall k :: k in t.parts && LivePart(t, k) ==> LivePart(s, k) && s.parts[k] == t.parts[k]
    ensures forall d :: Referenced(t, d) ==> Referenced(s, d)
  {
    forall d | Referenced(t, d) ensures Referenced(s, d) {
      if ByArtifact(t, d) {
        var id :| id in t.artifacts && InManifest(t.artifacts[id], d);
        assert ByArtifact(s, d);
      } else {
        var k :| k in t.parts && LivePart(t, k) && t.parts[k].digest == d;
        assert ByUpload(s, d);
      }
    }
  }

  lemma SameCount(x: Session, y: Session)
    requires y == x.(state := y.state)
    ensures Count(x) == Count(y)
  {
  }

  /** Session states do not matter to parts. */
  lemma PartsFrame(cfg: Config, s: State, t: State)
    requires PartsOk(cfg, s) && t.parts == s.parts && t.sessions.Keys == s.sessions.Keys
    requires forall id :: id in s.sessions ==> t.sessions[id] == s.sessions[id].(state := t.sessions[id].state)
    ensures PartsOk(cfg, t)
  {
    hide Sized, Count;
    forall k | k in t.parts
      ensures k.session in t.sessions && PartOk(cfg, t.sessions[k.session], k.ordinal, t.parts[k])
    {
      assert PartOk(cfg, s.sessions[k.session], k.ordinal, s.parts[k]);
      SameCount(s.sessions[k.session], t.sessions[k.session]);
    }
  }

  /** Changing only session states keeps everything but the references. */
  lemma SessionFrame(cfg: Config, s: State, t: State)
    requires Safe(cfg, s)
    requires t == s.(sessions := t.sessions) && t.sessions.Keys == s.sessions.Keys
    requires forall id :: id in s.sessions ==>
               t.sessions[id] == s.sessions[id].(state := t.sessions[id].state)
               && (Live(t.sessions[id].state) ==> Live(s.sessions[id].state))
    ensures Safe(cfg, t)
  {
    assert forall id :: id in t.sessions ==> id in s.sessions;
    assert SessionsOk(t);
    PartsFrame(cfg, s, t);
    RefsSubset(s, t);
    hide Referenced, PartsOk;
    LiveFrame(s, t);
    ArtifactFrame(cfg, s, t);
  }

  lemma SafeWithState(cfg: Config, s: State, id: SessionId, st: SessionState)
    requires Safe(cfg, s) && id in s.sessions
    requires Live(st) ==> Live(s.sessions[id].state)
    ensures Safe(cfg, WithState(s, id, st))
  {
    hide Safe;
    SessionFrame(cfg, s, WithState(s, id, st));
  }

  lemma SafeExpireAllDue(cfg: Config, s: State, now: int)
    requires Safe(cfg, s)
    ensures Safe(cfg, ExpireAllDue(s, now))
  {
    hide Safe;
    SessionFrame(cfg, s, ExpireAllDue(s, now));
  }

  lemma SafeReopenAll(cfg: Config, s: State)
    requires Safe(cfg, s)
    ensures Safe(cfg, ReopenAll(s))
  {
    hide Safe;
    SessionFrame(cfg, s, ReopenAll(s));
  }

  /** Marking never touches a referenced chunk. */
  lemma SafeMarkAll(cfg: Config, s: State, ds: set<Digest>, now: int)
    requires Safe(cfg, s)
    ensures Safe(cfg, MarkAll(s, ds, now))
  {
    var t := MarkAll(s, ds, now);
    SameRefs(s, t);
    LiveFrame(s, t);
    ArtifactFrame(cfg, s, t);
  }

  lemma SameRefs(s: State, t: State)
    requires t.artifacts == s.artifacts && t.parts == s.parts && t.sessions == s.sessions
    ensures forall d :: Referenced(t, d) <==> Referenced(s, d)
  {
    RefsSubset(s, t);
    RefsSubset(t, s);
  }

  lemma SafeDropParts(cfg: Config, s: State, id: SessionId)
    requires Safe(cfg, s)
    ensures Safe(cfg, DropParts(s, id))
  {
    var t := DropParts(s, id);
    RefsSubset(s, t);
    LiveFrame(s, t);
    ArtifactFrame(cfg, s, t);
  }

  lemma SafeCreate(cfg: Config, s: State, id: SessionId, x: Session)
    requires Safe(cfg, s) && id !in s.sessions && SizeOk(x.chunkSize)
    ensures Safe(cfg, s.(sessions := s.sessions[id := x]))
  {
    var t := s.(sessions := s.sessions[id := x]);
    forall k | k in t.parts
      ensures k.session in t.sessions && PartOk(cfg, t.sessions[k.session], k.ordinal, t.parts[k])
    {
      assert k.session in s.sessions && PartOk(cfg, s.sessions[k.session], k.ordinal, s.parts[k]);
    }
    RefsSubset(s, t);
    LiveFrame(s, t);
    ArtifactFrame(cfg, s, t);
  }

  /** New files beside the old ones change nothing that exists. */
  lemma MoreFiles(cfg: Config, s: State, t: State)
    requires LiveOk(s) && ArtifactsOk(cfg, s) && t == s.(files := t.files)
    requires forall d :: d in s.files ==> d in t.files && t.files[d] == s.files[d]
    ensures LiveOk(t) && ArtifactsOk(cfg, t)
  {
    SameRefs(s, t);
    forall d | ByArtifact(s, d) ensures FileOf(s.files, d) == FileOf(t.files, d) {
      assert Referenced(s, d);
      assert Alive(s, d);
    }
    hide ArtifactOk, ByArtifact, ByUpload;
    LiveFrame(s, t);
    ArtifactFrame(cfg, s, t);
  }

  lemma SafeStoreFile(cfg: Config, s: State, data: Bytes)
    requires Safe(cfg, s) && cfg.corpus(data)
    ensures Safe(cfg, StoreFile(s, cfg.sha(data), data))
  {
    hide Sized, PartOk, ArtifactsOk, LiveOk;
    MoreFiles(cfg, s, StoreFile(s, cfg.sha(data), data));
  }

  lemma RegisterRefs(s: State, k: PartKey, d0: Digest, size: nat, now: int, d: Digest)
    requires k !in s.parts && Referenced(Register(s, k, d0, size, now), d)
    ensures d == d0 || Referenced(s, d)
  {
    var t := Register(s, k, d0, size, now);
    if ByArtifact(t, d) {
      var id :| id in t.artifacts && InManifest(t.artifacts[id], d);
      assert ByArtifact(s, d);
    } else {
      var j :| j in t.parts && LivePart(t, j) && t.parts[j].digest == d;
      if j != k {
        assert LivePart(s, j) && ByUpload(s, d);
      }
    }
  }

  lemma RegisterLive(s: State, k: PartKey, d0: Digest, size: nat, now: int)
    requires LiveOk(s) && k !in s.parts && d0 in s.files
    ensures LiveOk(Register(s, k, d0, size, now))
  {
    var t := Register(s, k, d0, size, now);
    forall d | Referenced(t, d) ensures Alive(t, d) {
      RegisterRefs(s, k, d0, size, now, d);
      hide Referenced;
      assert d == d0 || Alive(s, d);
    }
  }

  lemma RegisterRows(cfg: Config, s: State, k: PartKey, d0: Digest, size: nat, now: int)
    requires RowsOk(cfg, s) && Sized(cfg, d0, size)
    ensures RowsOk(cfg, Register(s, k, d0, size, now))
  {
    hide Sized;
  }

  lemma SafeRegister(cfg: Config, s: State, k: PartKey, data: Bytes, now: int)
    requires Safe(cfg, s) && Enabled(cfg, s, RegisterTx(k, data), now)
    ensures Safe(cfg, Register(s, k, cfg.sha(data), |data|, now))
  {
    var d0 := cfg.sha(data);
    var t := Register(s, k, d0, |data|, now);
    assert Sized(cfg, d0, |data|);
    hide Sized, Referenced, Count, LiveOk, RowsOk;
    RegisterLive(s, k, d0, |data|, now);
    RegisterRows(cfg, s, k, d0, |data|, now);
    ArtifactFrame(cfg, s, t);
  }

  lemma SafeUnpublish(cfg: Config, s: State, ident: Ident)
    requires Safe(cfg, s)
    ensures Safe(cfg, Unpublish(s, ident))
  {
    var t := Unpublish(s, ident);
    RefsSubset(s, t);
    LiveFrame(s, t);
    assert forall id :: id in t.artifacts ==> id in s.artifacts;
  }

  lemma SafeRemove(cfg: Config, s: State, ds: set<Digest>)
    requires Safe(cfg, s) && forall d :: d in ds ==> !Referenced(s, d)
    ensures Safe(cfg, s.(files := s.files - ds))
    ensures Safe(cfg, s.(chunks := s.chunks - ds))
  {
    var t := s.(files := s.files - ds);
    SameRefs(s, t);
    LiveFrame(s, t);
    forall d | ByArtifact(s, d) ensures FileOf(s.files, d) == FileOf(t.files, d) {
      assert Referenced(s, d);
    }
    ArtifactFrame(cfg, s, t);
    var u := s.(chunks := s.chunks - ds);
    SameRefs(s, u);
    LiveFrame(s, u);
    ArtifactFrame(cfg, s, u);
  }

  // ---- Publishing --------------------------------------------------------------------------

  lemma {:induction false} ManifestRow(parts: map<PartKey, Part>, id: SessionId, n: nat, i: nat)
    requires i < n && forall o | 0 <= o < n :: PartKey(id, o) in parts
    ensures var m := Manifest(parts, id, n);
            m[i] == Entry(i, TotalLength(m[..i]), parts[PartKey(id, i)].length, parts[PartKey(id, i)].digest)
  {
    var m, m' := Manifest(parts, id, n), Manifest(parts, id, n - 1);
    assert m[..n - 1] == m';
    if i < n - 1 {
      ManifestRow(parts, id, n - 1, i);
      assert m[..i] == m'[..i];
    }
  }

  lemma ManifestFacts(cfg: Config, s: State, id: SessionId, n: nat)
    requires PartsOk(cfg, s) && id in s.sessions
    requires forall o | 0 <= o < n :: PartKey(id, o) in s.parts
    ensures ManifestOk(cfg, s.sessions[id].chunkSize, Manifest(s.parts, id, n))
    ensures forall i :: 0 <= i < n ==> Manifest(s.parts, id, n)[i].digest == s.parts[PartKey(id, i)].digest
                                       && Manifest(s.parts, id, n)[i].length == s.parts[PartKey(id, i)].length
  {
    var m := Manifest(s.parts, id, n);
    hide Manifest, Sized, Count, TotalLength;
    forall i | 0 <= i < n
      ensures EntryOk(cfg, s.sessions[id].chunkSize, m, i)
              && m[i].digest == s.parts[PartKey(id, i)].digest && m[i].length == s.parts[PartKey(id, i)].length
    {
      ManifestRow(s.parts, id, n, i);
      assert PartOk(cfg, s.sessions[id], i, s.parts[PartKey(id, i)]);
    }
  }

  /** The chunks a validated upload would publish are all alive. */
  lemma UploadAlive(cfg: Config, s: State, id: SessionId, i: nat)
    requires LiveOk(s) && PartsOk(cfg, s) && id in s.sessions && Live(s.sessions[id].state)
    requires Contiguous(s, id, Count(s.sessions[id]))
    requires i < Count(s.sessions[id])
    ensures Alive(s, Manifest(s.parts, id, Count(s.sessions[id]))[i].digest)
  {
    ManifestFacts(cfg, s, id, Count(s.sessions[id]));
    assert LivePart(s, PartKey(id, i));
    assert ByUpload(s, s.parts[PartKey(id, i)].digest);
    assert Referenced(s, s.parts[PartKey(id, i)].digest);
  }

  lemma UploadAllAlive(cfg: Config, s: State, id: SessionId, m: seq<Entry>)
    requires LiveOk(s) && PartsOk(cfg, s) && id in s.sessions && Live(s.sessions[id].state)
    requires Contiguous(s, id, Count(s.sessions[id]))
    requires m == Manifest(s.parts, id, Count(s.sessions[id]))
    ensures forall i :: 0 <= i < |m| ==> Alive(s, m[i].digest)
  {
    forall i | 0 <= i < |m| ensures Alive(s, m[i].digest) {
      UploadAlive(cfg, s, id, i);
    }
  }

  lemma CheckedArtifact(cfg: Config, s: State, id: SessionId, now: int)
    requires SessionsOk(s) && PartsOk(cfg, s) && id in s.sessions
    requires CheckUpload(cfg, s, id) == OK
    ensures ArtifactOk(cfg, s.files, NewArtifact(s, id, now))
  {
    ManifestFacts(cfg, s, id, Count(s.sessions[id]));
  }

  lemma PublishLive(s: State, t: State, ident: Ident, a: Artifact)
    requires LiveOk(s) && t.chunks == s.chunks && t.files == s.files
    requires t.artifacts == s.artifacts[ident := a]
    requires forall i :: 0 <= i < |a.manifest| ==> Alive(s, a.manifest[i].digest)
    requires t.parts == s.parts && forall k :: k in t.parts && LivePart(t, k) ==> LivePart(s, k)
    ensures LiveOk(t)
  {
    forall d | Referenced(t, d) ensures Alive(t, d) {
      if ByArtifact(t, d) {
        var j :| j in t.artifacts && InManifest(t.artifacts[j], d);
        if j != ident {
          assert ByArtifact(s, d) && Referenced(s, d);
        }
      } else {
        var k :| k in t.parts && LivePart(t, k) && t.parts[k].digest == d;
        assert LivePart(s, k) && ByUpload(s, d) && Referenced(s, d);
      }
    }
  }

  lemma NothingToReactivate(s: State, m: seq<Entry>)
    requires forall i :: 0 <= i < |m| ==> Alive(s, m[i].digest)
    ensures ReactivateAll(s.chunks, m) == s.chunks
  {
  }

  lemma SafePublish(cfg: Config, s: State, id: SessionId, now: int)
    requires Safe(cfg, s) && id in s.sessions && Live(s.sessions[id].state)
    requires CheckUpload(cfg, s, id) == OK
    ensures Safe(cfg, Publish(s, id, now))
    ensures Publish(s, id, now).chunks == s.chunks
  {
    var x := s.sessions[id];
    var a := NewArtifact(s, id, now);
    CheckedArtifact(cfg, s, id, now);
    UploadAllAlive(cfg, s, id, a.manifest);
    NothingToReactivate(s, a.manifest);
    var t := Publish(s, id, now);
    hide CheckUpload, ReactivateAll, Count, Referenced, ArtifactOk, Sized, Manifest, Contiguous, PartsOk;
    PublishLive(s, t, x.ident, a);
    assert ArtifactsOk(cfg, t);
    PartsFrame(cfg, s, t);
  }

  lemma SafeAbort(cfg: Config, s: State, id: SessionId, now: int)
    requires Safe(cfg, s) && id in s.sessions
    ensures Safe(cfg, AbortTx(s, id, now))
  {
    hide Safe;
    var t := WithState(s, id, ABORTED);
    SafeWithState(cfg, s, id, ABORTED);
    SafeDropParts(cfg, t, id);
    SafeMarkAll(cfg, DropParts(t, id), DigestsOf(t, id), now);
  }

  lemma SafeDelete(cfg: Config, s: State, ident: Ident, now: int)
    requires Safe(cfg, s) && ident in s.artifacts
    ensures Safe(cfg, DeleteTx(s, ident, now))
  {
    SafeUnpublish(cfg, s, ident);
    SafeMarkAll(cfg, Unpublish(s, ident), ManifestDigests(s.artifacts[ident]), now);
  }

  /** Main result: every action preserves safety, so it holds at every point of
      every run, crashes included. */
  lemma ActionSafe(cfg: Config, s: State, a: Action, now: int)
    requires ValidConfig(cfg) && Safe(cfg, s) && Enabled(cfg, s, a, now)
    ensures Safe(cfg, Apply(cfg, s, a, now))
  {
    hide Safe, Referenced, Ripe, CheckUpload, UsedBytes, OpenOf, Count, WithState, MarkAll, StoreFile, Register;
    match a {
      case Create(id, x) => SafeCreate(cfg, s, id, x);
      case ExpireOne(id) => SafeWithState(cfg, s, id, EXPIRED);
      case DropRows(id) => SafeDropParts(cfg, s, id);
      case Mark(d) => SafeMarkAll(cfg, s, {d}, now);
      case Put(data) => SafeStoreFile(cfg, s, data);
      case RegisterTx(k, data) => SafeRegister(cfg, s, k, data, now);
      case Begin(id) => SafeWithState(cfg, s, id, COMMITTING);
      case Rollback(id) => SafeWithState(cfg, s, id, OPEN);
      case PublishTx(id) => SafePublish(cfg, s, id, now);
      case Abort(id) => SafeAbort(cfg, s, id, now);
      case Delete(ident) => SafeDelete(cfg, s, ident, now);
      case Unlink(d) => SafeRemove(cfg, s, {d});
      case DropRow(d) => SafeRemove(cfg, s, {d});
      case ExpireDue => SafeExpireAllDue(cfg, s, now);
      case Reopen => SafeReopenAll(cfg, s);
    }
  }
}
