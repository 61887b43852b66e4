/** The storage layer's tables and files as values (`fr_schema.cpp`), and what
    each storage operation does to them (`fr_storage.cpp`). The class in
    storage_layer.dfy carries the source's loops and is proved to compute these. */
module Store {
  import opened Bytes

  type Digest = string
  type SessionId = string

  datatype Ident = Ident(ns: string, name: string, version: string)

  datatype SessionState = OPEN | COMMITTING | COMPLETED | ABORTED | EXPIRED

  /** Chunk sizes are at least 1 MiB; the model only needs them not to be zero. */
  type ChunkSize = n: nat | n > 0 witness 1

  datatype Session = Session(
    owner: string,
    state: SessionState,
    ident: Ident,
    expectedSize: U64,
    expectedDigest: Digest,
    chunkSize: ChunkSize,
    createdAt: int,
    expiresAt: int)

  datatype PartKey = PartKey(session: SessionId, ordinal: nat)

  datatype Part = Part(digest: Digest, length: nat)

  datatype ChunkState = ACTIVE | PENDING_DELETE

  datatype Chunk = Chunk(rawSize: nat, state: ChunkState, pendingAt: Option<int>, createdAt: int)

  datatype Entry = Entry(ordinal: nat, offset: nat, length: nat, digest: Digest)

  datatype Artifact = Artifact(
    size: U64,
    digest: Digest,
    chunkSize: ChunkSize,
    creator: string,
    createdAt: int,
    manifest: seq<Entry>)

  /** Five tables and the chunk files. `artifact_chunk` rows live in the manifest
      of their artifact, as the schema's ON DELETE CASCADE makes them. */
  datatype State = State(
    artifacts: map<Ident, Artifact>,
    chunks: map<Digest, Chunk>,
    sessions: map<SessionId, Session>,
    parts: map<PartKey, Part>,
    files: map<Digest, Bytes>)

  const EMPTY := State(map[], map[], map[], map[], map[])

  /** StorageConfig, and the hash. `corpus` is the set of chunk contents that ever
      occur; SHA-256 is only assumed collision-free there. */
  datatype Config = Config(
    sha: Bytes -> Digest,
    corpus: Bytes -> bool,
    chunkSize: ChunkSize,
    capacity: U64,
    highWatermark: nat,
    sessionHours: nat,
    graceSeconds: nat,
    maxSessions: int)

  const MIB: nat := 1024 * 1024

  ghost predicate CollisionFree(cfg: Config) {
    forall a, b :: cfg.corpus(a) && cfg.corpus(b) && cfg.sha(a) == cfg.sha(b) ==> a == b
  }

  /** The configurations Storage::open accepts. */
  ghost predicate ValidConfig(cfg: Config) {
    && MIB <= cfg.chunkSize <= 8 * MIB
    && 1 <= cfg.highWatermark <= 100
    && 1 <= cfg.sessionHours <= 168
    && CollisionFree(cfg)
  }

  // ---- References -----------------------------------------------------------------

  predicate Live(st: SessionState) { st == OPEN || st == COMMITTING }

  predicate Terminal(st: SessionState) { !Live(st) }

  /** EXPIRED and ABORTED: their part rows are dropped. */
  predicate Dead(st: SessionState) { st == EXPIRED || st == ABORTED }

  predicate InManifest(a: Artifact, d: Digest) {
    exists i :: 0 <= i < |a.manifest| && a.manifest[i].digest == d
  }

  predicate ByArtifact(s: State, d: Digest) {
    exists id :: id in s.artifacts && InManifest(s.artifacts[id], d)
  }

  predicate LivePart(s: State, k: PartKey) {
    k in s.parts && k.session in s.sessions && Live(s.sessions[k.session].state)
  }

  predicate ByUpload(s: State, d: Digest) {
    exists k :: k in s.parts && LivePart(s, k) && s.parts[k].digest == d
  }

  /** The ordinals a session holds. */
  function Ordinals(parts: map<PartKey, Part>, id: SessionId): set<nat> {
    set k | k in parts && k.session == id :: k.ordinal
  }

  /** chunk_referenced: the two COUNT queries. */
  predicate Referenced(s: State, d: Digest) {
    ByArtifact(s, d) || ByUpload(s, d)
  }

  // ---- Small updates ------------------------------------------------------------------

  function WithState(s: State, id: SessionId, st: SessionState): State
    requires id in s.sessions
  {
    s.(sessions := s.sessions[id := s.sessions[id].(state := st)])
  }

  function DigestsOf(s: State, id: SessionId): set<Digest> {
    set k | k in s.parts && k.session == id :: s.parts[k].digest
  }

  function DropParts(s: State, id: SessionId): State {
    s.(parts := map k | k in s.parts && k.session != id :: s.parts[k])
  }

  predicate Markable(s: State, ds: set<Digest>, d: Digest) {
    d in ds && d in s.chunks && s.chunks[d].state == ACTIVE && !Referenced(s, d)
  }

  /** The marking loop: every ACTIVE chunk of `ds` that nothing references. */
  function MarkAll(s: State, ds: set<Digest>, now: int): State {
    s.(chunks := map d | d in s.chunks ::
      if Markable(s, ds, d) then s.chunks[d].(state := PENDING_DELETE, pendingAt := Some(now))
      else s.chunks[d])
  }

  /** mark_unreferenced_parts. */
  function MarkParts(s: State, id: SessionId, now: int): State {
    MarkAll(DropParts(s, id), DigestsOf(s, id), now)
  }

  predicate Due(x: Session, now: int) { x.state == OPEN && x.expiresAt <= now }

  /** expire_session_if_due. */
  function ExpireIfDue(s: State, id: SessionId, now: int): (t: State)
    requires id in s.sessions
    ensures id in t.sessions
  {
    if Due(s.sessions[id], now) then MarkParts(WithState(s, id, EXPIRED), id, now) else s
  }

  // ---- Sessions --------------------------------------------------------------------------

  /** (expected_size + chunk_size - 1) / chunk_size in 64-bit arithmetic. */
  function ChunkCount(size: U64, chunkSize: ChunkSize): nat {
    if size == 0 then 0 else ((size + chunkSize - 1) % TWO_64) / chunkSize
  }

  lemma Multiples(n: int, c: nat)
    ensures n <= 0 ==> n * c <= 0
    ensures n >= 1 ==> n * c >= c
  {
  }

  /** The count is the ceiling of size / chunkSize wherever the sum does not wrap. */
  lemma CountIsCeiling(size: U64, chunkSize: ChunkSize)
    requires 0 < size && size + chunkSize - 1 < TWO_64
    ensures var n := ChunkCount(size, chunkSize);
            n >= 1 && (n - 1) * chunkSize < size <= n * chunkSize
  {
    var sum := size + chunkSize - 1;
    assert sum % TWO_64 == sum;
    var n := sum / chunkSize;
    assert n * chunkSize <= sum < n * chunkSize + chunkSize;
    Multiples(n, chunkSize);
    assert (n - 1) * chunkSize == n * chunkSize - chunkSize;
  }

  function OpenOf(s: State, owner: string): set<SessionId> {
    set id | id in s.sessions && s.sessions[id].owner == owner && s.sessions[id].state == OPEN
  }

  function Watermark(cfg: Config): nat {
    ((cfg.capacity * cfg.highWatermark) % TWO_64) / 100
  }

  function NewSession(cfg: Config, now: int, ident: Ident, size: U64, digest: Digest, owner: string): Session {
    Session(owner, OPEN, ident, size, digest, cfg.chunkSize, now, now + cfg.sessionHours * 3600)
  }

  /** create_session. `syntaxOk` is the outcome of the identifier and digest
      character checks; `id` is the fresh session id. */
  ghost function CreateSession(cfg: Config, s: State, now: int, id: SessionId, ident: Ident, size: U64,
                               digest: Digest, owner: string, syntaxOk: bool): (State, Result<Session>)
  {
    if !syntaxOk || owner == "" then (s, Err(E_ARG))
    else if |OpenOf(s, owner)| >= cfg.maxSessions then (s, Err(E_LIMIT))
    else if UsedBytes(s) >= Watermark(cfg) then (s, Err(E_LIMIT))
    else
      var x := NewSession(cfg, now, ident, size, digest, owner);
      (s.(sessions := s.sessions[id := x]), Ok(x))
  }

  datatype Accept = Accept(digest: Digest, reused: bool)

  function StoreFile(s: State, d: Digest, data: Bytes): State {
    if d in s.files then s else s.(files := s.files[d := data])
  }

  /** INSERT OR IGNORE, then reactivate a chunk that was pending deletion. */
  function Activate(chunks: map<Digest, Chunk>, d: Digest, size: nat, now: int): map<Digest, Chunk> {
    if d !in chunks then chunks[d := Chunk(size, ACTIVE, None, now)]
    else if chunks[d].state == PENDING_DELETE then chunks[d := chunks[d].(state := ACTIVE, pendingAt := None)]
    else chunks
  }

  /** The transaction that registers a part. */
  function Register(s: State, k: PartKey, d: Digest, size: nat, now: int): State {
    s.(chunks := Activate(s.chunks, d, size, now), parts := s.parts[k := Part(d, size)])
  }

  function PutChunk(cfg: Config, s: State, now: int, id: SessionId, ordinal: nat, data: Bytes): (State, Result<Accept>)
  {
    if id !in s.sessions then (s, Err(E_NOTFOUND))
    else
      var s1 := ExpireIfDue(s, id, now);
      var x := s1.sessions[id];
      if x.state == EXPIRED then (s1, Err(E_EXPIRED))
      else if x.state != OPEN then (s1, Err(E_STATE))
      else if ordinal >= ChunkCount(x.expectedSize, x.chunkSize) then (s1, Err(E_RANGE))
      else if |data| == 0 || |data| > x.chunkSize then (s1, Err(E_RANGE))
      else
        var d := cfg.sha(data);
        var s2 := StoreFile(s1, d, data);
        var k := PartKey(id, ordinal);
        if k in s2.parts then
          (s2, if s2.parts[k].digest == d then Ok(Accept(d, true)) else Err(E_CONFLICT))
        else
          (Register(s2, k, d, |data|, now), Ok(Accept(d, false)))
  }

  // ---- Commit ---------------------------------------------------------------------------------

  function TotalLength(m: seq<Entry>): nat {
    if m == [] then 0 else TotalLength(m[..|m| - 1]) + m[|m| - 1].length
  }

  lemma TotalSnoc(m: seq<Entry>, e: Entry)
    ensures TotalLength(m + [e]) == TotalLength(m) + e.length
  {
    assert (m + [e])[..|m|] == m;
  }

  /** The manifest the first n parts of a session spell out. */
  function Manifest(parts: map<PartKey, Part>, id: SessionId, n: nat): (m: seq<Entry>)
    requires forall o | 0 <= o < n :: PartKey(id, o) in parts
    ensures |m| == n
  {
    if n == 0 then []
    else
      var m := Manifest(parts, id, n - 1);
      var p := parts[PartKey(id, n - 1)];
      m + [Entry(n - 1, TotalLength(m), p.length, p.digest)]
  }

  function FileOf(files: map<Digest, Bytes>, d: Digest): Bytes {
    if d in files then files[d] else []
  }

  function Content(files: map<Digest, Bytes>, m: seq<Entry>): Bytes {
    if m == [] then [] else Content(files, m[..|m| - 1]) + FileOf(files, m[|m| - 1].digest)
  }

  /** The parts are numbered 0 to n-1, none missing and none beyond. */
  predicate Contiguous(s: State, id: SessionId, n: nat) {
    && (forall o | 0 <= o < n :: PartKey(id, o) in s.parts)
    && (forall k | k in s.parts && k.session == id :: k.ordinal < n)
  }

  function Count(x: Session): nat {
    ChunkCount(x.expectedSize, x.chunkSize)
  }

  /** The validation commit_session makes of a session's parts. */
  function CheckUpload(cfg: Config, s: State, id: SessionId): Status
    requires id in s.sessions
  {
    var x := s.sessions[id];
    var n := Count(x);
    if !Contiguous(s, id, n) then E_STATE
    else
      var m := Manifest(s.parts, id, n);
      if exists i | 0 <= i < n :: m[i].length > x.chunkSize then E_STATE
      else if TotalLength(m) != x.expectedSize then E_STATE
      else if exists i | 0 <= i < n :: m[i].digest !in s.files then E_NOTFOUND
      else if cfg.sha(Content(s.files, m)) != x.expectedDigest then E_CONFLICT
      else if x.ident in s.artifacts then E_EXISTS
      else OK
  }

  function ReactivateAll(chunks: map<Digest, Chunk>, m: seq<Entry>): map<Digest, Chunk> {
    map d | d in chunks ::
      if chunks[d].state == PENDING_DELETE && exists i :: 0 <= i < |m| && m[i].digest == d
      then chunks[d].(state := ACTIVE, pendingAt := None)
      else chunks[d]
  }

  function NewArtifact(s: State, id: SessionId, now: int): Artifact
    requires id in s.sessions
    requires Contiguous(s, id, Count(s.sessions[id]))
  {
    var x := s.sessions[id];
    Artifact(x.expectedSize, x.expectedDigest, x.chunkSize, x.owner, now, Manifest(s.parts, id, Count(x)))
  }

  /** The publishing transaction. */
  function Publish(s: State, id: SessionId, now: int): State
    requires id in s.sessions
    requires Contiguous(s, id, Count(s.sessions[id]))
  {
    var a := NewArtifact(s, id, now);
    WithState(s.(artifacts := s.artifacts[s.sessions[id].ident := a],
                 chunks := ReactivateAll(s.chunks, a.manifest)), id, COMPLETED)
  }

  /** commit_session. `room` is the largest manifest the allocator grants: beyond it
      `manifest.reserve` throws, past every handler of the storage layer, and the
      session stays COMMITTING. The worker answers with the internal error. */
  function CommitSession(cfg: Config, s: State, now: int, id: SessionId, room: nat): (State, Result<Artifact>)
  {
    if id !in s.sessions then (s, Err(E_NOTFOUND))
    else
      var s1 := ExpireIfDue(s, id, now);
      if s1.sessions[id].state == EXPIRED then (s1, Err(E_EXPIRED))
      else if s1.sessions[id].state != OPEN then (s1, Err(E_STATE))
      else if Count(s1.sessions[id]) > room then (WithState(s1, id, COMMITTING), Err(E_INTERNAL))
      else
        var verdict := CheckUpload(cfg, s1, id);
        if verdict != OK then (s1, Err(verdict))
        else (Publish(s1, id, now), Ok(NewArtifact(s1, id, now)))
  }

  // ---- Abort, delete, collect, maintain --------------------------------------------------------

  function AbortTx(s: State, id: SessionId, now: int): State
    requires id in s.sessions
  {
    MarkParts(WithState(s, id, ABORTED), id, now)
  }

  function AbortSession(s: State, now: int, id: SessionId): (State, Status) {
    if id !in s.sessions then (s, E_NOTFOUND)
    else if Terminal(s.sessions[id].state) then (s, OK)
    else (AbortTx(s, id, now), OK)
  }

  function ManifestDigests(a: Artifact): set<Digest> {
    set i | 0 <= i < |a.manifest| :: a.manifest[i].digest
  }

  function Unpublish(s: State, ident: Ident): State {
    s.(artifacts := s.artifacts - {ident})
  }

  function DeleteTx(s: State, ident: Ident, now: int): State
    requires ident in s.artifacts
  {
    MarkAll(Unpublish(s, ident), ManifestDigests(s.artifacts[ident]), now)
  }

  function NewlyMarked(s: State, ident: Ident): set<Digest>
    requires ident in s.artifacts
  {
    var t := Unpublish(s, ident);
    set d | d in ManifestDigests(s.artifacts[ident]) && Markable(t, ManifestDigests(s.artifacts[ident]), d)
  }

  function DeleteArtifact(s: State, now: int, ident: Ident): (State, Result<nat>) {
    if ident !in s.artifacts then (s, Err(E_NOTFOUND))
    else (DeleteTx(s, ident, now), Ok(|NewlyMarked(s, ident)|))
  }

  datatype GcReport = GcReport(scanned: nat, deletedCount: nat, deletedBytes: nat)

  predicate Pending(s: State, d: Digest) {
    d in s.chunks && s.chunks[d].state == PENDING_DELETE && s.chunks[d].pendingAt.Some?
  }

  /** Pending, and past the protection period. */
  predicate Ripe(cfg: Config, s: State, d: Digest, now: int) {
    Pending(s, d) && s.chunks[d].pendingAt.value <= now - cfg.graceSeconds
  }

  function PendingSet(s: State): set<Digest> {
    set d | d in s.chunks && Pending(s, d)
  }

  function Garbage(cfg: Config, s: State, now: int): set<Digest> {
    set d | d in s.chunks && Ripe(cfg, s, d, now) && !Referenced(s, d)
  }

  /** The branch of the sweep that re-activates: ripe, yet referenced. */
  function Rescued(cfg: Config, s: State, now: int): set<Digest> {
    set d | d in s.chunks && Ripe(cfg, s, d, now) && Referenced(s, d)
  }

  function Rescue(s: State, ds: set<Digest>): State {
    s.(chunks := map d | d in s.chunks ::
      if d in ds then s.chunks[d].(state := ACTIVE, pendingAt := None) else s.chunks[d])
  }

  function Sweep(s: State, ds: set<Digest>): State {
    s.(chunks := s.chunks - ds, files := s.files - ds)
  }

  ghost function CollectGarbage(cfg: Config, s: State, now: int, dryRun: bool): (State, GcReport) {
    var garbage := Garbage(cfg, s, now);
    var s1 := Rescue(s, Rescued(cfg, s, now));
    (if dryRun then s1 else Sweep(s1, garbage),
     GcReport(|PendingSet(s)|, |garbage|, Sum(garbage, RawSize(s.chunks))))
  }

  datatype RecoveryReport = RecoveryReport(expired: nat, rolledBack: nat)

  function DueSet(s: State, now: int): set<SessionId> {
    set id | id in s.sessions && Due(s.sessions[id], now)
  }

  function CommittingSet(s: State): set<SessionId> {
    set id | id in s.sessions && s.sessions[id].state == COMMITTING
  }

  function ExpireAllDue(s: State, now: int): State {
    s.(sessions := map id | id in s.sessions ::
      if Due(s.sessions[id], now) then s.sessions[id].(state := EXPIRED) else s.sessions[id])
  }

  function ReopenAll(s: State): State {
    s.(sessions := map id | id in s.sessions ::
      if s.sessions[id].state == COMMITTING then s.sessions[id].(state := OPEN) else s.sessions[id])
  }

  predicate DeadKey(s: State, k: PartKey) {
    k.session in s.sessions && Dead(s.sessions[k.session].state)
  }

  function DeadDigests(s: State): set<Digest> {
    set k | k in s.parts && DeadKey(s, k) :: s.parts[k].digest
  }

  function DropDeadParts(s: State): State {
    s.(parts := map k | k in s.parts && !DeadKey(s, k) :: s.parts[k])
  }

  function RunMaintenance(s: State, now: int): (State, RecoveryReport) {
    var s1 := ReopenAll(ExpireAllDue(s, now));
    (MarkAll(DropDeadParts(s1), DeadDigests(s1), now),
     RecoveryReport(|DueSet(s, now)|, |CommittingSet(s)|))
  }

  // ---- Sums ---------------------------------------------------------------------------------

  ghost function Sum<K>(ks: set<K>, f: K -> nat): nat {
    if ks == {} then 0
    else
      var k :| k in ks;
      f(k) + Sum(ks - {k}, f)
  }

  function RawSize(chunks: map<Digest, Chunk>): Digest -> nat {
    d => if d in chunks then chunks[d].rawSize else 0
  }

  function ActiveSet(s: State): set<Digest> {
    set d | d in s.chunks && s.chunks[d].state == ACTIVE
  }

  /** SELECT SUM(raw_size) FROM chunk WHERE state = 'ACTIVE'. */
  ghost function UsedBytes(s: State): nat {
    Sum(ActiveSet(s), RawSize(s.chunks))
  }

  lemma NothingUsed(s: State)
    requires s.chunks == map[]
    ensures UsedBytes(s) == 0
  {
    assert ActiveSet(s) == {};
  }

  lemma {:induction false} SumPull<K>(ks: set<K>, k: K, f: K -> nat)
    requires k in ks
    ensures Sum(ks, f) == f(k) + Sum(ks - {k}, f)
  {
    var j :| j in ks && Sum(ks, f) == f(j) + Sum(ks - {j}, f);
    if j != k {
      SumPull(ks - {j}, k, f);
      SumPull(ks - {k}, j, f);
      assert ks - {j} - {k} == ks - {k} - {j};
    }
  }

  lemma SumPush<K>(ks: set<K>, k: K, f: K -> nat)
    requires k !in ks
    ensures Sum(ks + {k}, f) == f(k) + Sum(ks, f)
  {
    SumPull(ks + {k}, k, f);
    assert ks + {k} - {k} == ks;
  }

  lemma {:induction false} SumAtMost<K>(ks: set<K>, f: K -> nat, g: K -> nat)
    requires forall k :: k in ks ==> f(k) <= g(k)
    ensures Sum(ks, f) <= Sum(ks, g)
  {
    if ks != {} {
      var k :| k in ks;
      SumPull(ks, k, f);
      SumPull(ks, k, g);
      SumAtMost(ks - {k}, f, g);
    }
  }

  lemma SumSame<K>(ks: set<K>, f: K -> nat, g: K -> nat)
    requires forall k :: k in ks ==> f(k) == g(k)
    ensures Sum(ks, f) == Sum(ks, g)
  {
    SumAtMost(ks, f, g);
    SumAtMost(ks, g, f);
  }

  /** Two weights that differ at one key only. */
  lemma SumOneLess<K>(ks: set<K>, k: K, f: K -> nat, g: K -> nat, c: nat)
    requires k in ks && f(k) == g(k) + c
    requires forall j :: j in ks && j != k ==> f(j) == g(j)
    ensures Sum(ks, f) == Sum(ks, g) + c
  {
    SumPull(ks, k, f);
    SumPull(ks, k, g);
    SumSame(ks - {k}, f, g);
  }

  lemma {:induction false} SumSubset<K>(js: set<K>, ks: set<K>, f: K -> nat)
    requires js <= ks
    ensures Sum(js, f) <= Sum(ks, f)
    decreases ks
  {
    if js != {} {
      var k :| k in js;
      SumPull(js, k, f);
      SumPull(ks, k, f);
      SumSubset(js - {k}, ks - {k}, f);
    }
  }
}
