/** Publishing: what commit_session guarantees, and the round trip of a file that
    is cut up by the client, uploaded in any order among any other traffic, and
    read back. */
module Upload {
  import opened Bytes
  import opened Store
  import opened Safety
  import opened Operations
  import opened Exactness

  // ---- Commit is all or nothing ------------------------------------------------------

  lemma {:induction false} ContentLength(cfg: Config, s: State, m: seq<Entry>)
    requires ValidConfig(cfg) && FilesOk(cfg, s)
    requires forall i :: 0 <= i < |m| ==> m[i].digest in s.files && Sized(cfg, m[i].digest, m[i].length)
    ensures |Content(s.files, m)| == TotalLength(m)
  {
    if m != [] {
      var n := |m| - 1;
      ContentLength(cfg, s, m[..n]);
      FileSize(cfg, s, m[n].digest, m[n].length);
    }
  }

  /** The condition a caller could check before committing. */
  ghost predicate Committable(cfg: Config, s: State, id: SessionId)
    requires id in s.sessions
  {
    var x := s.sessions[id];
    && Contiguous(s, id, Count(x))
    && TotalLength(Manifest(s.parts, id, Count(x))) == x.expectedSize
    && cfg.sha(Content(s.files, Manifest(s.parts, id, Count(x)))) == x.expectedDigest
    && x.ident !in s.artifacts
  }

  /** In a safe state the length check and the chunk reads never fail. */
  lemma CheckIff(cfg: Config, s: State, id: SessionId)
    requires Safe(cfg, s) && HasState(s, id, OPEN)
    ensures CheckUpload(cfg, s, id) == OK <==> Committable(cfg, s, id)
  {
    var x := s.sessions[id];
    assert SizeOk(x.chunkSize);
    if Contiguous(s, id, Count(x)) {
      var m := Manifest(s.parts, id, Count(x));
      ManifestFacts(cfg, s, id, Count(x));
      UploadAllAlive(cfg, s, id, m);
      forall i | 0 <= i < |m| ensures m[i].length <= x.chunkSize && m[i].digest in s.files {
        assert EntryOk(cfg, x.chunkSize, m, i);
        assert Alive(s, m[i].digest);
      }
    }
  }

  /** Main result: on an open session before its expiry, commit_session has three
      endings. When the manifest cannot be allocated the session is left COMMITTING
      and nothing else changes. Otherwise it either changes nothing, or publishes
      exactly one artifact, whose manifest covers [0, size) in order and whose
      content has the declared digest; and it publishes exactly when the upload is
      committable. */
  lemma CommitAllOrNothing(cfg: Config, s: State, now: int, id: SessionId, room: nat)
    requires ValidConfig(cfg) && Safe(cfg, s) && HasState(s, id, OPEN) && now < s.sessions[id].expiresAt
    ensures var (t, r) := CommitSession(cfg, s, now, id, room);
            var x := s.sessions[id];
            && (r == Err(E_INTERNAL) <==> Count(x) > room)
            && (r == Err(E_INTERNAL) ==> t == WithState(s, id, COMMITTING))
            && (r.Ok? <==> Count(x) <= room && Committable(cfg, s, id))
            && (r.Err? && r.code != E_INTERNAL ==> t == s)
            && (r.Ok? ==>
                  && x.ident !in s.artifacts
                  && t.artifacts == s.artifacts[x.ident := r.value]
                  && t.sessions == s.sessions[id := x.(state := COMPLETED)]
                  && t.parts == s.parts && t.chunks == s.chunks && t.files == s.files
                  && r.value.size == x.expectedSize && r.value.digest == x.expectedDigest
                  && r.value.creator == x.owner
                  && |r.value.manifest| == Count(x)
                  && ManifestOk(cfg, x.chunkSize, r.value.manifest)
                  && TotalLength(r.value.manifest) == x.expectedSize
                  && |Content(t.files, r.value.manifest)| == x.expectedSize
                  && cfg.sha(Content(t.files, r.value.manifest)) == x.expectedDigest)
  {
    CheckIff(cfg, s, id);
    if CheckUpload(cfg, s, id) == OK {
      var m := Manifest(s.parts, id, Count(s.sessions[id]));
      SafePublish(cfg, s, id, now);
      ManifestFacts(cfg, s, id, Count(s.sessions[id]));
      UploadAllAlive(cfg, s, id, m);
      forall i | 0 <= i < |m| ensures m[i].digest in s.files && Sized(cfg, m[i].digest, m[i].length) {
        assert EntryOk(cfg, s.sessions[id].chunkSize, m, i);
        assert Alive(s, m[i].digest);
      }
      ContentLength(cfg, s, m);
    }
    hide Safe, CheckUpload, ManifestOk, Count, Contiguous, Manifest, Content, TotalLength, Referenced;
  }

  // ---- Cutting a file as the client does -----------------------------------------------

  /** The bytes frctl reads for one ordinal: a full chunk, or the rest. */
  function Piece(file: Bytes, chunkSize: ChunkSize, o: nat): Bytes {
    if o * chunkSize <= |file| then Slice(file, o * chunkSize, chunkSize) else []
  }

  function FileEntry(cfg: Config, file: Bytes, chunkSize: ChunkSize, o: nat): Entry {
    Entry(o, o * chunkSize, |Piece(file, chunkSize, o)|, cfg.sha(Piece(file, chunkSize, o)))
  }

  /** The one manifest of a file. */
  function FileManifest(cfg: Config, file: Bytes, chunkSize: ChunkSize, n: nat): seq<Entry> {
    if n == 0 then [] else FileManifest(cfg, file, chunkSize, n - 1) + [FileEntry(cfg, file, chunkSize, n - 1)]
  }

  lemma PieceStarts(file: Bytes, chunkSize: ChunkSize, o: nat, n: nat)
    requires o < n && (n - 1) * chunkSize < |file|
    ensures o * chunkSize < |file|
  {
    assert o * chunkSize <= (n - 1) * chunkSize by {
      assert (n - 1) * chunkSize == o * chunkSize + (n - 1 - o) * chunkSize;
      assert (n - 1 - o) * chunkSize >= 0;
    }
  }

  /** Where the pieces of a file lie. */
  lemma Pieces(file: Bytes, chunkSize: ChunkSize, o: nat)
    requires |file| + chunkSize <= TWO_64 && o < ChunkCount(|file|, chunkSize)
    ensures var n := ChunkCount(|file|, chunkSize); 0 < n && (n - 1) * chunkSize < |file| <= n * chunkSize
    ensures o * chunkSize < |file|
    ensures 0 < |Piece(file, chunkSize, o)| <= chunkSize
  {
    CountIsCeiling(|file|, chunkSize);
    PieceStarts(file, chunkSize, o, ChunkCount(|file|, chunkSize));
  }

  lemma OffsetStep(n: nat, c: nat)
    requires n > 0
    ensures n * c == (n - 1) * c + c
  {
  }

  lemma Monotone(a: nat, b: nat, c: nat)
    requires a <= b
    ensures a * c <= b * c
  {
    assert b * c == a * c + (b - a) * c;
    assert (b - a) * c >= 0;
  }

  /** n chunks hold `size` bytes and n - 1 do not. */
  predicate Covers(n: nat, c: nat, size: nat) {
    n > 0 && (n - 1) * c < size <= n * c
  }

  lemma CountUnique(n: nat, m: nat, c: nat, size: nat)
    requires Covers(n, c, size) && Covers(m, c, size)
    ensures n == m
  {
    if n < m {
      Monotone(n, m - 1, c);
    } else if m < n {
      Monotone(m, n - 1, c);
    }
  }

  /** Where the sending loop is: at the start of piece `ordinal`, or at the end. */
  predicate AtPiece(ordinal: nat, sent: nat, c: nat, size: nat) {
    sent <= size && (if sent < size || size == 0 then sent == ordinal * c else Covers(ordinal, c, size))
  }

  lemma NextPiece(file: Bytes, chunkSize: ChunkSize, ordinal: nat, sent: nat)
    requires sent < |file| && AtPiece(ordinal, sent, chunkSize, |file|)
    ensures var want := Min(|file| - sent, chunkSize);
            && file[sent..sent + want] == Piece(file, chunkSize, ordinal) && want > 0
            && AtPiece(ordinal + 1, sent + want, chunkSize, |file|)
  {
    OffsetStep(ordinal + 1, chunkSize);
  }

  /** frctl's loop: it sends exactly the pieces, as many as the server expects. */
  method CutFile(file: Bytes, chunkSize: ChunkSize) returns (sends: seq<Bytes>)
    requires |file| + chunkSize <= TWO_64
    ensures |sends| == ChunkCount(|file|, chunkSize)
    ensures forall o :: 0 <= o < |sends| ==> sends[o] == Piece(file, chunkSize, o)
    ensures Flatten(sends) == file
  {
    NoSends(file, chunkSize);
    hide ChunkCount, Flatten, AtPiece, Covers, Piece;
    sends := [];
    var ordinal, sent := 0, 0;
    while sent < |file|
      invariant ordinal == |sends| && sent <= |file| && AtPiece(ordinal, sent, chunkSize, |file|)
      invariant forall o :: 0 <= o < |sends| ==> sends[o] == Piece(file, chunkSize, o)
      invariant Flatten(sends) == file[..sent]
      decreases |file| - sent
    {
      var want := if |file| - sent < chunkSize then |file| - sent else chunkSize;
      var buffer := file[sent..sent + want];
      NextPiece(file, chunkSize, ordinal, sent);
      FlattenSnoc(sends, buffer);
      assert file[..sent] + buffer == file[..sent + want];
      sends := sends + [buffer];
      sent := sent + want;
      ordinal := ordinal + 1;
    }
    assert file[..|file|] == file;
    AllSent(file, chunkSize, ordinal);
  }

  lemma AllSent(file: Bytes, chunkSize: ChunkSize, ordinal: nat)
    requires |file| + chunkSize <= TWO_64 && AtPiece(ordinal, |file|, chunkSize, |file|)
    ensures ordinal == ChunkCount(|file|, chunkSize)
  {
    if |file| > 0 {
      CountIsCeiling(|file|, chunkSize);
      CountUnique(ordinal, ChunkCount(|file|, chunkSize), chunkSize, |file|);
    } else {
      NoneSent(ordinal, chunkSize);
    }
  }

  lemma NoneSent(ordinal: nat, chunkSize: ChunkSize)
    requires ordinal * chunkSize == 0
    ensures ordinal == 0
  {
    Multiples(ordinal, chunkSize);
  }

  lemma NoSends(file: Bytes, chunkSize: ChunkSize)
    ensures Flatten<Byte>([]) == file[..0] && AtPiece(0, 0, chunkSize, |file|)
  {
  }

  // ---- Uploading among other traffic ----------------------------------------------------

  /** The session was opened for this file. */
  ghost predicate Declares(cfg: Config, x: Session, file: Bytes) {
    && x.state == OPEN && SizeOk(x.chunkSize)
    && |file| + x.chunkSize <= TWO_64 && x.expectedSize == |file| && x.expectedDigest == cfg.sha(file)
    && forall o: nat :: o < Count(x) ==> cfg.corpus(Piece(file, x.chunkSize, o))
  }

  ghost predicate RightPart(cfg: Config, x: Session, file: Bytes, o: nat, p: Part) {
    p == Part(cfg.sha(Piece(file, x.chunkSize, o)), |Piece(file, x.chunkSize, o)|)
  }

  /** The session is open for the file, and what it holds of it is right. */
  ghost predicate Uploading(cfg: Config, s: State, id: SessionId, x: Session, file: Bytes) {
    && id in s.sessions && s.sessions[id] == x && Declares(cfg, x, file)
    && forall o: nat :: PartKey(id, o) in s.parts ==> RightPart(cfg, x, file, o, s.parts[PartKey(id, o)])
  }

  /** A call the uploader or anyone else may make meanwhile: on this session only
      the right pieces are put, and nobody commits or aborts it. */
  ghost predicate Benign(x: Session, id: SessionId, file: Bytes, op: Op)
  {
    match op
    case CreateOp(_, _, _, _, _, _) => true
    case PutOp(j, o, data) => j == id ==> data == Piece(file, x.chunkSize, o) && o < Count(x)
    case CommitOp(j, _) => j != id
    case FailOp(_, _, _) => true
    case AbortOp(j) => j != id
    case _ => true
  }

  /** The rows of one session. */
  ghost predicate RowsKept(s: State, t: State, id: SessionId) {
    && id in s.sessions && id in t.sessions && t.sessions[id] == s.sessions[id]
    && forall o: nat ::
         (PartKey(id, o) in s.parts <==> PartKey(id, o) in t.parts)
         && (PartKey(id, o) in s.parts ==> t.parts[PartKey(id, o)] == s.parts[PartKey(id, o)])
  }

  lemma MarkKeeps(s: State, ds: set<Digest>, now: int, id: SessionId)
    requires id in s.sessions
    ensures RowsKept(s, MarkAll(s, ds, now), id)
  {
    hide Referenced;
  }

  lemma RowsTrans(s: State, t: State, u: State, id: SessionId)
    requires RowsKept(s, t, id) && RowsKept(t, u, id)
    ensures RowsKept(s, u, id)
  {
  }

  lemma RetireKeeps(s: State, j: SessionId, st: SessionState, now: int, id: SessionId)
    requires id in s.sessions && j in s.sessions && j != id
    ensures RowsKept(s, MarkParts(WithState(s, j, st), j, now), id)
  {
    var t := DropParts(WithState(s, j, st), j);
    assert RowsKept(s, t, id);
    MarkKeeps(t, DigestsOf(WithState(s, j, st), j), now, id);
    hide MarkAll, DropParts;
    RowsTrans(s, t, MarkParts(WithState(s, j, st), j, now), id);
  }

  lemma ExpireOtherKeeps(s: State, j: SessionId, now: int, id: SessionId)
    requires id in s.sessions && j in s.sessions && (j != id || !Due(s.sessions[id], now))
    ensures RowsKept(s, ExpireIfDue(s, j, now), id)
  {
    if Due(s.sessions[j], now) {
      RetireKeeps(s, j, EXPIRED, now, id);
    }
  }

  lemma PutOtherKeeps(cfg: Config, s: State, now: int, j: SessionId, o: nat, data: Bytes, id: SessionId)
    requires id in s.sessions && j != id
    ensures RowsKept(s, PutChunk(cfg, s, now, j, o, data).0, id)
  {
    if j in s.sessions {
      ExpireOtherKeeps(s, j, now, id);
      hide ExpireIfDue, ChunkCount, Activate;
    }
  }

  lemma CommitOtherKeeps(cfg: Config, s: State, now: int, j: SessionId, room: nat, id: SessionId)
    requires id in s.sessions && j != id
    ensures RowsKept(s, CommitSession(cfg, s, now, j, room).0, id)
  {
    if j in s.sessions {
      ExpireOtherKeeps(s, j, now, id);
      hide ExpireIfDue, CheckUpload, NewArtifact, ReactivateAll, Contiguous;
    }
  }

  lemma MaintainKeeps(s: State, now: int, id: SessionId)
    requires HasState(s, id, OPEN) && now < s.sessions[id].expiresAt
    ensures RowsKept(s, RunMaintenance(s, now).0, id)
  {
    var s1 := Settled(s, now);
    assert s1.sessions[id] == s.sessions[id];
    var u := DropDeadParts(s1);
    assert forall o: nat :: PartKey(id, o) in s.parts ==> !DeadKey(s1, PartKey(id, o));
    assert RowsKept(s, u, id);
    MarkKeeps(u, DeadDigests(s1), now, id);
    hide MarkAll, DropDeadParts, DeadDigests, ReopenAll, ExpireAllDue;
    RowsTrans(s, u, RunMaintenance(s, now).0, id);
  }

  /** Everything that is not this session's own put leaves its rows alone. */
  lemma OthersKeep(cfg: Config, s: State, op: Op, now: int, id: SessionId, x: Session, file: Bytes)
    requires Admissible(cfg, s, op) && HasState(s, id, OPEN) && now < s.sessions[id].expiresAt
    requires s.sessions[id] == x && Benign(x, id, file, op) && !(op.PutOp? && op.id == id)
    ensures RowsKept(s, OpState(cfg, s, op, now), id)
  {
    hide PutChunk, CommitSession, RunMaintenance, MarkAll, UsedBytes, OpenOf, Garbage, Rescued, ChunkCount;
    match op {
      case CreateOp(_, _, _, _, _, _) =>
      case PutOp(j, o, data) => PutOtherKeeps(cfg, s, now, j, o, data, id);
      case CommitOp(j, room) => CommitOtherKeeps(cfg, s, now, j, room, id);
      case AbortOp(j) =>
        if j in s.sessions { RetireKeeps(s, j, ABORTED, now, id); }
      case DeleteOp(ident) =>
        if ident in s.artifacts {
          MarkKeeps(Unpublish(s, ident), ManifestDigests(s.artifacts[ident]), now, id);
        }
      case FailOp(j, _, _) => if j in s.sessions { ExpireOtherKeeps(s, j, now, id); }
      case GcOp(dryRun) =>
      case MaintainOp => MaintainKeeps(s, now, id);
    }
  }

  lemma PutKeepsArtifacts(cfg: Config, s: State, now: int, id: SessionId, o: nat, data: Bytes)
    ensures PutChunk(cfg, s, now, id, o, data).0.artifacts == s.artifacts
  {
    hide Referenced, ChunkCount, Activate;
  }

  /** This session's put succeeds and leaves the right part in place. */
  lemma OwnPut(cfg: Config, s: State, now: int, id: SessionId, x: Session, file: Bytes, o: nat)
    requires Uploading(cfg, s, id, x, file) && now < x.expiresAt && o < Count(x)
    ensures var (t, r) := PutChunk(cfg, s, now, id, o, Piece(file, x.chunkSize, o));
            && r.Ok? && r.value.digest == cfg.sha(Piece(file, x.chunkSize, o))
            && r.value.reused == (PartKey(id, o) in s.parts)
            && Uploading(cfg, t, id, x, file)
            && PartKey(id, o) in t.parts
            && forall i: nat :: PartKey(id, i) in s.parts ==> PartKey(id, i) in t.parts
  {
    CountDef(x);
    Pieces(file, x.chunkSize, o);
    assert !Due(x, now);
    hide Declares, ChunkCount, Activate, Piece, Count;
  }

  /** One benign call: the upload only grows. */
  lemma BenignStep(cfg: Config, s: State, op: Op, now: int, id: SessionId, x: Session, file: Bytes)
    requires ValidConfig(cfg) && Safe(cfg, s) && Uploading(cfg, s, id, x, file)
    requires now < x.expiresAt && Benign(x, id, file, op) && Admissible(cfg, s, op)
    ensures var t := OpState(cfg, s, op, now);
            && Safe(cfg, t) && Uploading(cfg, t, id, x, file)
            && (op.PutOp? && op.id == id ==> PartKey(id, op.ordinal) in t.parts)
            && forall i: nat :: PartKey(id, i) in s.parts ==> PartKey(id, i) in t.parts
  {
    assert x.state == OPEN;
    hide Safe, ValidConfig, Runs, After, Plan, Admissible, Declares, RightPart, Count, OpState;
    PlanRuns(cfg, s, op, now);
    RunSafe(cfg, s, Plan(cfg, s, op, now), now);
    if op.PutOp? && op.id == id {
      OwnPut(cfg, s, now, id, x, file, op.ordinal);
      OpStateOfPut(cfg, s, op, now);
    } else {
      OthersKeep(cfg, s, op, now, id, x, file);
    }
  }

  lemma OpStateOfPut(cfg: Config, s: State, op: Op, now: int)
    requires op.PutOp?
    ensures OpState(cfg, s, op, now) == PutChunk(cfg, s, now, op.id, op.ordinal, op.data).0
  {
  }

  ghost predicate PutSomewhere(calls: seq<Call>, id: SessionId, o: nat) {
    exists i :: 0 <= i < |calls| && calls[i].op.PutOp? && calls[i].op.id == id && calls[i].op.ordinal == o
  }

  /** Any schedule of benign calls: every ordinal put at least once is present. */
  lemma {:induction false} BenignRun(cfg: Config, s: State, calls: seq<Call>, id: SessionId, x: Session, file: Bytes)
    requires ValidConfig(cfg) && Safe(cfg, s) && Uploading(cfg, s, id, x, file)
    requires CallsOk(cfg, s, calls)
    requires forall i :: 0 <= i < |calls| ==> calls[i].now < x.expiresAt && Benign(x, id, file, calls[i].op)
    ensures var t := AfterCalls(cfg, s, calls);
            && Safe(cfg, t) && Uploading(cfg, t, id, x, file)
            && (forall o: nat :: PartKey(id, o) in s.parts || PutSomewhere(calls, id, o) ==> PartKey(id, o) in t.parts)
    decreases |calls|
  {
    hide Safe, ValidConfig, Uploading, Benign, OpState, Admissible;
    if calls != [] {
      var c, rest := calls[0], calls[1..];
      BenignStep(cfg, s, c.op, c.now, id, x, file);
      var u := OpState(cfg, s, c.op, c.now);
      BenignRun(cfg, u, rest, id, x, file);
      forall o: nat | PutSomewhere(calls, id, o)
        ensures PartKey(id, o) in u.parts || PutSomewhere(rest, id, o)
      {
        var i :| 0 <= i < |calls| && calls[i].op.PutOp? && calls[i].op.id == id && calls[i].op.ordinal == o;
        if i > 0 {
          assert rest[i - 1] == calls[i];
        }
      }
    }
  }

  // ---- The complete upload commits -----------------------------------------------------------

  /** The manifest of a complete upload is the file's, whatever the schedule. */
  lemma {:induction false} SameManifest(cfg: Config, parts: map<PartKey, Part>, id: SessionId, x: Session, file: Bytes,
                                        n: nat)
    requires n == 0 || (n - 1) * x.chunkSize < |file|
    requires forall o: nat :: o < n ==> PartKey(id, o) in parts && RightPart(cfg, x, file, o, parts[PartKey(id, o)])
    ensures Manifest(parts, id, n) == FileManifest(cfg, file, x.chunkSize, n)
    ensures TotalLength(Manifest(parts, id, n)) == Min(n * x.chunkSize, |file|)
    decreases n
  {
    if n != 0 {
      if n > 1 { PieceStarts(file, x.chunkSize, n - 2, n); }
      SameManifest(cfg, parts, id, x, file, n - 1);
      OffsetStep(n, x.chunkSize);
      if n > 1 { OffsetStep(n - 1, x.chunkSize); }
      var m := Manifest(parts, id, n);
      assert m[..n - 1] == Manifest(parts, id, n - 1);
    }
  }

  /** The stored chunks of an upload are the pieces themselves. */
  lemma StoredPiece(cfg: Config, s: State, id: SessionId, x: Session, file: Bytes, o: nat)
    requires ValidConfig(cfg) && Safe(cfg, s) && Uploading(cfg, s, id, x, file)
    requires PartKey(id, o) in s.parts && o < Count(x)
    ensures FileOf(s.files, cfg.sha(Piece(file, x.chunkSize, o))) == Piece(file, x.chunkSize, o)
  {
    assert RightPart(cfg, x, file, o, s.parts[PartKey(id, o)]);
    var d := s.parts[PartKey(id, o)].digest;
    assert LivePart(s, PartKey(id, o));
    assert ByUpload(s, d) && Referenced(s, d);
    assert Alive(s, d);
    assert cfg.corpus(Piece(file, x.chunkSize, o));
  }

  lemma ContentGrows(files: map<Digest, Bytes>, m: seq<Entry>, e: Entry)
    ensures Content(files, m + [e]) == Content(files, m) + FileOf(files, e.digest)
  {
    assert (m + [e])[..|m|] == m;
  }

  lemma PieceAppends(file: Bytes, chunkSize: ChunkSize, n: nat)
    requires n > 0 && (n - 1) * chunkSize < |file|
    ensures file[..Min((n - 1) * chunkSize, |file|)] + Piece(file, chunkSize, n - 1) ==
            file[..Min(n * chunkSize, |file|)]
  {
    OffsetStep(n, chunkSize);
  }

  lemma {:induction false} StoredContent(cfg: Config, files: map<Digest, Bytes>, file: Bytes, chunkSize: ChunkSize,
                                         n: nat)
    requires n == 0 || (n - 1) * chunkSize < |file|
    requires forall o: nat :: o < n ==>
               FileOf(files, FileEntry(cfg, file, chunkSize, o).digest) == Piece(file, chunkSize, o)
    ensures Content(files, FileManifest(cfg, file, chunkSize, n)) == file[..Min(n * chunkSize, |file|)]
    decreases n
  {
    if n != 0 {
      if n > 1 { PieceStarts(file, chunkSize, n - 2, n); }
      hide Piece, Content, FileOf, FileEntry;
      StoredContent(cfg, files, file, chunkSize, n - 1);
      PieceAppends(file, chunkSize, n);
      ContentGrows(files, FileManifest(cfg, file, chunkSize, n - 1), FileEntry(cfg, file, chunkSize, n - 1));
    } else {
      assert file[..0] == [];
    }
  }

  /** The session is complete: every ordinal is there. */
  ghost predicate Complete(s: State, id: SessionId, x: Session) {
    forall o: nat :: o < Count(x) ==> PartKey(id, o) in s.parts
  }

  lemma CompleteManifest(cfg: Config, s: State, id: SessionId, x: Session, file: Bytes)
    requires Uploading(cfg, s, id, x, file) && Complete(s, id, x)
    ensures forall o: nat :: o < Count(x) ==> PartKey(id, o) in s.parts
    ensures Manifest(s.parts, id, Count(x)) == FileManifest(cfg, file, x.chunkSize, Count(x))
    ensures TotalLength(Manifest(s.parts, id, Count(x))) == |file|
  {
    CountDef(x);
    if |file| != 0 { CountIsCeiling(|file|, x.chunkSize); }
    hide Count, ChunkCount;
    SameManifest(cfg, s.parts, id, x, file, Count(x));
  }

  lemma CompleteContent(cfg: Config, s: State, id: SessionId, x: Session, file: Bytes)
    requires ValidConfig(cfg) && Safe(cfg, s) && Uploading(cfg, s, id, x, file) && Complete(s, id, x)
    ensures Content(s.files, FileManifest(cfg, file, x.chunkSize, Count(x))) == file
  {
    var n := Count(x);
    forall o: nat | o < n
      ensures FileOf(s.files, FileEntry(cfg, file, x.chunkSize, o).digest) == Piece(file, x.chunkSize, o)
    {
      StoredPiece(cfg, s, id, x, file, o);
    }
    CountDef(x);
    if |file| != 0 { CountIsCeiling(|file|, x.chunkSize); }
    hide Safe, ValidConfig, Count, ChunkCount, FileEntry, FileOf, Piece, Content;
    StoredContent(cfg, s.files, file, x.chunkSize, n);
    assert file[..|file|] == file;
  }

  lemma PartsContiguous(cfg: Config, s: State, id: SessionId, x: Session)
    requires PartsOk(cfg, s) && id in s.sessions && s.sessions[id] == x && Complete(s, id, x)
    ensures Contiguous(s, id, Count(x))
  {
    forall k | k in s.parts && k.session == id ensures k.ordinal < Count(x) {
      assert PartOk(cfg, x, k.ordinal, s.parts[k]);
    }
  }

  lemma CompleteCommittable(cfg: Config, s: State, id: SessionId, x: Session, file: Bytes)
    requires ValidConfig(cfg) && Safe(cfg, s) && Uploading(cfg, s, id, x, file)
    requires Complete(s, id, x) && x.ident !in s.artifacts
    ensures Committable(cfg, s, id)
  {
    CompleteManifest(cfg, s, id, x, file);
    CompleteContent(cfg, s, id, x, file);
    PartsContiguous(cfg, s, id, x);
    hide Safe, ValidConfig, Count, Contiguous, Manifest, FileManifest, Content, TotalLength, Complete;
  }

  /** The published artifact is the file. */
  ghost predicate Publishes(cfg: Config, t: State, x: Session, a: Artifact, file: Bytes) {
    && x.ident in t.artifacts && t.artifacts[x.ident] == a
    && a.size == |file| && a.digest == cfg.sha(file)
    && a.manifest == FileManifest(cfg, file, x.chunkSize, Count(x))
    && Content(t.files, a.manifest) == file
  }

  lemma CompleteCommits(cfg: Config, s: State, id: SessionId, x: Session, file: Bytes, now: int, room: nat)
    requires ValidConfig(cfg) && Safe(cfg, s) && Uploading(cfg, s, id, x, file)
    requires Complete(s, id, x) && x.ident !in s.artifacts && now < x.expiresAt
    ensures var (t, r) := CommitSession(cfg, s, now, id, room);
            && (r.Ok? <==> Count(x) <= room) && (r.Err? ==> r.code == E_INTERNAL)
            && (r.Ok? ==> Publishes(cfg, t, x, r.value, file) && r.value.creator == x.owner)
            && (r.Ok? ==> |r.value.manifest| == Count(x))
  {
    CompleteCommittable(cfg, s, id, x, file);
    assert HasState(s, id, OPEN);
    CommitAllOrNothing(cfg, s, now, id, room);
    if Count(x) <= room { CommittedManifest(cfg, s, now, id, room); }
    CompleteManifest(cfg, s, id, x, file);
    CompleteContent(cfg, s, id, x, file);
    hide Safe, ValidConfig, Count, Contiguous, Manifest, FileManifest, Content, TotalLength, Complete, Committable,
         CommitSession, ManifestOk;
  }

  /** Main result: however the puts of a file's pieces are ordered and repeated,
      and whatever other calls come between, once every ordinal was put the
      commit succeeds exactly when its manifest can be allocated; then the manifest
      is the one manifest of the file, and the published content is the file. */
  lemma UploadRoundTrip(cfg: Config, s: State, calls: seq<Call>, id: SessionId, x: Session, file: Bytes, now: int,
                        room: nat)
    requires ValidConfig(cfg) && Safe(cfg, s) && Uploading(cfg, s, id, x, file)
    requires CallsOk(cfg, s, calls)
    requires forall i :: 0 <= i < |calls| ==> calls[i].now < x.expiresAt && Benign(x, id, file, calls[i].op)
    requires forall o: nat :: o < Count(x) ==> PutSomewhere(calls, id, o)
    requires now < x.expiresAt && x.ident !in AfterCalls(cfg, s, calls).artifacts
    ensures var (t, r) := CommitSession(cfg, AfterCalls(cfg, s, calls), now, id, room);
            (r.Ok? <==> Count(x) <= room) && (r.Ok? ==> Publishes(cfg, t, x, r.value, file))
  {
    hide Safe, ValidConfig, Uploading, Publishes, CommitSession, Count;
    BenignRun(cfg, s, calls, id, x, file);
    AllPut(cfg, s, calls, id, x);
    CompleteCommits(cfg, AfterCalls(cfg, s, calls), id, x, file, now, room);
  }

  lemma AllPut(cfg: Config, s: State, calls: seq<Call>, id: SessionId, x: Session)
    requires CallsOk(cfg, s, calls)
    requires forall o: nat :: o < Count(x) ==> PutSomewhere(calls, id, o)
    requires forall o: nat :: PutSomewhere(calls, id, o) ==> PartKey(id, o) in AfterCalls(cfg, s, calls).parts
    ensures Complete(AfterCalls(cfg, s, calls), id, x)
  {
    hide Count, PutSomewhere, CallsOk, AfterCalls;
  }

  lemma CommittedManifest(cfg: Config, s: State, now: int, id: SessionId, room: nat)
    requires CommitSession(cfg, s, now, id, room).1.Ok? && HasState(s, id, OPEN)
    requires now < s.sessions[id].expiresAt
    ensures Contiguous(s, id, Count(s.sessions[id]))
    ensures CommitSession(cfg, s, now, id, room).1.value.manifest == Manifest(s.parts, id, Count(s.sessions[id]))
  {
    hide Manifest, TotalLength, Content, Count, Referenced, ReactivateAll;
  }
}
