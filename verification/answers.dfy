/** What each storage operation answers and what it changes, as conditions on the
    tables before the call: the error codes, the limits and the counts, in the terms
    of the rows themselves. */
module Answers {
  import opened Bytes
  import opened Store
  import opened Safety
  import opened Operations
  import opened Exactness
  import Upload

  // ---- Sessions ----------------------------------------------------------------------

  /** Expired, or due to be at this clock. */
  predicate Lapsed(x: Session, now: int) {
    x.state == EXPIRED || (x.state == OPEN && x.expiresAt <= now)
  }

  /** Open, and not due yet. */
  predicate Usable(x: Session, now: int) { x.state == OPEN && now < x.expiresAt }

  /** Neither open nor expired. */
  predicate Closed(x: Session) { x.state == COMMITTING || x.state == COMPLETED || x.state == ABORTED }

  /** One of the session's rows names this chunk. */
  ghost predicate HeldBy(s: State, id: SessionId, d: Digest) {
    exists k :: k in s.parts && k.session == id && s.parts[k].digest == d
  }

  /** A chunk as it is once it has been marked at this clock, or as it was. */
  function MarkedIf(c: Chunk, due: bool, now: int): Chunk {
    if due then Chunk(c.rawSize, PENDING_DELETE, Some(now), c.createdAt) else c
  }

  /** Retiring a session sets its state and drops its rows; the ACTIVE chunks they named
      and nothing refers to any more, and only those, are marked now. */
  ghost predicate Retired(s: State, t: State, id: SessionId, st: SessionState, now: int) {
    && t == s.(sessions := t.sessions, parts := t.parts, chunks := t.chunks)
    && id in s.sessions && t.sessions == s.sessions[id := s.sessions[id].(state := st)]
    && (forall k :: k in t.parts <==> k in s.parts && k.session != id)
    && (forall k :: k in t.parts ==> t.parts[k] == s.parts[k])
    && t.chunks.Keys == s.chunks.Keys
    && forall d :: d in s.chunks ==>
         t.chunks[d] ==
         MarkedIf(s.chunks[d], s.chunks[d].state == ACTIVE && HeldBy(s, id, d) && !Referenced(t, d), now)
  }

  lemma MarkPartsRetires(s: State, id: SessionId, st: SessionState, now: int)
    requires id in s.sessions
    ensures Retired(s, MarkParts(WithState(s, id, st), id, now), id, st, now)
  {
    var v := WithState(s, id, st);
    var u, t := DropParts(v, id), MarkParts(v, id, now);
    SameRefs(u, t);
    hide Referenced;
    forall d ensures d in DigestsOf(v, id) <==> HeldBy(s, id, d) {
    }
  }

  lemma ExpireAnswers(s: State, id: SessionId, now: int)
    requires id in s.sessions
    ensures var t := ExpireIfDue(s, id, now);
            if s.sessions[id].state == OPEN && s.sessions[id].expiresAt <= now then Retired(s, t, id, EXPIRED, now)
            else t == s
  {
    MarkPartsRetires(s, id, EXPIRED, now);
    hide Retired, MarkParts;
  }

  // ---- create_session ------------------------------------------------------------------

  /** Main result: a well-formed request opens a session exactly when its owner has fewer
      open than the limit and the bytes in use, counted in hundredths, are below the
      percentage of the capacity, as a 64-bit product; the row says who, what and until
      when. */
  lemma CreateAnswers(cfg: Config, s: State, now: int, id: SessionId, ident: Ident, size: U64, digest: Digest,
                      owner: string, syntaxOk: bool)
    ensures var (t, r) := CreateSession(cfg, s, now, id, ident, size, digest, owner, syntaxOk);
            var open := set j | j in s.sessions && s.sessions[j].owner == owner && s.sessions[j].state == OPEN;
            && (r == Err(E_ARG) <==> !syntaxOk || owner == "")
            && (r.Ok? <==> syntaxOk && owner != "" && |open| < cfg.maxSessions
                           && 100 * (UsedBytes(s) + 1) <= (cfg.capacity * cfg.highWatermark) % 0x1_0000_0000_0000_0000)
            && (r.Err? ==> t == s && (r.code == E_ARG || r.code == E_LIMIT))
            && (r.Ok? ==>
                  && t == s.(sessions := s.sessions[id := r.value])
                  && r.value == Session(owner, OPEN, ident, size, digest, cfg.chunkSize, now,
                                        now + 60 * 60 * cfg.sessionHours))
  {
    var q := (cfg.capacity * cfg.highWatermark) % TWO_64;
    var open := set j | j in s.sessions && s.sessions[j].owner == owner && s.sessions[j].state == OPEN;
    assert open == OpenOf(s, owner);
    assert Watermark(cfg) == q / 100;
    assert UsedBytes(s) < q / 100 <==> 100 * (UsedBytes(s) + 1) <= q;
    hide UsedBytes;
  }

  /** Where the product does not wrap this is the percentage itself. */
  lemma QuotaAnswers(cfg: Config, s: State, now: int, id: SessionId, ident: Ident, size: U64, digest: Digest,
                     owner: string)
    requires cfg.capacity * cfg.highWatermark < 0x1_0000_0000_0000_0000 && owner != ""
    requires |OpenOf(s, owner)| < cfg.maxSessions
    ensures CreateSession(cfg, s, now, id, ident, size, digest, owner, true).1 ==
            if 100 * (UsedBytes(s) + 1) <= cfg.capacity * cfg.highWatermark
            then Ok(NewSession(cfg, now, ident, size, digest, owner)) else Err(E_LIMIT)
  {
    CreateAnswers(cfg, s, now, id, ident, size, digest, owner, true);
    hide UsedBytes;
    var q := cfg.capacity * cfg.highWatermark;
    assert q % TWO_64 == q;
  }

  // ---- put_chunk ---------------------------------------------------------------------------

  /** The ordinal is one of a file of this size, and the data is at most a chunk. */
  predicate Fits(x: Session, ordinal: nat, length: nat) {
    && x.expectedSize + x.chunkSize - 1 < TWO_64 && ordinal * x.chunkSize < x.expectedSize
    && 0 < length <= x.chunkSize
  }

  lemma WrappedCount(size: U64, chunkSize: ChunkSize)
    requires size + chunkSize - 1 >= TWO_64 && chunkSize < TWO_64
    ensures ChunkCount(size, chunkSize) == 0
  {
    var sum := size + chunkSize - 1;
    assert sum % TWO_64 == sum - TWO_64;
  }

  lemma OrdinalLegal(size: U64, chunkSize: ChunkSize, ordinal: nat)
    requires chunkSize < TWO_64
    ensures ordinal < ChunkCount(size, chunkSize) <==>
            size + chunkSize - 1 < TWO_64 && ordinal * chunkSize < size
  {
    if size + chunkSize - 1 >= TWO_64 {
      WrappedCount(size, chunkSize);
    } else if size > 0 {
      CountIsCeiling(size, chunkSize);
      var n := ChunkCount(size, chunkSize);
      if ordinal < n {
        Upload.Monotone(ordinal, n - 1, chunkSize);
      } else {
        Upload.Monotone(n, ordinal, chunkSize);
      }
    } else {
      assert ordinal * chunkSize >= 0;
    }
  }

  /** Main result: the six answers, each with its exact condition. */
  lemma PutAnswers(cfg: Config, s: State, now: int, id: SessionId, ordinal: nat, data: Bytes)
    requires id in s.sessions ==> s.sessions[id].chunkSize < TWO_64
    ensures var r := PutChunk(cfg, s, now, id, ordinal, data).1;
            var k, d := PartKey(id, ordinal), cfg.sha(data);
            && (r == Err(E_NOTFOUND) <==> id !in s.sessions)
            && (id in s.sessions ==>
                  var x := s.sessions[id];
                  var fits := Usable(x, now) && Fits(x, ordinal, |data|);
                  && (r == Err(E_EXPIRED) <==> Lapsed(x, now))
                  && (r == Err(E_STATE) <==> Closed(x))
                  && (r == Err(E_RANGE) <==> Usable(x, now) && !Fits(x, ordinal, |data|))
                  && (r == Err(E_CONFLICT) <==> fits && k in s.parts && s.parts[k].digest != d)
                  && (r == Ok(Accept(d, true)) <==> fits && k in s.parts && s.parts[k].digest == d)
                  && (r == Ok(Accept(d, false)) <==> fits && k !in s.parts))
  {
    if id in s.sessions {
      var x := s.sessions[id];
      OrdinalLegal(x.expectedSize, x.chunkSize, ordinal);
      ExpireAnswers(s, id, now);
      hide ExpireIfDue, ChunkCount, StoreFile, Register;
    }
  }

  /** And what each of them leaves behind. */
  lemma PutEffects(cfg: Config, s: State, now: int, id: SessionId, ordinal: nat, data: Bytes)
    requires id in s.sessions && s.sessions[id].chunkSize < TWO_64
    ensures var t := PutChunk(cfg, s, now, id, ordinal, data).0;
            var x, k, d := s.sessions[id], PartKey(id, ordinal), cfg.sha(data);
            if Lapsed(x, now) && x.state == OPEN then Retired(s, t, id, EXPIRED, now)
            else if !(Usable(x, now) && Fits(x, ordinal, |data|)) then t == s
            else
              && t.sessions == s.sessions && t.artifacts == s.artifacts
              && t.files == (if d in s.files then s.files else s.files[d := data])
              && (k in s.parts ==> t.parts == s.parts && t.chunks == s.chunks)
              && (k !in s.parts ==>
                    && t.parts == s.parts[k := Part(d, |data|)]
                    && t.chunks.Keys == s.chunks.Keys + {d} && t.chunks[d].state == ACTIVE
                    && (d !in s.chunks ==> t.chunks[d] == Chunk(|data|, ACTIVE, None, now))
                    && (d in s.chunks && s.chunks[d].state == ACTIVE ==> t.chunks[d] == s.chunks[d])
                    && (d in s.chunks && s.chunks[d].state == PENDING_DELETE ==>
                          t.chunks[d] == s.chunks[d].(state := ACTIVE, pendingAt := None))
                    && forall e :: e in s.chunks && e != d ==> t.chunks[e] == s.chunks[e])
  {
    var x := s.sessions[id];
    OrdinalLegal(x.expectedSize, x.chunkSize, ordinal);
    ExpireAnswers(s, id, now);
    hide ExpireIfDue, ChunkCount, Retired;
  }

  /** An accepted chunk is there: its row holds its digest and its length, and its file
      its bytes. */
  lemma AcceptedIsThere(cfg: Config, s: State, now: int, id: SessionId, ordinal: nat, data: Bytes)
    requires ValidConfig(cfg) && Safe(cfg, s) && cfg.corpus(data)
    ensures var (t, r) := PutChunk(cfg, s, now, id, ordinal, data);
            var k, d := PartKey(id, ordinal), cfg.sha(data);
            r.Ok? ==>
              && r.value.digest == d
              && k in t.parts && t.parts[k] == Part(d, |data|) && LivePart(t, k)
              && d in t.files && t.files[d] == data && d in t.chunks && t.chunks[d].state == ACTIVE
  {
    var (t, r) := PutChunk(cfg, s, now, id, ordinal, data);
    if r.Ok? {
      assert SizeOk(s.sessions[id].chunkSize);
      PutAnswers(cfg, s, now, id, ordinal, data);
      PutEffects(cfg, s, now, id, ordinal, data);
      hide PutChunk, Fits, Retired, Count;
      if cfg.sha(data) in s.files { StoredData(cfg, s, data); }
      var k := PartKey(id, ordinal);
      if k in s.parts {
        RegisteredLength(cfg, s, k, data);
      }
    }
  }

  lemma StoredData(cfg: Config, s: State, data: Bytes)
    requires ValidConfig(cfg) && FilesOk(cfg, s) && cfg.corpus(data) && cfg.sha(data) in s.files
    ensures s.files[cfg.sha(data)] == data
  {
  }

  lemma RegisteredLength(cfg: Config, s: State, k: PartKey, data: Bytes)
    requires ValidConfig(cfg) && Safe(cfg, s) && cfg.corpus(data) && k in s.parts
    requires s.parts[k].digest == cfg.sha(data) && LivePart(s, k)
    ensures s.parts[k].length == |data| && Alive(s, cfg.sha(data))
  {
    assert PartOk(cfg, s.sessions[k.session], k.ordinal, s.parts[k]);
    assert ByUpload(s, s.parts[k].digest) && Referenced(s, s.parts[k].digest);
    var c :| cfg.corpus(c) && cfg.sha(c) == s.parts[k].digest && |c| == s.parts[k].length;
    assert c == data;
  }

  // ---- commit_session -----------------------------------------------------------------------

  /** The parts are numbered 0 to n-1 and their lengths sum up to the declared size. */
  ghost predicate Assembled(s: State, id: SessionId)
    requires id in s.sessions
  {
    var x := s.sessions[id];
    && (forall o: nat :: PartKey(id, o) in s.parts <==> o < Count(x))
    && TotalLength(Manifest(s.parts, id, Count(x))) == x.expectedSize
  }

  /** Its content hashes to the declared digest. */
  ghost predicate Verified(cfg: Config, s: State, id: SessionId)
    requires id in s.sessions && Assembled(s, id)
  {
    cfg.sha(Content(s.files, Manifest(s.parts, id, Count(s.sessions[id])))) == s.sessions[id].expectedDigest
  }

  lemma AssembledIs(s: State, id: SessionId)
    requires id in s.sessions
    ensures Contiguous(s, id, Count(s.sessions[id])) <==>
            forall o: nat :: PartKey(id, o) in s.parts <==> o < Count(s.sessions[id])
  {
    var n := Count(s.sessions[id]);
    hide Count;
    if Contiguous(s, id, n) {
      forall o: nat ensures PartKey(id, o) in s.parts <==> o < n {
        assert PartKey(id, o) in s.parts ==> PartKey(id, o).ordinal < n;
      }
    }
    if forall o: nat :: PartKey(id, o) in s.parts <==> o < n {
      forall k | k in s.parts && k.session == id ensures k.ordinal < n {
        assert k == PartKey(id, k.ordinal);
      }
    }
  }

  /** In a safe state every part is at most a chunk long and its file is there. */
  lemma PartsReadable(cfg: Config, s: State, id: SessionId, m: seq<Entry>)
    requires Safe(cfg, s) && id in s.sessions && Live(s.sessions[id].state)
    requires Contiguous(s, id, Count(s.sessions[id])) && m == Manifest(s.parts, id, Count(s.sessions[id]))
    ensures forall i :: 0 <= i < |m| ==> m[i].length <= s.sessions[id].chunkSize && m[i].digest in s.files
  {
    ManifestFacts(cfg, s, id, Count(s.sessions[id]));
    UploadAllAlive(cfg, s, id, m);
    hide Manifest, Count, Contiguous, PartsOk, ArtifactsOk, LiveOk, RowsOk, FilesOk;
    forall i | 0 <= i < |m| ensures m[i].length <= s.sessions[id].chunkSize && m[i].digest in s.files {
      assert EntryOk(cfg, s.sessions[id].chunkSize, m, i);
      assert Alive(s, m[i].digest);
    }
  }

  lemma CheckIs(cfg: Config, s: State, id: SessionId, m: seq<Entry>)
    requires id in s.sessions
    requires Contiguous(s, id, Count(s.sessions[id])) && m == Manifest(s.parts, id, Count(s.sessions[id]))
    requires forall i :: 0 <= i < |m| ==> m[i].length <= s.sessions[id].chunkSize && m[i].digest in s.files
    ensures CheckUpload(cfg, s, id) ==
            if TotalLength(m) != s.sessions[id].expectedSize then E_STATE
            else if cfg.sha(Content(s.files, m)) != s.sessions[id].expectedDigest then E_CONFLICT
            else if s.sessions[id].ident in s.artifacts then E_EXISTS
            else OK
  {
    hide Content, TotalLength, Count;
  }

  lemma CheckAnswers(cfg: Config, s: State, id: SessionId)
    requires Safe(cfg, s) && id in s.sessions && Live(s.sessions[id].state)
    ensures CheckUpload(cfg, s, id) ==
            if !Assembled(s, id) then E_STATE
            else if !Verified(cfg, s, id) then E_CONFLICT
            else if s.sessions[id].ident in s.artifacts then E_EXISTS
            else OK
  {
    AssembledIs(s, id);
    if Contiguous(s, id, Count(s.sessions[id])) {
      var m := Manifest(s.parts, id, Count(s.sessions[id]));
      PartsReadable(cfg, s, id, m);
      CheckIs(cfg, s, id, m);
      hide Safe, Manifest, Count, Content, TotalLength, CheckUpload, Contiguous;
    } else {
      hide Safe, Manifest, Count, Content, TotalLength, Contiguous;
    }
  }

  /** Main result: which of the answers a commit gives, for every state its session can be
      in. */
  lemma CommitAnswers(cfg: Config, s: State, now: int, id: SessionId, room: nat)
    requires Safe(cfg, s)
    ensures var r := CommitSession(cfg, s, now, id, room).1;
            && (r == Err(E_NOTFOUND) <==> id !in s.sessions)
            && (id in s.sessions ==>
                  var x := s.sessions[id];
                  var tried := Usable(x, now) && Count(x) <= room;
                  && (r == Err(E_EXPIRED) <==> Lapsed(x, now))
                  && (r == Err(E_STATE) <==> Closed(x) || (tried && !Assembled(s, id)))
                  && (r == Err(E_INTERNAL) <==> Usable(x, now) && Count(x) > room)
                  && (r == Err(E_CONFLICT) <==> tried && Assembled(s, id) && !Verified(cfg, s, id))
                  && (r == Err(E_EXISTS) <==>
                        tried && Assembled(s, id) && Verified(cfg, s, id) && x.ident in s.artifacts)
                  && (r.Ok? <==> tried && Assembled(s, id) && Verified(cfg, s, id) && x.ident !in s.artifacts))
  {
    if id in s.sessions {
      ExpireAnswers(s, id, now);
      if Usable(s.sessions[id], now) { CheckAnswers(cfg, s, id); }
      hide ExpireIfDue, CheckUpload, Count, Assembled, Verified, Safe, Publish, NewArtifact;
    }
  }

  /** One entry for each part, in order, each beginning where the one before it ends. */
  ghost predicate Lined(s: State, id: SessionId, m: seq<Entry>, n: nat) {
    && |m| == n
    && (forall i :: 0 <= i < n ==>
          PartKey(id, i) in s.parts && m[i].ordinal == i && m[i].length == s.parts[PartKey(id, i)].length
          && m[i].digest == s.parts[PartKey(id, i)].digest)
    && (n > 0 ==> m[0].offset == 0)
    && forall i :: 1 <= i < n ==> m[i].offset == m[i - 1].offset + m[i - 1].length
  }

  /** The length of everything before the next entry. */
  function Reach(m: seq<Entry>): nat {
    if m == [] then 0 else m[|m| - 1].offset + m[|m| - 1].length
  }

  lemma LinedGrows(s: State, id: SessionId, m: seq<Entry>, n: nat)
    requires Lined(s, id, m, n) && PartKey(id, n) in s.parts
    ensures var p := s.parts[PartKey(id, n)];
            var e := Entry(n, Reach(m), p.length, p.digest);
            Lined(s, id, m + [e], n + 1) && Reach(m + [e]) == Reach(m) + p.length
  {
  }

  lemma {:induction false} ManifestLined(s: State, id: SessionId, n: nat)
    requires forall o | 0 <= o < n :: PartKey(id, o) in s.parts
    ensures var m := Manifest(s.parts, id, n); Lined(s, id, m, n) && TotalLength(m) == Reach(m)
  {
    hide Lined;
    if n == 0 {
      assert Lined(s, id, [], 0) by { NoneLined(s, id); }
    } else {
      ManifestLined(s, id, n - 1);
      var m, p := Manifest(s.parts, id, n - 1), s.parts[PartKey(id, n - 1)];
      LinedGrows(s, id, m, n - 1);
      TotalSnoc(m, Entry(n - 1, Reach(m), p.length, p.digest));
      hide TotalLength, Reach;
    }
  }

  lemma NoneLined(s: State, id: SessionId)
    ensures Lined(s, id, [], 0)
  {
  }

  /** And what a commit leaves behind: the session expired, stuck or untouched, or the
      session completed and the artifact added, its entries the session's rows. */
  lemma CommitEffects(cfg: Config, s: State, now: int, id: SessionId, room: nat)
    requires ValidConfig(cfg) && Safe(cfg, s) && id in s.sessions
    ensures var (t, r) := CommitSession(cfg, s, now, id, room);
            var x := s.sessions[id];
            if x.state == OPEN && x.expiresAt <= now then Retired(s, t, id, EXPIRED, now)
            else if x.state == OPEN && Count(x) > room then
              t == s.(sessions := s.sessions[id := x.(state := COMMITTING)])
            else if r.Err? then t == s
            else
              && t == s.(artifacts := s.artifacts[x.ident := r.value],
                         sessions := s.sessions[id := x.(state := COMPLETED)])
              && r.value == Artifact(x.expectedSize, x.expectedDigest, x.chunkSize, x.owner, now, r.value.manifest)
              && Lined(s, id, r.value.manifest, Count(x))
  {
    var x := s.sessions[id];
    ExpireAnswers(s, id, now);
    if Usable(x, now) {
      Upload.CommitAllOrNothing(cfg, s, now, id, room);
      Committed(cfg, s, now, id, room);
    }
    hide Safe, ExpireIfDue, CheckUpload, Retired, Count, Publish, NewArtifact, Lined, Upload.Committable, ManifestOk,
         Content, TotalLength;
  }

  lemma Committed(cfg: Config, s: State, now: int, id: SessionId, room: nat)
    requires id in s.sessions && Usable(s.sessions[id], now)
    ensures var r := CommitSession(cfg, s, now, id, room).1;
            var x := s.sessions[id];
            r.Ok? ==>
              && r.value == Artifact(x.expectedSize, x.expectedDigest, x.chunkSize, x.owner, now, r.value.manifest)
              && Lined(s, id, r.value.manifest, Count(x))
  {
    if Contiguous(s, id, Count(s.sessions[id])) { ManifestLined(s, id, Count(s.sessions[id])); }
    hide Lined, Manifest, Count, Content, TotalLength;
  }

  // ---- abort_session, delete_artifact --------------------------------------------------------

  /** Aborting again, or after the end, is OK and changes nothing. */
  lemma AbortAnswers(s: State, now: int, id: SessionId)
    ensures var (t, r) := AbortSession(s, now, id);
            && r == (if id in s.sessions then OK else E_NOTFOUND)
            && if id in s.sessions && (s.sessions[id].state == OPEN || s.sessions[id].state == COMMITTING)
               then Retired(s, t, id, ABORTED, now) else t == s
  {
    if id in s.sessions { MarkPartsRetires(s, id, ABORTED, now); }
    hide Retired, MarkParts;
  }

  lemma DeleteAnswers(s: State, now: int, ident: Ident)
    ensures var (t, r) := DeleteArtifact(s, now, ident);
            && (r == Err(E_NOTFOUND) <==> ident !in s.artifacts) && (r.Err? ==> r.code == E_NOTFOUND && t == s)
            && (r.Ok? ==>
                  && t == s.(artifacts := s.artifacts - {ident}, chunks := t.chunks)
                  && t.chunks.Keys == s.chunks.Keys
                  && forall d :: d in s.chunks ==>
                       t.chunks[d] ==
                       if s.chunks[d].state == ACTIVE && InManifest(s.artifacts[ident], d) && !Referenced(t, d)
                       then s.chunks[d].(state := PENDING_DELETE, pendingAt := Some(now)) else s.chunks[d])
  {
    if ident in s.artifacts {
      var t := DeleteArtifact(s, now, ident).0;
      SameRefs(Unpublish(s, ident), t);
      hide Referenced;
      forall d ensures d in ManifestDigests(s.artifacts[ident]) <==> InManifest(s.artifacts[ident], d) {
      }
    }
  }

  // ---- collect_garbage ---------------------------------------------------------------------------

  /** Unreferenced, and marked at least the grace period ago. */
  ghost predicate Collectable(cfg: Config, s: State, d: Digest, now: int) {
    && d in s.chunks && s.chunks[d].state == PENDING_DELETE
    && s.chunks[d].pendingAt.Some? && s.chunks[d].pendingAt.value + cfg.graceSeconds <= now
    && !Referenced(s, d)
  }

  /** Main result: a real run removes the row and the file of exactly these, a dry run of
      none; both count every marked row as scanned. */
  lemma CollectAnswers(cfg: Config, s: State, now: int, dryRun: bool)
    requires Safe(cfg, s)
    ensures var (t, r) := CollectGarbage(cfg, s, now, dryRun);
            && t == s.(chunks := t.chunks, files := t.files)
            && (forall d :: d in t.chunks <==> d in s.chunks && (dryRun || !Collectable(cfg, s, d, now)))
            && (forall d :: d in t.files <==> d in s.files && (dryRun || !Collectable(cfg, s, d, now)))
            && (forall d :: d in t.chunks ==> t.chunks[d] == s.chunks[d])
            && (forall d :: d in t.files ==> t.files[d] == s.files[d])
            && r.scanned == |set d | d in s.chunks && s.chunks[d].state == PENDING_DELETE|
            && r.deletedCount == |set d | d in s.chunks && Collectable(cfg, s, d, now)|
            && r.deletedBytes == Sum((set d | d in s.chunks && Collectable(cfg, s, d, now)), RawSize(s.chunks))
  {
    NothingToRescue(cfg, s, now);
    hide Referenced, Sized, PartsOk, ArtifactsOk, FilesOk, Sum;
    assert (set d | d in s.chunks && s.chunks[d].state == PENDING_DELETE) == PendingSet(s);
    assert (set d | d in s.chunks && Collectable(cfg, s, d, now)) == Garbage(cfg, s, now);
  }

  // ---- run_maintenance ------------------------------------------------------------------------------

  /** What maintenance makes of a session's state. */
  function Maintained(x: Session, now: int): SessionState {
    match x.state
    case OPEN => if x.expiresAt <= now then EXPIRED else OPEN
    case COMMITTING => OPEN
    case _ => x.state
  }

  lemma SettledAnswers(s: State, now: int)
    ensures var u := Settled(s, now);
            && u == s.(sessions := u.sessions) && u.sessions.Keys == s.sessions.Keys
            && forall id :: id in s.sessions ==>
                 u.sessions[id] == s.sessions[id].(state := Maintained(s.sessions[id], now))
  {
  }

  lemma MaintainedRows(s: State, now: int)
    ensures var t := RunMaintenance(s, now).0;
            && t == s.(sessions := t.sessions, parts := t.parts, chunks := t.chunks)
            && t.sessions.Keys == s.sessions.Keys
            && (forall id :: id in s.sessions ==>
                  t.sessions[id] == s.sessions[id].(state := Maintained(s.sessions[id], now)))
            && (forall k :: k in t.parts <==>
                  k in s.parts && !(k.session in t.sessions && t.sessions[k.session].state in {EXPIRED, ABORTED}))
            && (forall k :: k in t.parts ==> t.parts[k] == s.parts[k])
  {
    SettledAnswers(s, now);
    assert Settled(s, now) == ReopenAll(ExpireAllDue(s, now));
    hide Markable, Referenced, ExpireAllDue, ReopenAll, Settled, DeadDigests, Maintained;
  }

  /** Main result: sessions are expired, reopened or left alone, and only those; the rows of
      dead ones go; the report counts the first two. */
  lemma MaintainAnswers(s: State, now: int)
    ensures var (t, r) := RunMaintenance(s, now);
            && t == s.(sessions := t.sessions, parts := t.parts, chunks := t.chunks)
            && t.sessions.Keys == s.sessions.Keys
            && (forall id :: id in s.sessions ==>
                  t.sessions[id] == s.sessions[id].(state := Maintained(s.sessions[id], now)))
            && (forall k :: k in t.parts <==>
                  k in s.parts && !(k.session in t.sessions && t.sessions[k.session].state in {EXPIRED, ABORTED}))
            && (forall k :: k in t.parts ==> t.parts[k] == s.parts[k])
            && r.expired ==
               |set id | id in s.sessions && s.sessions[id].state == OPEN && s.sessions[id].expiresAt <= now|
            && r.rolledBack == |set id | id in s.sessions && s.sessions[id].state == COMMITTING|
  {
    MaintainedRows(s, now);
    hide Maintained, MarkAll, ExpireAllDue, ReopenAll, DeadDigests, DropDeadParts;
    assert (set id | id in s.sessions && s.sessions[id].state == OPEN && s.sessions[id].expiresAt <= now)
           == DueSet(s, now);
    assert (set id | id in s.sessions && s.sessions[id].state == COMMITTING) == CommittingSet(s);
  }

  /** The ACTIVE chunks that a dropped row named and nothing refers to any more, and only
      those, are marked now. */
  lemma MaintainMarks(s: State, now: int)
    ensures var t := RunMaintenance(s, now).0;
            && t.chunks.Keys == s.chunks.Keys
            && forall d :: d in s.chunks ==>
                 t.chunks[d] ==
                 MarkedIf(s.chunks[d],
                          s.chunks[d].state == ACTIVE && !Referenced(t, d)
                          && exists k :: k in s.parts && k !in t.parts && s.parts[k].digest == d, now)
  {
    var u := Settled(s, now);
    var t := RunMaintenance(s, now).0;
    assert u == ReopenAll(ExpireAllDue(s, now)) && u.parts == s.parts;
    SameRefs(DropDeadParts(u), t);
    hide Referenced, ExpireAllDue, ReopenAll, Settled;
    forall d
      ensures d in DeadDigests(u) <==> exists k :: k in s.parts && k !in t.parts && s.parts[k].digest == d
    {
    }
  }
}
