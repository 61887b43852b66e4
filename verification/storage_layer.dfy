/** The storage façade of `fr_storage.cpp`: four tables and the chunk files as
    fields, updated in place by the source's statements and loops. Every method is
    proved to compute the operation of the same name in module Store. The clock is
    a parameter, and each call is one serialized step. */
module StorageLayer {
  import opened Bytes
  import opened Store
  import opened Safety
  import opened Operations
  import opened Upload
  import opened RangeRead
  import ChunkFiles

  lemma ElemsStep<T>(xs: seq<T>, i: nat)
    requires i < |xs|
    ensures Elems(xs[..i + 1]) == Elems(xs[..i]) + {xs[i]}
  {
    assert xs[..i + 1] == xs[..i] + [xs[i]];
  }

  lemma ElemsEnds<T>(xs: seq<T>)
    ensures Elems(xs[..0]) == {} && xs[..|xs|] == xs
  {
  }

  /** One digest of the marking loop. */
  lemma MarkOneUpdate(s: State, t: State, d: Digest, now: int)
    requires !Referenced(s, d)
    requires t == if d in s.chunks && s.chunks[d].state == ACTIVE
                  then s.(chunks := s.chunks[d := s.chunks[d].(state := PENDING_DELETE, pendingAt := Some(now))])
                  else s
    ensures MarkAll(s, {d}, now) == t
  {
    hide Referenced;
    assert MarkAll(s, {d}, now).chunks == t.chunks;
  }

  lemma {:induction false} HasLeast(xs: set<nat>) returns (o: nat)
    requires xs != {}
    ensures o in xs && forall p :: p in xs ==> o <= p
  {
    var x :| x in xs;
    if exists p :: p in xs && p < x {
      var p :| p in xs && p < x;
      assert p in xs - {x};
      o := HasLeast(xs - {x});
      forall q | q in xs ensures o <= q {
        assert q != x ==> q in xs - {x};
      }
    } else {
      o := x;
    }
  }

  /** A row of upload_part. */
  datatype Row = Row(ordinal: nat, part: Part)

  lemma OrdinalKey(parts: map<PartKey, Part>, id: SessionId, o: nat)
    ensures o in Ordinals(parts, id) <==> PartKey(id, o) in parts
  {
  }

  /** The rows of one session, ORDER BY ordinal. */
  ghost predicate RowsOf(parts: map<PartKey, Part>, id: SessionId, rows: seq<Row>) {
    && (forall i, j :: 0 <= i < j < |rows| ==> rows[i].ordinal < rows[j].ordinal)
    && (forall i :: 0 <= i < |rows| ==>
          PartKey(id, rows[i].ordinal) in parts && parts[PartKey(id, rows[i].ordinal)] == rows[i].part)
    && (forall o: nat :: PartKey(id, o) in parts ==> exists i :: 0 <= i < |rows| && rows[i].ordinal == o)
  }

  /** Some rows fetched in order; the ordinals still to come are all larger. */
  ghost predicate Picked(parts: map<PartKey, Part>, id: SessionId, rows: seq<Row>, left: set<nat>) {
    && (forall o: nat :: o in left ==> PartKey(id, o) in parts)
    && (forall i, o :: 0 <= i < |rows| && o in left ==> rows[i].ordinal < o)
    && (forall i, j :: 0 <= i < j < |rows| ==> rows[i].ordinal < rows[j].ordinal)
    && (forall i :: 0 <= i < |rows| ==>
          PartKey(id, rows[i].ordinal) in parts && parts[PartKey(id, rows[i].ordinal)] == rows[i].part)
    && (forall o: nat :: PartKey(id, o) in parts ==> o in left || exists i :: 0 <= i < |rows| && rows[i].ordinal == o)
  }

  lemma PickedNone(parts: map<PartKey, Part>, id: SessionId, left: set<nat>)
    requires forall o: nat :: o in left <==> PartKey(id, o) in parts
    ensures Picked(parts, id, [], left)
  {
  }

  lemma PickedStep(parts: map<PartKey, Part>, id: SessionId, rows: seq<Row>, left: set<nat>, o: nat)
    requires Picked(parts, id, rows, left) && o in left && forall p :: p in left ==> o <= p
    ensures PartKey(id, o) in parts
    ensures Picked(parts, id, rows + [Row(o, parts[PartKey(id, o)])], left - {o})
  {
    var more := rows + [Row(o, parts[PartKey(id, o)])];
    assert more[|rows|].ordinal == o;
    assert forall i :: 0 <= i < |rows| ==> more[i] == rows[i];
  }

  lemma PickedAll(parts: map<PartKey, Part>, id: SessionId, rows: seq<Row>)
    requires Picked(parts, id, rows, {})
    ensures RowsOf(parts, id, rows)
  {
  }

  lemma RowDigests(s: State, id: SessionId, rows: seq<Row>, digests: seq<Digest>)
    requires RowsOf(s.parts, id, rows) && |digests| == |rows|
    requires forall i :: 0 <= i < |rows| ==> digests[i] == rows[i].part.digest
    ensures Elems(digests) == DigestsOf(s, id)
  {
    forall d | d in DigestsOf(s, id) ensures d in Elems(digests) {
      var k :| k in s.parts && k.session == id && s.parts[k].digest == d;
      assert PartKey(id, k.ordinal) in s.parts;
      var i :| 0 <= i < |rows| && rows[i].ordinal == k.ordinal;
      assert digests[i] == d;
    }
    forall d | d in Elems(digests) ensures d in DigestsOf(s, id) {
      var i :| 0 <= i < |digests| && digests[i] == d;
      assert PartKey(id, rows[i].ordinal) in s.parts;
    }
  }

  class Storage {
    const cfg: Config
    const store: ChunkFiles.ChunkStore
    var artifacts: map<Ident, Artifact>
    var chunks: map<Digest, Chunk>
    var sessions: map<SessionId, Session>
    var parts: map<PartKey, Part>

    function View(): State
      reads this, store
    {
      State(artifacts, chunks, sessions, parts, store.View())
    }

    ghost predicate Valid()
      reads this, store
    {
      ValidConfig(cfg) && store.Valid() && store.sha == cfg.sha && Safe(cfg, View())
    }

    /** An artifact is as before, and so are its bytes. */
    twostate predicate StillThere(ident: Ident)
      reads this, store
    {
      && ident in artifacts && ident in old(artifacts) && artifacts[ident] == old(artifacts[ident])
      && Content(View().files, artifacts[ident].manifest) == old(Content(View().files, artifacts[ident].manifest))
    }

    /** Storage::open on whatever a previous process left behind: recovery runs
        before anything else. */
    constructor (config: Config, files: ChunkFiles.ChunkStore, a: map<Ident, Artifact>, c: map<Digest, Chunk>,
                 s: map<SessionId, Session>, p: map<PartKey, Part>, now: int)
      requires ValidConfig(config) && files.Valid() && files.sha == config.sha
      requires Safe(config, State(a, c, s, p, files.View()))
      modifies files
      ensures cfg == config && store == files && Valid()
      ensures View() == Store.RunMaintenance(old(State(a, c, s, p, files.View())), now).0
      ensures forall t :: t in store.temps ==> t in old(files.temps) && !ChunkFiles.IsTemp(t)
    {
      cfg, store := config, files;
      artifacts, chunks, sessions, parts := a, c, s, p;
      new;
      hide Safe, ValidConfig, ChunkFiles.FileValid, ChunkFiles.IsTemp;
      var _, _ := RunMaintenance(now);
    }

    // ---- Helpers of Storage::Impl ------------------------------------------------

    /** SELECT ordinal, digest, length ... ORDER BY ordinal. */
    method PartRows(id: SessionId) returns (rows: seq<Row>)
      ensures RowsOf(parts, id, rows)
    {
      rows := [];
      var left := Ordinals(parts, id);
      forall o: nat ensures o in left <==> PartKey(id, o) in parts { OrdinalKey(parts, id, o); }
      hide Picked;
      PickedNone(parts, id, left);
      while left != {}
        invariant Picked(parts, id, rows, left)
        decreases |left|
      {
        ghost var least := HasLeast(left);
        var o :| o in left && forall p :: p in left ==> o <= p;
        PickedStep(parts, id, rows, left, o);
        rows := rows + [Row(o, parts[PartKey(id, o)])];
        left := left - {o};
      }
      PickedAll(parts, id, rows);
    }

    /** chunk_referenced, then the conditional UPDATE; whether a row changed. */
    method MarkUnlessReferenced(d: Digest, now: int) returns (changed: bool)
      modifies this`chunks
      ensures View() == MarkAll(old(View()), {d}, now)
      ensures changed == Markable(old(View()), {d}, d)
    {
      hide Referenced;
      changed := false;
      if Referenced(View(), d) {
        MarkReferenced(View(), d, now);
        return;
      }
      if d in chunks && chunks[d].state == ACTIVE {
        chunks := chunks[d := chunks[d].(state := PENDING_DELETE, pendingAt := Some(now))];
        changed := true;
      }
      MarkOneUpdate(old(View()), View(), d, now);
    }

    /** The marking loop over a list of digests; how many rows changed. */
    method MarkEach(digests: seq<Digest>, now: int) returns (marked: nat)
      modifies this`chunks
      ensures View() == MarkAll(old(View()), Elems(digests), now)
      ensures marked == |MarkedBy(old(View()), Elems(digests))|
    {
      hide Referenced, MarkAll, Elems;
      ghost var s := View();
      marked := 0;
      ElemsEnds(digests);
      MarkAllNone(s, now);
      assert MarkedBy(s, {}) == {};
      for i := 0 to |digests|
        modifies this`chunks
        invariant View() == MarkAll(s, Elems(digests[..i]), now)
        invariant marked == |MarkedBy(s, Elems(digests[..i]))|
      {
        var changed := MarkUnlessReferenced(digests[i], now);
        MarkAllMore(s, Elems(digests[..i]), {digests[i]}, now);
        MarkedStep(s, Elems(digests[..i]), digests[i], now);
        ElemsStep(digests, i);
        if changed {
          marked := marked + 1;
        }
      }
    }

    /** mark_unreferenced_parts. */
    method MarkUnreferencedParts(id: SessionId, now: int)
      modifies this`chunks, this`parts
      ensures View() == MarkParts(old(View()), id, now)
    {
      hide Referenced, MarkAll, Elems, DigestsOf, RowsOf;
      ghost var s := View();
      var rows := PartRows(id);
      var digests := seq(|rows|, i requires 0 <= i < |rows| => rows[i].part.digest);
      RowDigests(s, id, rows, digests);
      parts := map k | k in parts && k.session != id :: parts[k];
      assert View() == DropParts(s, id);
      var _ := MarkEach(digests, now);
    }

    /** expire_session_if_due, on a session that was just loaded. */
    method ExpireSessionIfDue(id: SessionId, now: int)
      requires id in sessions
      modifies this`sessions, this`chunks, this`parts
      ensures View() == ExpireIfDue(old(View()), id, now) && id in sessions
    {
      hide MarkAll, DigestsOf;
      if sessions[id].state == OPEN && sessions[id].expiresAt <= now {
        sessions := sessions[id := sessions[id].(state := EXPIRED)];
        assert View() == WithState(old(View()), id, EXPIRED);
        MarkUnreferencedParts(id, now);
      }
    }

    /** The conditional state change; whether it took place. */
    method Transition(id: SessionId, from: SessionState, to: SessionState) returns (changed: bool)
      modifies this`sessions
      ensures changed == HasState(old(View()), id, from)
      ensures View() == if changed then WithState(old(View()), id, to) else old(View())
    {
      changed := id in sessions && sessions[id].state == from;
      if changed {
        sessions := sessions[id := sessions[id].(state := to)];
      }
    }

    // ---- Sessions -------------------------------------------------------------------

    /** SELECT SUM(raw_size) ... WHERE state = 'ACTIVE'. */
    method UsedBytes() returns (used: nat)
      ensures used == Store.UsedBytes(View())
    {
      used := 0;
      var left := ActiveSet(View());
      while left != {}
        invariant left <= ActiveSet(View())
        invariant used + Sum(left, RawSize(chunks)) == Store.UsedBytes(View())
        decreases |left|
      {
        var d :| d in left;
        SumPull(left, d, RawSize(chunks));
        used := used + chunks[d].rawSize;
        left := left - {d};
      }
    }

    method CreateSession(id: SessionId, ident: Ident, size: U64, digest: Digest, owner: string, syntaxOk: bool,
                         now: int)
      returns (r: Result<Session>)
      requires Valid() && id !in sessions
      modifies this
      ensures (View(), r) == Store.CreateSession(cfg, old(View()), now, id, ident, size, digest, owner, syntaxOk)
      ensures Valid()
    {
      OpSafe(cfg, View(), CreateOp(id, ident, size, digest, owner, syntaxOk), now);
      hide Safe, ValidConfig, OpenOf, Store.UsedBytes, Watermark;
      if !syntaxOk {
        return Err(E_ARG);
      }
      if owner == "" {
        return Err(E_ARG);
      }
      if |OpenOf(View(), owner)| >= cfg.maxSessions {
        return Err(E_LIMIT);
      }
      var used := UsedBytes();
      var watermark := Watermark(cfg);
      if used >= watermark {
        return Err(E_LIMIT);
      }
      var info := Session(owner, OPEN, ident, size, digest, cfg.chunkSize, now, now + cfg.sessionHours * 3600);
      sessions := sessions[id := info];
      return Ok(info);
    }

    /** put_chunk. `tmp` is the fresh name of the temporary file. When the file
        system fails, the call fails and at most the session's expiry has happened;
        when the process dies in it, the file may be there as well, its row not. */
    method PutChunk(id: SessionId, ordinal: nat, data: Bytes, tmp: string, script: ChunkFiles.Script, now: int)
      returns (r: Result<Accept>, crashed: bool)
      requires Valid() && cfg.corpus(data)
      requires ChunkFiles.IsTemp(tmp) && tmp !in store.temps
      modifies this, store
      ensures Valid() && store.temps - {tmp} == old(store.temps)
      ensures !crashed ==> store.temps == old(store.temps)
      ensures crashed ==> ChunkFiles.Crashing(script)
      ensures script == ChunkFiles.SMOOTH ==> (View(), r) == Store.PutChunk(cfg, old(View()), now, id, ordinal, data)
      ensures !crashed ==> (View(), r) == Store.PutChunk(cfg, old(View()), now, id, ordinal, data)
                           || (r.Err? && View() == Expired(old(View()), id, now))
      ensures crashed ==> View() == Expired(old(View()), id, now)
                          || View() == StoreFile(Expired(old(View()), id, now), cfg.sha(data), data)
    {
      crashed := false;
      assert store.temps - {tmp} == store.temps;
      OpSafe(cfg, View(), PutOp(id, ordinal, data), now);
      if id in sessions {
        SafeExpire(cfg, View(), id, now);
      }
      hide Safe, ValidConfig, ExpireIfDue, ChunkFiles.FileValid, ChunkFiles.Payload, ChunkFiles.IsTemp,
           ChunkFiles.ChunkFile, Store.ChunkCount, Activate;
      if id !in sessions {
        return Err(E_NOTFOUND), false;
      }
      ExpireSessionIfDue(id, now);
      var session := sessions[id];
      if session.state == EXPIRED {
        return Err(E_EXPIRED), false;
      }
      if session.state != OPEN {
        return Err(E_STATE), false;
      }
      var chunkCount := Store.ChunkCount(session.expectedSize, session.chunkSize);
      if ordinal >= chunkCount {
        return Err(E_RANGE), false;
      }
      if |data| == 0 || |data| > session.chunkSize {
        return Err(E_RANGE), false;
      }
      var digest := cfg.sha(data);
      SafeStoreFile(cfg, View(), data);
      hide Register, StoreFile;
      var end := StoreContent(data, digest, tmp, script);
      match end {
        case Crashed => return Err(E_IO), true;
        case Failed(code) => return Err(code), false;
        case Stored =>
      }
      r := RegisterPart(PartKey(id, ordinal), digest, |data|, now);
    }

    /** The transaction of put_chunk: idempotent for the same content, a conflict
        for other content, otherwise the chunk row and the part row. */
    method RegisterPart(k: PartKey, digest: Digest, size: nat, now: int) returns (r: Result<Accept>)
      modifies this`chunks, this`parts
      ensures (View(), r) ==
              if k in old(parts) then
                (old(View()), if old(parts)[k].digest == digest then Ok(Accept(digest, true)) else Err(E_CONFLICT))
              else (Register(old(View()), k, digest, size, now), Ok(Accept(digest, false)))
    {
      if k in parts {
        if parts[k].digest == digest {
          return Ok(Accept(digest, true));
        }
        return Err(E_CONFLICT);
      }
      ActivateRow(digest, size, now);
      parts := parts[k := Part(digest, size)];
      return Ok(Accept(digest, false));
    }

    /** chunks.put, whatever the file system does. */
    method StoreContent(data: Bytes, d: Digest, tmp: string, script: ChunkFiles.Script) returns (end: ChunkFiles.Ending)
      requires store.Valid() && store.sha(data) == d && |data| < TWO_64
      requires ChunkFiles.IsTemp(tmp) && tmp !in store.temps
      modifies store
      ensures store.Valid() && store.temps - {tmp} == old(store.temps)
      ensures !end.Crashed? ==> store.temps == old(store.temps)
      ensures end.Stored? ==> View() == StoreFile(old(View()), d, data)
      ensures end.Failed? ==> View() == old(View())
      ensures end.Crashed? ==> View() == old(View()) || View() == StoreFile(old(View()), d, data)
      ensures script == ChunkFiles.SMOOTH ==> end.Stored?
      ensures end.Crashed? ==> ChunkFiles.Crashing(script)
    {
      hide ChunkFiles.FileValid, ChunkFiles.Payload, ChunkFiles.IsTemp, ChunkFiles.ChunkFile;
      ghost var before := store.View();
      assert d in before <==> d in store.chunks;
      end := store.Put(data, d, tmp, script);
      assert d in store.View() <==> d in store.chunks;
    }

    /** INSERT OR IGNORE, then the reactivating UPDATE. */
    method ActivateRow(d: Digest, size: nat, now: int)
      modifies this`chunks
      ensures chunks == Activate(old(chunks), d, size, now)
    {
      if d !in chunks {
        chunks := chunks[d := Chunk(size, ACTIVE, None, now)];
      }
      if chunks[d].state == PENDING_DELETE {
        chunks := chunks[d := chunks[d].(state := ACTIVE, pendingAt := None)];
      }
    }

    // ---- Commit -------------------------------------------------------------------------

    /** The first validation loop of commit_session: ordinals, lengths, offsets. */
    method BuildManifest(id: SessionId) returns (r: Result<seq<Entry>>)
      requires id in sessions && PartsOk(cfg, View())
      ensures r.Err? ==> r.code == E_STATE && CheckUpload(cfg, View(), id) == E_STATE
      ensures r.Ok? ==> Validated(View(), id, r.value)
    {
      hide PartsOk, RowsOf, CheckUpload, Contiguous, Manifest, Store.ChunkCount, TotalLength;
      ghost var s := View();
      var session := sessions[id];
      var chunkCount := Store.ChunkCount(session.expectedSize, session.chunkSize);
      CountDef(session);
      var rows := PartRows(id);
      var manifest: seq<Entry> := [];
      var total: U64 := 0;
      var expected := 0;
      NoManifest(parts, id);
      while expected < |rows|
        invariant expected == |manifest| <= |rows|
        invariant Aligned(parts, id, rows, expected)
        invariant manifest == Manifest(parts, id, expected) && total == TotalLength(manifest)
        invariant forall i :: 0 <= i < expected ==> manifest[i].length <= session.chunkSize
      {
        var row := rows[expected];
        if row.ordinal != expected {
          GapFails(cfg, s, id, rows, expected);
          return Err(E_STATE);
        }
        AlignedStep(parts, id, rows, expected);
        if row.part.length > session.chunkSize {
          TooLong(cfg, s, id, rows, expected);
          return Err(E_STATE);
        }
        ManifestStep(cfg, s, id, rows, expected);
        manifest := manifest + [Entry(expected, total, row.part.length, row.part.digest)];
        total := total + row.part.length;
        expected := expected + 1;
      }
      if |manifest| != chunkCount {
        CountFails(cfg, s, id, rows);
        return Err(E_STATE);
      }
      AllAligned(s, id, rows);
      if total != session.expectedSize {
        LengthFails(cfg, s, id);
        return Err(E_STATE);
      }
      return Ok(manifest);
    }

    /** The second loop: the chunk files in manifest order, as the hash sees them. */
    method OverallContent(m: seq<Entry>) returns (r: Result<Bytes>)
      requires store.Valid()
      requires forall i :: 0 <= i < |m| && m[i].digest in View().files ==>
                 |View().files[m[i].digest]| + ChunkFiles.CHUNK_HEADER_SIZE < ChunkFiles.SEEK_LIMIT
      ensures r == if exists i | 0 <= i < |m| :: m[i].digest !in View().files then Err(E_NOTFOUND)
                   else Ok(Content(View().files, m))
    {
      hide ChunkFiles.FileValid, ChunkFiles.Payload, ChunkFiles.ReadRange, Content, FileOf;
      ghost var files := store.View();
      NoContent(files);
      ElemsEnds(m);
      var stream: Bytes := [];
      for i := 0 to |m|
        invariant stream == Content(files, m[..i])
        invariant forall j :: 0 <= j < i ==> m[j].digest in files
      {
        var d := m[i].digest;
        if d in store.chunks {
          assert d in files;
          store.RangeOfView(d, 0, U64_MAX);
          WholeFile(files, d);
        }
        var buffer := store.GetRange(d, 0, U64_MAX);
        if buffer.Err? {
          return Err(buffer.code);
        }
        ContentStep(files, m, i);
        stream := stream + buffer.value;
      }
      return Ok(stream);
    }

    /** The publishing transaction. */
    method PublishTx(id: SessionId, manifest: seq<Entry>, now: int) returns (info: Artifact)
      requires id in sessions && Contiguous(View(), id, Count(sessions[id]))
      requires manifest == Manifest(parts, id, Count(sessions[id]))
      modifies this`artifacts, this`chunks, this`sessions
      ensures View() == Publish(old(View()), id, now) && info == NewArtifact(old(View()), id, now)
    {
      hide Contiguous, Manifest, Count, ReactivateAll;
      ghost var s := View();
      var session := sessions[id];
      var rows: seq<Entry> := [];
      ElemsEnds(manifest);
      ReactivateNone(chunks);
      for i := 0 to |manifest|
        modifies this`chunks
        invariant chunks == ReactivateAll(s.chunks, manifest[..i]) && rows == manifest[..i]
      {
        var entry := manifest[i];
        ReactivateStep(s.chunks, manifest, i);
        if entry.digest in chunks && chunks[entry.digest].state == PENDING_DELETE {
          chunks := chunks[entry.digest := chunks[entry.digest].(state := ACTIVE, pendingAt := None)];
        }
        rows := rows + [entry];
      }
      info := Artifact(session.expectedSize, session.expectedDigest, session.chunkSize, session.owner, now, rows);
      artifacts := artifacts[session.ident := info];
      sessions := sessions[id := session.(state := COMPLETED)];
    }

    /** commit_session. `room` is the largest manifest that can be allocated; beyond
        it the exception leaves the method with the session COMMITTING. */
    method CommitSession(id: SessionId, room: nat, now: int) returns (r: Result<Artifact>)
      requires Valid()
      modifies this
      ensures (View(), r) == Store.CommitSession(cfg, old(View()), now, id, room)
      ensures Valid()
    {
      OpSafe(cfg, View(), CommitOp(id, room), now);
      hide Safe, ValidConfig, ExpireIfDue, CheckUpload, Publish, NewArtifact, ChunkFiles.FileValid, ChunkFiles.Payload,
           WithState;
      if id !in sessions {
        return Err(E_NOTFOUND);
      }
      ghost var s0 := View();
      SafeExpire(cfg, s0, id, now);
      ExpireSessionIfDue(id, now);
      ghost var s := View();
      var committing := Transition(id, OPEN, COMMITTING);
      if !committing {
        if sessions[id].state == EXPIRED {
          return Err(E_EXPIRED);
        }
        return Err(E_STATE);
      }
      ghost var t := View();
      WithStateTwice(s, id, COMMITTING, OPEN);
      WithStateTwice(s, id, OPEN, OPEN);
      CheckIgnoresState(cfg, s, id, COMMITTING);
      InSessions(s, id, COMMITTING);
      SafeWithState(cfg, s, id, COMMITTING);
      SameCount(s.sessions[id], t.sessions[id]);
      CountDef(sessions[id]);
      hide Store.ChunkCount, Count;
      var chunkCount := Store.ChunkCount(sessions[id].expectedSize, sessions[id].chunkSize);
      if chunkCount > room {
        return Err(E_INTERNAL);
      }
      r := ValidateAndPublish(id, now);
      if r.Err? {
        var _ := Transition(id, COMMITTING, OPEN);
      } else {
        PublishIgnoresState(cfg, s, id, now);
        SameArtifact(s, id, now);
      }
    }

    /** From COMMITTING: everything between the two state changes. */
    method ValidateAndPublish(id: SessionId, now: int) returns (r: Result<Artifact>)
      requires ValidConfig(cfg) && store.Valid() && Safe(cfg, View()) && id in sessions && store.sha == cfg.sha
      modifies this`artifacts, this`chunks, this`sessions
      ensures CheckUpload(cfg, old(View()), id) == OK ==>
                Contiguous(old(View()), id, Count(old(View()).sessions[id]))
                && View() == Publish(old(View()), id, now) && r == Ok(NewArtifact(old(View()), id, now))
      ensures CheckUpload(cfg, old(View()), id) != OK ==>
                View() == old(View()) && r == Err(CheckUpload(cfg, old(View()), id))
    {
      ghost var s := View();
      SafeParts(cfg, s);
      hide Safe, ValidConfig, CheckUpload, Publish, NewArtifact, ChunkFiles.FileValid, ChunkFiles.Payload, Manifest,
           Contiguous, Count, Content, Validated, TotalLength, PartsOk;
      var session := sessions[id];
      var built := BuildManifest(id);
      if built.Err? {
        return Err(built.code);
      }
      var manifest := built.value;
      SmallChunks(cfg, s, id, manifest);
      ValidatedVerdict(cfg, s, id, manifest);
      var content := OverallContent(manifest);
      if content.Err? {
        return Err(content.code);
      }
      if cfg.sha(content.value) != session.expectedDigest {
        return Err(E_CONFLICT);
      }
      if session.ident in artifacts {
        return Err(E_EXISTS);
      }
      var info := PublishTx(id, manifest, now);
      return Ok(info);
    }

    // ---- Maintenance -------------------------------------------------------------

    /** SELECT id ... WHERE state IN ('EXPIRED', 'ABORTED'). */
    method DeadSessions() returns (ids: seq<SessionId>)
      ensures Elems(ids) == DeadIds(View())
      ensures forall i, j :: 0 <= i < j < |ids| ==> ids[i] != ids[j]
    {
      ids := [];
      var left := set id | id in sessions && Dead(sessions[id].state);
      while left != {}
        invariant Elems(ids) + left == DeadIds(View()) && Elems(ids) !! left
        invariant forall i, j :: 0 <= i < j < |ids| ==> ids[i] != ids[j]
        decreases |left|
      {
        var id :| id in left;
        assert forall i :: 0 <= i < |ids| ==> ids[i] in Elems(ids);
        ids := ids + [id];
        left := left - {id};
      }
    }

    /** run_maintenance: remove temporary files, expire, roll interrupted commits
        back, and retire the parts of dead sessions. */
    method RunMaintenance(now: int) returns (report: RecoveryReport, tempsRemoved: nat)
      requires Valid()
      modifies this, store
      ensures (View(), report) == Store.RunMaintenance(old(View()), now)
      ensures tempsRemoved == |ChunkFiles.TempNames(old(store.temps).Keys)|
      ensures forall t :: t in store.temps ==> t in old(store.temps) && !ChunkFiles.IsTemp(t)
      ensures Valid()
    {
      hide Safe, ValidConfig, MarkAll, MarkParts, DropSet, DigestsIn, Elems, DeadIds, ExpireAllDue, ReopenAll,
           ChunkFiles.FileValid, ChunkFiles.IsTemp, ChunkFiles.Payload;
      ghost var s := View();
      OpSafe(cfg, s, MaintainOp, now);
      tempsRemoved := store.CleanupTempFiles();
      assert View() == s && store.Valid();
      report := SettleSessions(now);
      ghost var s1 := View();
      var terminal := DeadSessions();
      DeadIdsMeaning(s1);
      RetireEach(terminal, now);
      DropDeadIsDropSet(s1);
    }

    /** The two bulk updates of upload_session, and how many rows each changed. */
    method SettleSessions(now: int) returns (report: RecoveryReport)
      modifies this`sessions
      ensures View() == ReopenAll(ExpireAllDue(old(View()), now))
      ensures report == RecoveryReport(|DueSet(old(View()), now)|, |CommittingSet(old(View()))|)
    {
      SameCommitting(View(), now);
      var expired := |DueSet(View(), now)|;
      sessions := map id | id in sessions ::
        if Due(sessions[id], now) then sessions[id].(state := EXPIRED) else sessions[id];
      var rolledBack := |CommittingSet(View())|;
      sessions := map id | id in sessions ::
        if sessions[id].state == COMMITTING then sessions[id].(state := OPEN) else sessions[id];
      report := RecoveryReport(expired, rolledBack);
    }

    /** The loop over the dead sessions. */
    method RetireEach(ids: seq<SessionId>, now: int)
      requires forall i, j :: 0 <= i < j < |ids| ==> ids[i] != ids[j]
      requires forall j :: j in Elems(ids) ==> j in sessions && Dead(sessions[j].state)
      modifies this`chunks, this`parts
      ensures View() == MarkAll(DropSet(old(View()), Elems(ids)), DigestsIn(old(View()), Elems(ids)), now)
    {
      ghost var s := View();
      DropNone(s, now);
      ElemsEnds(ids);
      hide MarkAll, MarkParts, DropSet, DigestsIn;
      for i := 0 to |ids|
        modifies this`chunks, this`parts
        invariant View() == MarkAll(DropSet(s, Elems(ids[..i])), DigestsIn(s, Elems(ids[..i])), now)
      {
        ElemsStep(ids, i);
        assert Elems(ids[..i + 1]) <= Elems(ids);
        assert ids[i] !in Elems(ids[..i]);
        RetireMore(s, Elems(ids[..i]), ids[i], now);
        MarkUnreferencedParts(ids[i], now);
      }
    }

    // ---- Garbage collection ----------------------------------------------------------

    /** SELECT digest, raw_size, pending_at ... WHERE state = 'PENDING_DELETE'. */
    method Candidates() returns (cs: seq<Candidate>)
      ensures CandidatesOf(View(), cs)
    {
      cs := [];
      var left := PendingSet(View());
      ghost var s := View();
      hide CandidateDigests;
      NoCandidates(cs);
      while left != {}
        invariant left <= PendingSet(s) && CandidateDigests(cs) == PendingSet(s) - left
        invariant |cs| + |left| == |PendingSet(s)|
        invariant Distinct(cs) && forall c :: c in cs ==> IsRow(s, c)
        decreases |left|
      {
        var d :| d in left;
        var c := Candidate(d, chunks[d].rawSize, chunks[d].pendingAt.value);
        CandidateStep(cs, c);
        DistinctStep(cs, c);
        cs := cs + [c];
        left := left - {d};
      }
    }

    /** The body of the sweep for one candidate; whether it counts as deleted. */
    method SweepOne(c: Candidate, dryRun: bool, now: int) returns (deleted: bool)
      requires store.Valid() && c.digest in View().chunks
      modifies this`chunks, store
      ensures store.Valid() && store.temps == old(store.temps)
      ensures deleted == (c.pendingAt <= now - cfg.graceSeconds && !Referenced(old(View()), c.digest))
      ensures View() == if c.pendingAt > now - cfg.graceSeconds then old(View())
                        else if Referenced(old(View()), c.digest) then Rescue(old(View()), {c.digest})
                        else if dryRun then old(View())
                        else Sweep(old(View()), {c.digest})
    {
      hide Referenced, ChunkFiles.FileValid, ChunkFiles.Payload;
      if c.pendingAt > now - cfg.graceSeconds {
        return false;
      }
      if Referenced(View(), c.digest) {
        chunks := chunks[c.digest := chunks[c.digest].(state := ACTIVE, pendingAt := None)];
        return false;
      }
      if !dryRun {
        store.Remove(c.digest);
        chunks := chunks - {c.digest};
      }
      return true;
    }

    /** The sweep over all candidates. */
    method SweepEach(cs: seq<Candidate>, dryRun: bool, now: int) returns (deletedCount: nat, deletedBytes: nat)
      requires store.Valid() && CandidatesOf(View(), cs)
      modifies this`chunks, store
      ensures store.Valid() && store.temps == old(store.temps)
      ensures View() == Swept(cfg, old(View()), now, dryRun, CandidateDigests(cs))
      ensures deletedCount == |Garbage(cfg, old(View()), now)|
      ensures deletedBytes == Sum(Garbage(cfg, old(View()), now), RawSize(old(View()).chunks))
    {
      hide Referenced, ChunkFiles.FileValid, Garbage, Swept, Sum, RawSize, CandidateDigests, CandidatesOf, View,
           Sweep, Rescue, ChunkFiles.ChunkStore.Valid;
      ghost var s := View();
      deletedCount, deletedBytes := 0, 0;
      SweptNone(cfg, s, now, dryRun);
      NoCandidates(cs);
      for i := 0 to |cs|
        modifies this`chunks, store
        invariant store.Valid() && store.temps == old(store.temps)
        invariant View() == Swept(cfg, s, now, dryRun, CandidateDigests(cs[..i]))
        invariant deletedCount == |Garbage(cfg, s, now) * CandidateDigests(cs[..i])|
        invariant deletedBytes == Sum(Garbage(cfg, s, now) * CandidateDigests(cs[..i]), RawSize(s.chunks))
      {
        SweptStep(cfg, s, now, dryRun, cs, i);
        var deleted := SweepOne(cs[i], dryRun, now);
        if deleted {
          deletedCount := deletedCount + 1;
          deletedBytes := deletedBytes + cs[i].rawSize;
        }
      }
      SweptAll(cfg, s, now, dryRun, cs);
    }

    method CollectGarbage(dryRun: bool, now: int) returns (report: GcReport)
      requires Valid()
      modifies this, store
      ensures (View(), report) == Store.CollectGarbage(cfg, old(View()), now, dryRun)
      ensures Valid() && store.temps == old(store.temps)
    {
      GcSafe(cfg, View(), dryRun, now);
      hide Safe, ValidConfig, ChunkFiles.FileValid, Garbage, Swept, Sum, RawSize, CandidateDigests, CandidatesOf,
           Store.CollectGarbage, View, Referenced, Store.UsedBytes, ChunkFiles.ChunkStore.Valid;
      ghost var s := View();
      var cs := Candidates();
      var deletedCount, deletedBytes := SweepEach(cs, dryRun, now);
      SweptAll(cfg, s, now, dryRun, cs);
      report := GcReport(|cs|, deletedCount, deletedBytes);
    }

    // ---- Reading --------------------------------------------------------------------

    /** session_progress: the expected count and the ordinals present, in order. */
    method SessionProgress(id: SessionId) returns (r: Result<(nat, seq<nat>)>)
      ensures r.Err? <==> id !in sessions
      ensures r.Err? ==> r.code == E_NOTFOUND
      ensures r.Ok? ==> r.value.0 == Count(sessions[id]) && Ascending(r.value.1)
                        && forall o: nat :: o in r.value.1 <==> PartKey(id, o) in parts
    {
      if id !in sessions {
        return Err(E_NOTFOUND);
      }
      var session := sessions[id];
      CountDef(session);
      var rows := PartRows(id);
      var present := seq(|rows|, i requires 0 <= i < |rows| => rows[i].ordinal);
      PresentOrdinals(parts, id, rows, present);
      hide RowsOf, Store.ChunkCount, Count;
      return Ok((Store.ChunkCount(session.expectedSize, session.chunkSize), present));
    }

    /** The loop both read functions run over the manifest: a window of `n` bytes
        from `start`, clipped by the caller, delivered piece by piece. Neither
        64-bit sum in it can overflow. */
    method Deliver(a: Artifact, start: U64, n: U64) returns (pieces: seq<Bytes>, sent: U64, st: Status)
      requires store.Valid() && Readable(store.View(), a) && SizeOk(a.chunkSize)
      requires start + n <= a.size
      ensures st == OK && sent == n
      ensures var content := Content(store.View(), a.manifest);
              |content| == a.size && Delivered(content, start, start + n, pieces, a.chunkSize)
    {
      hide Content, Readable, TotalLength, Delivered, ChunkFiles.ReadRange, ChunkFiles.FileValid, ChunkFiles.Payload,
           ChunkFiles.ChunkStore.View, ChunkFiles.ChunkStore.Valid;
      ghost var files := store.View();
      ghost var content := Content(files, a.manifest);
      ContentSize(files, a);
      DeliveredNone(content, start, a.chunkSize);
      TotalEnds(files, a);
      pieces, sent, st := [], 0, OK;
      var offset: U64, remaining: U64 := start, n;
      var i := 0;
      while i < |a.manifest|
        invariant i <= |a.manifest| && st == OK
        invariant offset == start + sent && sent + remaining == n
        invariant remaining == 0 || TotalLength(a.manifest[..i]) <= offset
        invariant Delivered(content, start, offset, pieces, a.chunkSize)
      {
        if remaining == 0 {
          break;
        }
        var entry := a.manifest[i];
        EntryBytes(files, a, i);
        EntryFacts(files, a, i);
        var chunkEnd: U64 := entry.offset + entry.length;
        if offset >= chunkEnd {
          i := i + 1;
          continue;
        }
        var windowEnd: U64 := offset + remaining;
        if entry.offset >= windowEnd {
          break;
        }
        var localOffset := if offset > entry.offset then offset - entry.offset else 0;
        var take := chunkEnd - (if offset > entry.offset then offset else entry.offset);
        if take > remaining {
          take := remaining;
        }
        var buffer := GetEntryRange(a, i, localOffset, take);
        match buffer {
          case Err(code) =>
            st := code;
            return;
          case Ok(piece) =>
            DeliveredMore(content, start, offset, pieces, a.chunkSize, take);
            pieces := pieces + [piece];
            remaining := remaining - take;
            offset := offset + take;
            sent := sent + take;
            i := i + 1;
        }
      }
    }

    /** get_range on the chunk of one manifest entry, as bytes of the content. */
    method GetEntryRange(a: Artifact, i: nat, localOffset: U64, take: U64) returns (r: Result<Bytes>)
      requires store.Valid() && Readable(store.View(), a) && SizeOk(a.chunkSize)
      requires i < |a.manifest| && localOffset + take <= a.manifest[i].length
      ensures var at := a.manifest[i].offset + localOffset;
              at + take <= |Content(store.View(), a.manifest)|
              && r == Ok(Content(store.View(), a.manifest)[at..at + take])
    {
      hide Content, Readable, TotalLength, ChunkFiles.ReadRange, ChunkFiles.FileValid, ChunkFiles.Payload,
           ChunkFiles.ChunkStore.View;
      ghost var files := store.View();
      var entry := a.manifest[i];
      EntryBytes(files, a, i);
      EntryFacts(files, a, i);
      FileStored(entry.digest);
      store.RangeOfView(entry.digest, localOffset, take);
      r := store.GetRange(entry.digest, localOffset, take);
      SubSlice(Content(files, a.manifest), files[entry.digest], entry.offset, localOffset, take);
    }

    lemma FileStored(d: Digest)
      ensures d in store.View() <==> d in store.chunks
    {
    }

    /** read_artifact: the pieces handed to the sink are exactly the clipped slice
        of the content, for every offset and length. */
    method ReadArtifact(ident: Ident, offset: U64, length: U64) returns (pieces: seq<Bytes>, st: Status)
      requires Valid()
      ensures st == if ident !in artifacts then E_NOTFOUND
                    else if offset > artifacts[ident].size then E_RANGE else OK
      ensures st != OK ==> pieces == []
      ensures st == OK ==>
                var content := Content(View().files, artifacts[ident].manifest);
                && offset <= |content| == artifacts[ident].size
                && Flatten(pieces) == Slice(content, offset, length)
                && forall p :: p in pieces ==> 0 < |p| <= artifacts[ident].chunkSize
    {
      hide Content, Readable, Flatten, Delivered, Safe, ValidConfig, ChunkFiles.ChunkStore.View,
           ChunkFiles.ChunkStore.Valid;
      pieces := [];
      if ident !in artifacts {
        return [], E_NOTFOUND;
      }
      var info := artifacts[ident];
      if offset > info.size {
        return [], E_RANGE;
      }
      var remaining := length;
      if remaining > info.size - offset {
        remaining := info.size - offset;
      }
      SafeReadable(cfg, View(), ident);
      ArtifactSize(cfg, View(), ident);
      hide Valid;
      var delivered, _, status := Deliver(info, offset, remaining);
      pieces, st := delivered, status;
      Clipped(Content(store.View(), info.manifest), offset, length, remaining, pieces, info.chunkSize);
    }

    /** read_artifact_slice: the same, and it returns how much it sent. */
    method ReadArtifactSlice(ident: Ident, offset: U64, maxLen: U64)
      returns (pieces: seq<Bytes>, sent: U64, st: Status)
      requires Valid()
      ensures st == if ident !in artifacts then E_NOTFOUND
                    else if offset > artifacts[ident].size then E_RANGE else OK
      ensures st != OK ==> pieces == [] && sent == 0
      ensures st == OK ==>
                var content := Content(View().files, artifacts[ident].manifest);
                && offset <= |content| == artifacts[ident].size
                && Flatten(pieces) == Slice(content, offset, maxLen)
                && sent == Min(maxLen, |content| - offset)
                && forall p :: p in pieces ==> 0 < |p| <= artifacts[ident].chunkSize
    {
      hide Content, Readable, Flatten, Delivered, Safe, ValidConfig, ChunkFiles.ChunkStore.View,
           ChunkFiles.ChunkStore.Valid;
      pieces := [];
      if ident !in artifacts {
        return [], 0, E_NOTFOUND;
      }
      var info := artifacts[ident];
      if offset > info.size {
        return [], 0, E_RANGE;
      }
      var remaining := info.size - offset;
      if remaining > maxLen {
        remaining := maxLen;
      }
      SafeReadable(cfg, View(), ident);
      ArtifactSize(cfg, View(), ident);
      hide Valid;
      pieces, sent, st := Deliver(info, offset, remaining);
      Clipped(Content(store.View(), info.manifest), offset, maxLen, remaining, pieces, info.chunkSize);
    }

    // ---- Abort and delete -----------------------------------------------------------

    method AbortSession(id: SessionId, now: int) returns (st: Status)
      requires Valid()
      modifies this
      ensures (View(), st) == Store.AbortSession(old(View()), now, id)
      ensures Valid()
    {
      ghost var s := View();
      OpSafe(cfg, s, AbortOp(id), now);
      hide Safe, MarkParts, ValidConfig;
      if id !in sessions {
        return E_NOTFOUND;
      }
      var state := sessions[id].state;
      if state == ABORTED || state == EXPIRED || state == COMPLETED {
        return OK;
      }
      var _ := Transition(id, state, ABORTED);
      MarkUnreferencedParts(id, now);
      return OK;
    }

    method DeleteArtifact(ident: Ident, now: int) returns (r: Result<nat>)
      requires Valid()
      modifies this
      ensures (View(), r) == Store.DeleteArtifact(old(View()), now, ident)
      ensures Valid()
    {
      ghost var s := View();
      OpSafe(cfg, s, DeleteOp(ident), now);
      hide Safe, MarkAll, Elems, ValidConfig, Markable;
      if ident !in artifacts {
        return Err(E_NOTFOUND);
      }
      var manifest := artifacts[ident].manifest;
      var digests := seq(|manifest|, i requires 0 <= i < |manifest| => manifest[i].digest);
      ManifestElems(s.artifacts[ident], digests);
      artifacts := artifacts - {ident};
      assert View() == Unpublish(s, ident);
      var marked := MarkEach(digests, now);
      MarkedIsNew(s, ident);
      return Ok(marked);
    }

    // ---- Any of them ------------------------------------------------------------------

    /** Whichever operation it is, the tables and files become what it is specified
        to make of them, or, when the file system fails a put, what is left then.
        `tmp` and `script` are the temporary name and the outcomes of a put. */
    method Perform(op: Op, tmp: string, script: ChunkFiles.Script, now: int) returns (ghost did: Op)
      requires Valid() && Admissible(cfg, View(), op) && !ChunkFiles.Crashing(script)
      requires ChunkFiles.IsTemp(tmp) && tmp !in store.temps
      modifies this, store
      ensures Valid() && View() == OpState(cfg, old(View()), did, now) && Admissible(cfg, old(View()), did)
      ensures did == op || (op.PutOp? && script != ChunkFiles.SMOOTH && did == FailOp(op.id, op.data, false))
      ensures forall t :: t in store.temps ==> t in old(store.temps)
    {
      hide Valid, ChunkFiles.IsTemp, ChunkFiles.Crashing, Store.CreateSession, Store.PutChunk, Store.CommitSession,
           Store.AbortSession, Store.DeleteArtifact, Store.CollectGarbage, Store.RunMaintenance;
      did := op;
      match op {
        case CreateOp(id, ident, size, digest, owner, syntaxOk) =>
          var _ := CreateSession(id, ident, size, digest, owner, syntaxOk, now);
        case PutOp(id, ordinal, data) =>
          var _, _ := PutChunk(id, ordinal, data, tmp, script, now);
          if View() != OpState(cfg, old(View()), op, now) {
            did := FailOp(id, data, false);
          }
        case CommitOp(id, room) =>
          var _ := CommitSession(id, room, now);
        case FailOp(id, data, stored) =>
          FailAfter(id, data, stored, tmp, now);
        case AbortOp(id) =>
          var _ := AbortSession(id, now);
        case DeleteOp(ident) =>
          var _ := DeleteArtifact(ident, now);
        case GcOp(dryRun) =>
          var _ := CollectGarbage(dryRun, now);
        case MaintainOp =>
          var _, _ := RunMaintenance(now);
      }
    }

    /** What a put or commit has done when an I/O error ends it. */
    method FailAfter(id: SessionId, data: Bytes, stored: bool, tmp: string, now: int)
      requires Valid() && Admissible(cfg, View(), FailOp(id, data, stored))
      requires ChunkFiles.IsTemp(tmp) && tmp !in store.temps
      modifies this, store
      ensures Valid() && View() == OpState(cfg, old(View()), FailOp(id, data, stored), now)
      ensures store.temps == old(store.temps)
    {
      OpSafe(cfg, View(), FailOp(id, data, stored), now);
      hide Safe, ValidConfig, ExpireIfDue, ChunkFiles.FileValid, ChunkFiles.IsTemp, StoreFile;
      if id in sessions {
        ExpireSessionIfDue(id, now);
        if stored {
          var _ := StoreContent(data, cfg.sha(data), tmp, ChunkFiles.SMOOTH);
        }
      }
    }
  }

  // ---- Facts about reading ------------------------------------------------------------

  ghost predicate Ascending(xs: seq<nat>) {
    forall i, j :: 0 <= i < j < |xs| ==> xs[i] < xs[j]
  }

  lemma PresentOrdinals(parts: map<PartKey, Part>, id: SessionId, rows: seq<Row>, present: seq<nat>)
    requires RowsOf(parts, id, rows) && |present| == |rows|
    requires forall i :: 0 <= i < |rows| ==> present[i] == rows[i].ordinal
    ensures Ascending(present) && forall o: nat :: o in present <==> PartKey(id, o) in parts
  {
    forall o: nat | PartKey(id, o) in parts ensures o in present {
      var i :| 0 <= i < |rows| && rows[i].ordinal == o;
      assert present[i] == o;
    }
  }

  lemma TotalEnds(files: map<Digest, Bytes>, a: Artifact)
    requires Readable(files, a)
    ensures TotalLength(a.manifest[..0]) == 0 && TotalLength(a.manifest[..|a.manifest|]) == a.size
  {
    assert a.manifest[..|a.manifest|] == a.manifest;
  }

  lemma ArtifactSize(cfg: Config, s: State, ident: Ident)
    requires Safe(cfg, s) && ident in s.artifacts
    ensures SizeOk(s.artifacts[ident].chunkSize)
  {
    assert ArtifactOk(cfg, s.files, s.artifacts[ident]);
  }

  lemma Clipped(content: Bytes, offset: nat, n: nat, clipped: nat, pieces: seq<Bytes>, bound: nat)
    requires offset <= |content| && clipped == Min(n, |content| - offset)
    requires Delivered(content, offset, offset + clipped, pieces, bound)
    ensures Flatten(pieces) == Slice(content, offset, n)
    ensures forall p :: p in pieces ==> 0 < |p| <= bound
  {
  }

  // ---- Facts about the sweep -------------------------------------------------------

  datatype Candidate = Candidate(digest: Digest, rawSize: nat, pendingAt: int)

  ghost predicate IsRow(s: State, c: Candidate) {
    Pending(s, c.digest) && s.chunks[c.digest].rawSize == c.rawSize
    && s.chunks[c.digest].pendingAt == Some(c.pendingAt)
  }

  ghost function CandidateDigests(cs: seq<Candidate>): set<Digest> {
    set c | c in cs :: c.digest
  }

  /** All pending rows, each once. */
  ghost predicate CandidatesOf(s: State, cs: seq<Candidate>) {
    && CandidateDigests(cs) == PendingSet(s) && |cs| == |PendingSet(s)|
    && Distinct(cs) && forall c :: c in cs ==> IsRow(s, c)
  }

  ghost predicate Distinct(cs: seq<Candidate>) {
    forall i, j :: 0 <= i < j < |cs| ==> cs[i].digest != cs[j].digest
  }

  lemma DistinctStep(cs: seq<Candidate>, c: Candidate)
    requires Distinct(cs) && c.digest !in CandidateDigests(cs)
    ensures Distinct(cs + [c])
  {
    assert forall i :: 0 <= i < |cs| ==> cs[i].digest in CandidateDigests(cs);
  }

  lemma CandidateStep(cs: seq<Candidate>, c: Candidate)
    ensures CandidateDigests(cs + [c]) == CandidateDigests(cs) + {c.digest}
  {
    assert forall x :: x in cs + [c] <==> x in cs || x == c;
    assert c in cs + [c];
  }

  lemma NoCandidates(cs: seq<Candidate>)
    ensures CandidateDigests(cs[..0]) == {} && CandidateDigests([]) == {}
  {
  }

  /** The state once the candidates in `done` have been visited. */
  ghost function Swept(cfg: Config, s: State, now: int, dryRun: bool, done: set<Digest>): State {
    var t := Rescue(s, Rescued(cfg, s, now) * done);
    if dryRun then t else Sweep(t, Garbage(cfg, s, now) * done)
  }

  lemma SweptNone(cfg: Config, s: State, now: int, dryRun: bool)
    ensures Swept(cfg, s, now, dryRun, {}) == s
    ensures Sum(Garbage(cfg, s, now) * {}, RawSize(s.chunks)) == 0 && |Garbage(cfg, s, now) * {}| == 0
  {
    assert Garbage(cfg, s, now) * {} == {} && Rescued(cfg, s, now) * {} == {};
    assert Rescue(s, {}).chunks == s.chunks;
    SweepNone(s);
  }

  lemma SweptRefs(cfg: Config, s: State, now: int, dryRun: bool, done: set<Digest>)
    ensures forall d :: Referenced(Swept(cfg, s, now, dryRun, done), d) <==> Referenced(s, d)
  {
    SameRefs(s, Swept(cfg, s, now, dryRun, done));
  }

  lemma RescueMore(s: State, ds: set<Digest>, gone: set<Digest>, d: Digest)
    requires d !in gone
    ensures Rescue(Sweep(Rescue(s, ds), gone), {d}) == Sweep(Rescue(s, ds + {d}), gone)
    ensures Rescue(Rescue(s, ds), {d}) == Rescue(s, ds + {d})
  {
    assert Rescue(Sweep(Rescue(s, ds), gone), {d}).chunks == Sweep(Rescue(s, ds + {d}), gone).chunks;
    assert Rescue(Rescue(s, ds), {d}).chunks == Rescue(s, ds + {d}).chunks;
  }

  lemma Grow(xs: set<Digest>, done: set<Digest>, d: Digest)
    ensures xs * (done + {d}) == if d in xs then xs * done + {d} else xs * done
  {
  }

  /** What visiting one more candidate must do to the state and the counters. */
  lemma SweptStep(cfg: Config, s: State, now: int, dryRun: bool, cs: seq<Candidate>, i: nat)
    requires CandidatesOf(s, cs) && i < |cs|
    ensures var d := cs[i].digest;
            var done := CandidateDigests(cs[..i]);
            var t := Swept(cfg, s, now, dryRun, done);
            var g := Garbage(cfg, s, now);
            && CandidateDigests(cs[..i + 1]) == done + {d}
            && d in t.chunks && (Referenced(t, d) <==> Referenced(s, d))
            && Swept(cfg, s, now, dryRun, done + {d}) ==
               (if cs[i].pendingAt > now - cfg.graceSeconds then t
                else if Referenced(s, d) then Rescue(t, {d})
                else if dryRun then t
                else Sweep(t, {d}))
            && (if cs[i].pendingAt <= now - cfg.graceSeconds && !Referenced(s, d) then
                  |g * (done + {d})| == |g * done| + 1
                  && Sum(g * (done + {d}), RawSize(s.chunks)) == Sum(g * done, RawSize(s.chunks)) + cs[i].rawSize
                else g * (done + {d}) == g * done)
  {
    var d := cs[i].digest;
    var done := CandidateDigests(cs[..i]);
    var g, r := Garbage(cfg, s, now), Rescued(cfg, s, now);
    assert cs[..i + 1] == cs[..i] + [cs[i]];
    CandidateStep(cs[..i], cs[i]);
    NotYetDone(cs, i);
    SweptRefs(cfg, s, now, dryRun, done);
    assert IsRow(s, cs[i]);
    InGarbage(cfg, s, now, cs[i]);
    Grow(g, done, d);
    Grow(r, done, d);
    hide Referenced, Garbage, Rescued, Ripe, Sweep, Rescue;
    RescueMore(s, r * done, g * done, d);
    SweepMore(Rescue(s, r * done), g * done, {d});
    SumPush(g * done, d, RawSize(s.chunks));
    SweptKeeps(cfg, s, now, dryRun, done, d);
  }

  lemma NotYetDone(cs: seq<Candidate>, i: nat)
    requires i < |cs| && Distinct(cs)
    ensures cs[i].digest !in CandidateDigests(cs[..i])
  {
  }

  lemma InGarbage(cfg: Config, s: State, now: int, c: Candidate)
    requires IsRow(s, c)
    ensures c.digest in Garbage(cfg, s, now) <==>
            c.pendingAt <= now - cfg.graceSeconds && !Referenced(s, c.digest)
    ensures c.digest in Rescued(cfg, s, now) <==>
            c.pendingAt <= now - cfg.graceSeconds && Referenced(s, c.digest)
  {
    hide Referenced;
  }

  lemma SweptKeeps(cfg: Config, s: State, now: int, dryRun: bool, done: set<Digest>, d: Digest)
    requires d in s.chunks && d !in done
    ensures d in Swept(cfg, s, now, dryRun, done).chunks
  {
    hide Referenced, Ripe;
  }

  lemma SweptAll(cfg: Config, s: State, now: int, dryRun: bool, cs: seq<Candidate>)
    requires CandidatesOf(s, cs)
    ensures cs[..|cs|] == cs
    ensures Garbage(cfg, s, now) * CandidateDigests(cs) == Garbage(cfg, s, now)
    ensures Swept(cfg, s, now, dryRun, CandidateDigests(cs)) == Store.CollectGarbage(cfg, s, now, dryRun).0
    ensures Store.CollectGarbage(cfg, s, now, dryRun).1 ==
            GcReport(|cs|, |Garbage(cfg, s, now)|, Sum(Garbage(cfg, s, now), RawSize(s.chunks)))
  {
    hide Referenced, Sum;
    assert Garbage(cfg, s, now) * CandidateDigests(cs) == Garbage(cfg, s, now);
    assert Rescued(cfg, s, now) * CandidateDigests(cs) == Rescued(cfg, s, now);
  }

  // ---- Facts about the commit loops ------------------------------------------------

  /** The first n rows are ordinals 0 to n-1. */
  ghost predicate Aligned(parts: map<PartKey, Part>, id: SessionId, rows: seq<Row>, n: nat) {
    && n <= |rows| && RowsOf(parts, id, rows)
    && forall o | 0 <= o < n :: PartKey(id, o) in parts && rows[o].ordinal == o
  }

  /** What the first validation loop has established when it succeeds. */
  ghost predicate Validated(s: State, id: SessionId, m: seq<Entry>) {
    && id in s.sessions && Contiguous(s, id, Count(s.sessions[id]))
    && m == Manifest(s.parts, id, Count(s.sessions[id]))
    && (forall i :: 0 <= i < |m| ==> m[i].length <= s.sessions[id].chunkSize)
    && TotalLength(m) == s.sessions[id].expectedSize
  }

  lemma NoManifest(parts: map<PartKey, Part>, id: SessionId)
    ensures Manifest(parts, id, 0) == [] && TotalLength([]) == 0
  {
  }

  lemma AlignedStep(parts: map<PartKey, Part>, id: SessionId, rows: seq<Row>, i: nat)
    requires Aligned(parts, id, rows, i) && i < |rows| && rows[i].ordinal == i
    ensures Aligned(parts, id, rows, i + 1)
  {
  }

  /** A gap in the ordinals. */
  lemma GapFails(cfg: Config, s: State, id: SessionId, rows: seq<Row>, i: nat)
    requires id in s.sessions && Aligned(s.parts, id, rows, i) && i < |rows| && rows[i].ordinal != i
    ensures CheckUpload(cfg, s, id) == E_STATE
  {
    assert i > 0 ==> rows[i - 1].ordinal == i - 1 < rows[i].ordinal;
    assert PartKey(id, rows[i].ordinal) in s.parts;
    Absent(s.parts, id, rows, i);
  }

  lemma Absent(parts: map<PartKey, Part>, id: SessionId, rows: seq<Row>, o: nat)
    requires RowsOf(parts, id, rows) && forall j :: 0 <= j < |rows| ==> rows[j].ordinal != o
    ensures PartKey(id, o) !in parts
  {
  }

  lemma TooLong(cfg: Config, s: State, id: SessionId, rows: seq<Row>, i: nat)
    requires id in s.sessions && Aligned(s.parts, id, rows, i + 1)
    requires rows[i].part.length > s.sessions[id].chunkSize
    ensures CheckUpload(cfg, s, id) == E_STATE
  {
    var n := Count(s.sessions[id]);
    assert PartKey(id, i) in s.parts && rows[i].ordinal == i;
    if Contiguous(s, id, n) {
      ManifestRow(s.parts, id, n, i);
    }
  }

  /** One more entry, and the 64-bit total does not wrap. */
  lemma ManifestStep(cfg: Config, s: State, id: SessionId, rows: seq<Row>, i: nat)
    requires id in s.sessions && PartsOk(cfg, s) && Aligned(s.parts, id, rows, i + 1)
    ensures forall o | 0 <= o < i + 1 :: PartKey(id, o) in s.parts
    ensures var m := Manifest(s.parts, id, i);
            var e := Entry(i, TotalLength(m), rows[i].part.length, rows[i].part.digest);
            Manifest(s.parts, id, i + 1) == m + [e]
            && TotalLength(m + [e]) == TotalLength(m) + rows[i].part.length < TWO_64
  {
    assert rows[i].ordinal == i && s.parts[PartKey(id, i)] == rows[i].part;
    var m := Manifest(s.parts, id, i);
    var e := Entry(i, TotalLength(m), rows[i].part.length, rows[i].part.digest);
    assert Manifest(s.parts, id, i + 1) == m + [e];
    TotalSnoc(m, e);
    hide TotalLength, Manifest;
    TotalFits(cfg, s, id, i + 1);
  }

  lemma {:induction false} TotalUpTo(cfg: Config, s: State, id: SessionId, n: nat)
    requires id in s.sessions && PartsOk(cfg, s)
    requires forall o | 0 <= o < n :: PartKey(id, o) in s.parts
    ensures TotalLength(Manifest(s.parts, id, n)) <= n * s.sessions[id].chunkSize
  {
    if n != 0 {
      TotalUpTo(cfg, s, id, n - 1);
      var m := Manifest(s.parts, id, n - 1);
      var p := s.parts[PartKey(id, n - 1)];
      assert PartOk(cfg, s.sessions[id], n - 1, p);
      TotalSnoc(m, Entry(n - 1, TotalLength(m), p.length, p.digest));
      OffsetStep(n, s.sessions[id].chunkSize);
    }
  }

  lemma CountFits(x: Session)
    ensures Count(x) * x.chunkSize < TWO_64
  {
    if x.expectedSize != 0 {
      var sum := (x.expectedSize + x.chunkSize - 1) % TWO_64;
      assert (sum / x.chunkSize) * x.chunkSize <= sum;
    }
  }

  lemma TotalFits(cfg: Config, s: State, id: SessionId, n: nat)
    requires id in s.sessions && PartsOk(cfg, s)
    requires forall o | 0 <= o < n :: PartKey(id, o) in s.parts
    ensures TotalLength(Manifest(s.parts, id, n)) < TWO_64
  {
    var x := s.sessions[id];
    TotalUpTo(cfg, s, id, n);
    CountFits(x);
    if n != 0 {
      assert PartOk(cfg, x, n - 1, s.parts[PartKey(id, n - 1)]);
      Monotone(n, Count(x), x.chunkSize);
    }
    hide TotalLength, Manifest, Count;
  }

  lemma CountFails(cfg: Config, s: State, id: SessionId, rows: seq<Row>)
    requires id in s.sessions && Aligned(s.parts, id, rows, |rows|) && |rows| != Count(s.sessions[id])
    ensures CheckUpload(cfg, s, id) == E_STATE
  {
    var n := Count(s.sessions[id]);
    if |rows| < n {
      Absent(s.parts, id, rows, |rows|);
    } else {
      assert PartKey(id, rows[n].ordinal) in s.parts && rows[n].ordinal == n;
    }
  }

  lemma AllAligned(s: State, id: SessionId, rows: seq<Row>)
    requires Aligned(s.parts, id, rows, |rows|)
    ensures Contiguous(s, id, |rows|)
  {
    forall k | k in s.parts && k.session == id ensures k.ordinal < |rows| {
      assert PartKey(id, k.ordinal) in s.parts;
      var j :| 0 <= j < |rows| && rows[j].ordinal == k.ordinal;
      assert rows[j].ordinal == j;
    }
  }

  lemma LengthFails(cfg: Config, s: State, id: SessionId)
    requires id in s.sessions && Contiguous(s, id, Count(s.sessions[id]))
    requires TotalLength(Manifest(s.parts, id, Count(s.sessions[id]))) != s.sessions[id].expectedSize
    ensures CheckUpload(cfg, s, id) == E_STATE
  {
    hide TotalLength, Manifest, Contiguous;
  }

  /** What is left of the verdict once the manifest is validated. */
  lemma ValidatedVerdict(cfg: Config, s: State, id: SessionId, m: seq<Entry>)
    requires Validated(s, id, m)
    ensures id in s.sessions && Contiguous(s, id, Count(s.sessions[id]))
            && m == Manifest(s.parts, id, Count(s.sessions[id]))
    ensures var x := s.sessions[id];
            CheckUpload(cfg, s, id) ==
            if exists i | 0 <= i < |m| :: m[i].digest !in s.files then E_NOTFOUND
            else if cfg.sha(Content(s.files, m)) != x.expectedDigest then E_CONFLICT
            else if x.ident in s.artifacts then E_EXISTS
            else OK
  {
    hide TotalLength, Manifest, Contiguous, Content;
  }

  lemma SafeParts(cfg: Config, s: State)
    requires Safe(cfg, s)
    ensures PartsOk(cfg, s)
  {
  }

  /** Chunks of validated parts are small enough for every file offset. */
  lemma SmallChunks(cfg: Config, s: State, id: SessionId, m: seq<Entry>)
    requires ValidConfig(cfg) && Safe(cfg, s) && Validated(s, id, m)
    ensures forall i :: 0 <= i < |m| && m[i].digest in s.files ==> |s.files[m[i].digest]| <= 8 * MIB
  {
    ManifestFacts(cfg, s, id, Count(s.sessions[id]));
    assert SizeOk(s.sessions[id].chunkSize);
    hide TotalLength, Manifest, Contiguous, Count;
    forall i | 0 <= i < |m| && m[i].digest in s.files ensures |s.files[m[i].digest]| <= 8 * MIB {
      assert EntryOk(cfg, s.sessions[id].chunkSize, m, i);
      FileSize(cfg, s, m[i].digest, m[i].length);
    }
  }

  lemma NoContent(files: map<Digest, Bytes>)
    ensures Content(files, []) == []
  {
  }

  lemma WholeFile(files: map<Digest, Bytes>, d: Digest)
    requires d in files && |files[d]| < U64_MAX
    ensures Slice(files[d], 0, U64_MAX) == files[d] == FileOf(files, d)
  {
  }

  lemma ReactivateNone(chunks: map<Digest, Chunk>)
    ensures ReactivateAll(chunks, []) == chunks
  {
  }

  lemma ReactivateStep(chunks: map<Digest, Chunk>, m: seq<Entry>, i: nat)
    requires i < |m|
    ensures var before := ReactivateAll(chunks, m[..i]);
            var d := m[i].digest;
            ReactivateAll(chunks, m[..i + 1]) ==
            if d in before && before[d].state == PENDING_DELETE
            then before[d := before[d].(state := ACTIVE, pendingAt := None)] else before
  {
    var before, after := ReactivateAll(chunks, m[..i]), ReactivateAll(chunks, m[..i + 1]);
    forall e | e in chunks && e != m[i].digest ensures after[e] == before[e] {
      assert forall j :: 0 <= j < i ==> m[..i + 1][j] == m[..i][j];
      assert m[..i + 1][i] == m[i];
    }
    assert m[..i + 1][i] == m[i];
    assert forall j :: 0 <= j < i ==> m[..i][j] == m[..i + 1][j];
  }

  lemma InSessions(s: State, id: SessionId, st: SessionState)
    requires HasState(s, id, OPEN)
    ensures HasState(WithState(s, id, st), id, st)
    ensures WithState(s, id, st).sessions[id] == s.sessions[id].(state := st)
  {
  }

  lemma SameArtifact(s: State, id: SessionId, now: int)
    requires id in s.sessions && Contiguous(s, id, Count(s.sessions[id]))
    ensures var t := WithState(s, id, COMMITTING);
            Contiguous(t, id, Count(t.sessions[id])) && NewArtifact(t, id, now) == NewArtifact(s, id, now)
  {
    var t := WithState(s, id, COMMITTING);
    assert Count(t.sessions[id]) == Count(s.sessions[id]);
    assert Contiguous(t, id, Count(s.sessions[id]));
  }

  lemma SafeExpire(cfg: Config, s: State, id: SessionId, now: int)
    requires ValidConfig(cfg) && Safe(cfg, s) && id in s.sessions
    ensures Safe(cfg, ExpireIfDue(s, id, now))
  {
    hide Safe, ValidConfig, Runs, After, ExpireIfDue, ExpirePlan;
    ExpireRuns(cfg, s, id, now);
    RunSafe(cfg, s, ExpirePlan(s, id, now), now);
  }

  lemma DeadIdsMeaning(s: State)
    ensures forall id :: id in DeadIds(s) <==> id in s.sessions && Dead(s.sessions[id].state)
  {
  }

  lemma SameCommitting(s: State, now: int)
    ensures CommittingSet(ExpireAllDue(s, now)) == CommittingSet(s)
  {
  }

  ghost function MarkedBy(s: State, ds: set<Digest>): set<Digest> {
    set d | d in ds && Markable(s, ds, d)
  }

  lemma MarkedStep(s: State, ds: set<Digest>, d: Digest, now: int)
    ensures |MarkedBy(s, ds + {d})| ==
            |MarkedBy(s, ds)| + if Markable(MarkAll(s, ds, now), {d}, d) then 1 else 0
  {
    SameRefs(s, MarkAll(s, ds, now));
    hide Referenced;
    if d !in ds && Markable(s, {d}, d) {
      assert MarkedBy(s, ds + {d}) == MarkedBy(s, ds) + {d};
    } else {
      assert MarkedBy(s, ds + {d}) == MarkedBy(s, ds);
    }
  }

  lemma MarkedIsNew(s: State, ident: Ident)
    requires ident in s.artifacts
    ensures MarkedBy(Unpublish(s, ident), ManifestDigests(s.artifacts[ident])) == NewlyMarked(s, ident)
  {
    hide Markable;
  }

  lemma ManifestElems(a: Artifact, digests: seq<Digest>)
    requires |digests| == |a.manifest|
    requires forall i :: 0 <= i < |digests| ==> digests[i] == a.manifest[i].digest
    ensures Elems(digests) == ManifestDigests(a)
  {
    forall d | d in Elems(digests) ensures d in ManifestDigests(a) {
      var i :| 0 <= i < |digests| && digests[i] == d;
      assert a.manifest[i].digest == d;
    }
    forall d | d in ManifestDigests(a) ensures d in Elems(digests) {
      var i :| 0 <= i < |a.manifest| && a.manifest[i].digest == d;
      assert digests[i] == d;
    }
  }

  lemma GcSafe(cfg: Config, s: State, dryRun: bool, now: int)
    requires ValidConfig(cfg) && Safe(cfg, s)
    ensures Safe(cfg, Store.CollectGarbage(cfg, s, now, dryRun).0)
  {
    hide Safe, ValidConfig, Store.CollectGarbage;
    OpSafe(cfg, s, GcOp(dryRun), now);
  }

  /** Safety of the state every operation ends in. */
  lemma OpSafe(cfg: Config, s: State, op: Op, now: int)
    requires ValidConfig(cfg) && Safe(cfg, s) && Admissible(cfg, s, op)
    ensures Safe(cfg, OpState(cfg, s, op, now))
  {
    hide Safe, ValidConfig, Runs, After, OpState, Plan, Admissible;
    PlanRuns(cfg, s, op, now);
    RunSafe(cfg, s, Plan(cfg, s, op, now), now);
  }
}
