/** frctl publishing a file and fetching it back, over the wire and against the
    classes themselves: their contracts compose to the identity on files. */
module EndToEnd {
  import opened Bytes
  import opened Store
  import opened Safety
  import opened Operations
  import opened RangeRead
  import opened Upload
  import opened StorageLayer
  import opened Dispatch
  import opened Download
  import opened ChunkTransfer
  import opened Buffer
  import opened Streams
  import opened ShowArtifact
  import ChunkFiles
  import Frame
  import M = ManifestCodec
  import QueueDownload
  import ServerQueue
  import Wire

  /** The session just created is open for the file and holds nothing yet. */
  lemma Opened(cfg: Config, s: State, now: int, id: SessionId, ident: Ident, file: Bytes, owner: string)
    requires ValidConfig(cfg) && Safe(cfg, s) && id !in s.sessions && |file| + cfg.chunkSize <= TWO_64
    requires forall o: nat :: cfg.corpus(Piece(file, cfg.chunkSize, o))
    requires CreateSession(cfg, s, now, id, ident, |file|, cfg.sha(file), owner, true).1.Ok?
    ensures var (t, r) := CreateSession(cfg, s, now, id, ident, |file|, cfg.sha(file), owner, true);
            && Uploading(cfg, t, id, r.value, file) && t.artifacts == s.artifacts
            && now < r.value.expiresAt && r.value.ident == ident && r.value.chunkSize == cfg.chunkSize
            && r.value.owner == owner
  {
    hide CollisionFree, UsedBytes, OpenOf, Watermark, Piece, LiveOk, ArtifactsOk, RowsOk, FilesOk, Count;
    assert forall k :: k in s.parts ==> k.session in s.sessions;
    assert forall o: nat :: PartKey(id, o).session == id;
  }

  /** The first n ordinals are there. */
  ghost predicate HasUpTo(s: State, id: SessionId, n: nat) {
    forall i: nat :: i < n ==> PartKey(id, i) in s.parts
  }

  lemma HasAll(s: State, id: SessionId, x: Session)
    ensures HasUpTo(s, id, 0)
    ensures HasUpTo(s, id, Count(x)) ==> Upload.Complete(s, id, x)
  {
  }

  lemma HasNext(s: State, t: State, id: SessionId, o: nat)
    requires PartKey(id, o) in t.parts
    requires forall i: nat :: PartKey(id, i) in s.parts ==> PartKey(id, i) in t.parts
    ensures HasUpTo(s, id, o) ==> HasUpTo(t, id, o + 1)
  {
  }

  /** Every piece of a file of this size goes over the wire in one frame: the first
      is the largest. */
  predicate Sendable(id: SessionId, size: nat, chunkSize: nat) {
    size == 0 || FitsFrame(id, Min(size, chunkSize))
  }

  /** With the largest chunk size a server may be configured with and the 24
      characters of a token, no file of a full chunk can be uploaded. */
  lemma LargestChunkUnsendable(id: SessionId, size: nat)
    requires |id| == 24
    ensures Sendable(id, size, 8 * MIB) <==> size <= 8 * MIB - 34
  {
  }

  lemma PieceFits(id: SessionId, file: Bytes, chunkSize: ChunkSize, o: nat)
    requires |file| + chunkSize <= TWO_64 && o < ChunkCount(|file|, chunkSize)
    ensures |Piece(file, chunkSize, o)| <= chunkSize
    ensures Sendable(id, |file|, chunkSize) ==> FitsFrame(id, |Piece(file, chunkSize, o)|)
    ensures o == 0 && FitsFrame(id, |Piece(file, chunkSize, 0)|) ==> Sendable(id, |file|, chunkSize)
  {
    Pieces(file, chunkSize, o);
    hide ChunkCount;
  }

  lemma NothingToSend(id: SessionId, file: Bytes, chunkSize: ChunkSize)
    requires |file| + chunkSize <= TWO_64
    ensures ChunkCount(|file|, chunkSize) == 0 ==> Sendable(id, |file|, chunkSize)
  {
    if |file| > 0 {
      CountIsCeiling(|file|, chunkSize);
    }
  }

  lemma Declared(cfg: Config, s: State, id: SessionId, x: Session, file: Bytes)
    requires Uploading(cfg, s, id, x, file)
    ensures |file| + x.chunkSize <= TWO_64 && Count(x) == ChunkCount(|file|, x.chunkSize)
  {
    CountDef(x);
  }

  /** One put_chunk of the right piece, through the network. */
  method SendOne(storage: Storage, id: SessionId, ghost x: Session, ghost file: Bytes, o: nat, data: Bytes,
                 cuts: seq<nat>, tmp: string, now: int)
    returns (sent: bool)
    requires storage.Valid() && Uploading(storage.cfg, storage.View(), id, x, file) && now < x.expiresAt
    requires o < Count(x) && data == Piece(file, x.chunkSize, o) && storage.cfg.corpus(data) && IsToken(id)
    requires ChunkFiles.IsTemp(tmp) && tmp !in storage.store.temps
    modifies storage, storage.store
    ensures storage.Valid() && Uploading(storage.cfg, storage.View(), id, x, file)
    ensures storage.artifacts == old(storage.artifacts) && storage.store.temps == old(storage.store.temps)
    ensures sent <==> FitsFrame(id, |data|)
    ensures sent && HasUpTo(old(storage.View()), id, o) ==> HasUpTo(storage.View(), id, o + 1)
  {
    ghost var cfg := storage.cfg;
    ghost var s := storage.View();
    Declared(cfg, s, id, x, file);
    PieceFits(id, file, x.chunkSize, o);
    OwnPut(cfg, s, now, id, x, file, o);
    PutKeepsArtifacts(cfg, s, now, id, o, data);
    hide Uploading, PutChunk, Piece, Storage.Valid, ChunkFiles.IsTemp, Count, ChunkCount, HasUpTo, FitsFrame;
    var r := PutOverWire(storage, id, o, data, 1, cuts, tmp, now);
    sent := r.Ok?;
    if sent {
      HasNext(s, storage.View(), id, o);
    }
  }

  /** The loop of frctl: after it the upload is complete, unless a piece is too long
      for a frame, which the first one then is. */
  method SendAll(storage: Storage, id: SessionId, ghost x: Session, file: Bytes, cuts: nat -> seq<nat>, tmp: string,
                 clock: nat -> int)
    returns (sent: bool)
    requires storage.Valid() && Uploading(storage.cfg, storage.View(), id, x, file)
    requires x.chunkSize == storage.cfg.chunkSize && IsToken(id)
    requires forall i: nat :: clock(i) < x.expiresAt
    requires ChunkFiles.IsTemp(tmp) && tmp !in storage.store.temps
    requires forall o: nat :: storage.cfg.corpus(Piece(file, storage.cfg.chunkSize, o))
    modifies storage, storage.store
    ensures storage.Valid() && Uploading(storage.cfg, storage.View(), id, x, file)
    ensures storage.artifacts == old(storage.artifacts)
    ensures sent <==> Sendable(id, |file|, x.chunkSize)
    ensures sent ==> Upload.Complete(storage.View(), id, x)
  {
    hide *;
    Declared(storage.cfg, storage.View(), id, x, file);
    var sends := CutFile(file, storage.cfg.chunkSize);
    HasAll(storage.View(), id, x);
    for o := 0 to |sends|
      invariant storage.Valid() && Uploading(storage.cfg, storage.View(), id, x, file)
      invariant storage.artifacts == old(storage.artifacts) && storage.store.temps == old(storage.store.temps)
      invariant HasUpTo(storage.View(), id, o)
      invariant o > 0 ==> Sendable(id, |file|, x.chunkSize)
    {
      PieceFits(id, file, x.chunkSize, o);
      var ok := SendOne(storage, id, x, file, o, sends[o], cuts(o), tmp, clock(o + 1));
      if !ok {
        return false;
      }
    }
    HasAll(storage.View(), id, x);
    NothingToSend(id, file, x.chunkSize);
    return true;
  }

  /** The commit of a complete upload. */
  method CommitSent(storage: Storage, id: SessionId, ghost x: Session, ident: Ident, ghost file: Bytes, room: nat,
                    now: int)
    returns (r: Result<Artifact>)
    requires storage.Valid() && Uploading(storage.cfg, storage.View(), id, x, file) && now < x.expiresAt
    requires Upload.Complete(storage.View(), id, x) && x.ident == ident && ident !in storage.artifacts
    modifies storage
    ensures storage.Valid()
    ensures r.Ok? <==> ChunkCount(|file|, x.chunkSize) <= room
    ensures r.Err? ==> r.code == E_INTERNAL
    ensures r.Ok? ==>
              && ident in storage.artifacts && storage.artifacts[ident] == r.value
              && r.value.size == |file| && r.value.digest == storage.cfg.sha(file)
              && r.value.creator == x.owner && |r.value.manifest| == ChunkCount(|file|, x.chunkSize)
              && Content(storage.View().files, r.value.manifest) == file
  {
    Declared(storage.cfg, storage.View(), id, x, file);
    CompleteCommits(storage.cfg, storage.View(), id, x, file, now, room);
    hide CommitSession, Content, FileManifest, Uploading, Upload.Complete, Safe, ValidConfig, Count, ChunkCount;
    r := storage.CommitSession(id, room, now);
  }

  /** Why frctl's upload fails, or OK. */
  ghost function Refusal(cfg: Config, s: State, now: int, id: SessionId, ident: Ident, file: Bytes, owner: string,
                         room: nat): Status
    requires |file| < TWO_64
  {
    if CreateSession(cfg, s, now, id, ident, |file|, cfg.sha(file), owner, true).1.Err? then E_LIMIT
    else if !Sendable(id, |file|, cfg.chunkSize) then E_RANGE
    else if ChunkCount(|file|, cfg.chunkSize) > room then E_INTERNAL
    else OK
  }

  lemma OnlyQuota(cfg: Config, s: State, now: int, id: SessionId, ident: Ident, file: Bytes, owner: string)
    requires owner != "" && |file| < TWO_64
    ensures var r := CreateSession(cfg, s, now, id, ident, |file|, cfg.sha(file), owner, true).1;
            r.Err? ==> r.code == E_LIMIT
  {
    hide UsedBytes, OpenOf, Watermark;
  }

  lemma ValidSafe(storage: Storage)
    requires storage.Valid()
    ensures ValidConfig(storage.cfg) && Safe(storage.cfg, storage.View())
  {
  }

  /** cmd_upload: create a session, put every piece, commit, each call at its own
      clock and every put cut up by the network in its own way. It is refused by the
      quota, by a piece that is too long for a frame, or by the allocation of the
      manifest, exactly then; otherwise the published content is the file. */
  method Publish(storage: Storage, id: SessionId, ident: Ident, file: Bytes, owner: string, tmp: string, room: nat,
                 cuts: nat -> seq<nat>, clock: nat -> int)
    returns (r: Result<Artifact>)
    requires storage.Valid() && id !in storage.sessions && ident !in storage.artifacts && IsToken(id)
    requires owner != "" && |file| + storage.cfg.chunkSize <= TWO_64
    requires ChunkFiles.IsTemp(tmp) && tmp !in storage.store.temps
    requires forall o: nat :: storage.cfg.corpus(Piece(file, storage.cfg.chunkSize, o))
    requires forall i: nat :: clock(i) < clock(0) + storage.cfg.sessionHours * 3600
    modifies storage, storage.store
    ensures storage.Valid()
    ensures r.Ok? <==> Refusal(storage.cfg, old(storage.View()), clock(0), id, ident, file, owner, room) == OK
    ensures r.Err? ==> r.code == Refusal(storage.cfg, old(storage.View()), clock(0), id, ident, file, owner, room)
    ensures r.Ok? ==>
              && ident in storage.artifacts && storage.artifacts[ident] == r.value
              && r.value.size == |file| && r.value.digest == storage.cfg.sha(file)
              && r.value.creator == owner && |r.value.manifest| == ChunkCount(|file|, storage.cfg.chunkSize)
              && Content(storage.View().files, r.value.manifest) == file
  {
    ghost var cfg := storage.cfg;
    ghost var s := storage.View();
    OnlyQuota(cfg, s, clock(0), id, ident, file, owner);
    hide Storage.Valid;
    var digest := storage.cfg.sha(file);
    var created := storage.CreateSession(id, ident, |file|, digest, owner, true, clock(0));
    if created.Err? {
      return Err(created.code);
    }
    ghost var x := created.value;
    assert Safe(cfg, s) by { ValidSafe(storage); }
    Opened(cfg, s, clock(0), id, ident, file, owner);
    hide *;
    var sent := SendAll(storage, id, x, file, cuts, tmp, clock);
    if !sent {
      return Err(E_RANGE);
    }
    r := CommitSent(storage, id, x, ident, file, room, clock(ChunkCount(|file|, storage.cfg.chunkSize) + 1));
  }

  /** A readable range, and events that are not about this download. */
  ghost predicate Fetchable(storage: Storage, q: Request, between: seq<seq<Event>>)
    reads storage, storage.store
  {
    && storage.Valid() && q.reqId != 0
    && q.ident in storage.artifacts && q.offset <= storage.artifacts[q.ident].size
    && |Flatten(between)| < U64_MAX
    && forall e :: e in Flatten(between) ==> Foreign(storage.cfg, e, q, Key(q.conn, 0))
  }

  lemma ServedContent(dispatcher: Dispatcher, ident: Ident)
    requires dispatcher.Valid() && ident in dispatcher.storage.artifacts
    ensures dispatcher.storage.Valid()
    ensures dispatcher.ContentOf(ident) ==
            Content(dispatcher.storage.View().files, dispatcher.storage.artifacts[ident].manifest)
  {
  }

  /** The server's part of a download. */
  method Serve(storage: Storage, q: Request, between: seq<seq<Event>>)
    returns (out: seq<Frame.Frame>, ghost content: Bytes, ghost pieces: seq<Bytes>,
             ghost slices: seq<seq<Frame.Frame>>)
    requires Fetchable(storage, q, between)
    modifies storage, storage.store
    ensures storage.Valid() && storage.StillThere(q.ident)
    ensures content == Content(storage.View().files, storage.artifacts[q.ident].manifest)
    ensures Answered(content, q, pieces, out) && slices != [] && Flatten(slices) == out
  {
    content := Content(storage.View().files, storage.artifacts[q.ident].manifest);
    hide Answered, Content, Storage.Valid, Storage.View, Foreign, Key, Flatten, Bystander, Kept, Dispatcher.Valid,
         Dispatcher.ContentOf;
    var dispatcher := new Dispatcher(storage);
    ServedContent(dispatcher, q.ident);
    out, pieces, slices := dispatcher.ServeGet(q, between);
    ServedContent(dispatcher, q.ident);
  }

  /** A download of any range of a published artifact, through the dispatcher's slices
      and the client's loop, with other events between the slices. */
  method Fetch(storage: Storage, q: Request, between: seq<seq<Event>>) returns (sunk: Bytes, end: Ending)
    requires Fetchable(storage, q, between)
    modifies storage, storage.store
    ensures storage.Valid() && storage.StillThere(q.ident)
    ensures var content := Content(storage.View().files, storage.artifacts[q.ident].manifest);
            && q.offset <= |content|
            && sunk == Slice(content, q.offset, q.length) && end == Finished(|sunk|)
  {
    var out, content, pieces, _ := Serve(storage, q, between);
    hide *;
    AnsweredOutcome(content, q, pieces, out);
    sunk, end := RunDownload(out);
  }

  const WIRE_LIMIT: nat := 0x400_0000_0000_0000

  lemma SizeOfContent(storage: Storage, ident: Ident)
    requires storage.Valid() && ident in storage.artifacts
    ensures |Content(storage.View().files, storage.artifacts[ident].manifest)| == storage.artifacts[ident].size
  {
    SafeReadable(storage.cfg, storage.View(), ident);
    ContentSize(storage.View().files, storage.artifacts[ident]);
  }

  lemma SmallOnWire(content: Bytes, q: Request, pieces: seq<Bytes>, out: seq<Frame.Frame>)
    requires Answered(content, q, pieces, out) && q.reqId != 0
    requires Min(q.length, |content| - q.offset) <= WIRE_LIMIT
    ensures forall f :: f in out ==> Frame.Encodable(f)
    ensures |Frame.EncodeAll(out)| + Frame.HEADER_SIZE + Frame.MAX_PAYLOAD <= 0x8000_0000_0000_0000
  {
    hide Answered, Frame.EncodeAll, Frame.Encodable;
    RepliesEncodable(content, q, pieces, out);
    WireLength(content, q, pieces, out);
  }

  lemma EncodesNext(frames: seq<Frame.Frame>, i: nat)
    requires i < |frames| && forall f :: f in frames ==> Frame.Encodable(f)
    ensures Frame.EncodeStatus(frames[i]) == OK
    ensures Frame.EncodeAll(frames[i..]) == Frame.Encoding(frames[i]) + Frame.EncodeAll(frames[i + 1..])
  {
    assert frames[i..][1..] == frames[i + 1..];
    assert Frame.Encodable(frames[i]);
    hide Frame.Encoding;
  }

  /** Every reply through fr_frame_encode. */
  method EncodeReplies(frames: seq<Frame.Frame>) returns (wire: Bytes)
    requires forall f :: f in frames ==> Frame.Encodable(f)
    requires |Frame.EncodeAll(frames)| + Frame.HEADER_SIZE + Frame.MAX_PAYLOAD <= 0x8000_0000_0000_0000
    ensures wire == Frame.EncodeAll(frames)
  {
    hide Frame.Encoding, Frame.Encodable, IsCapacity;
    var out := new FrBuf();
    assert frames[0..] == frames;
    for i := 0 to |frames|
      invariant out.Valid() && fresh(out) && fresh(out.data)
      invariant out.Contents() + Frame.EncodeAll(frames[i..]) == Frame.EncodeAll(frames)
    {
      EncodesNext(frames, i);
      Assoc(out.Contents(), Frame.Encoding(frames[i]), Frame.EncodeAll(frames[i + 1..]));
      var _ := Frame.Encode(out, frames[i]);
    }
    assert frames[|frames|..] == [];
    return out.data[..out.len];
  }

  /** The client's part: read frames until the connection ends, and sink them. */
  method Receive(ghost out: seq<Frame.Frame>, recvs: seq<Bytes>) returns (sunk: Bytes, end: Ending)
    requires forall f :: f in out ==> Frame.Encodable(f)
    requires Flatten(recvs) == Frame.EncodeAll(out) && |Flatten(recvs)| <= 0x8000_0000_0000_0000
    ensures (sunk, end) == Outcome(out, 0)
  {
    hide *;
    Frame.ParseEncodeAll(out);
    var reader := new FrameReader();
    var frames, _ := ClientRun(reader, recvs);
    sunk, end := RunDownload(frames);
  }

  /** The same all the way: the server encodes its replies into a buffer, the network
      cuts the bytes anywhere, and the client reads frames from what it receives. The
      bound keeps the client's receive buffer below 2^63 bytes. */
  method FetchOverWire(storage: Storage, q: Request, between: seq<seq<Event>>, cuts: seq<nat>)
    returns (sunk: Bytes, end: Ending)
    requires Fetchable(storage, q, between)
    requires Min(q.length, storage.artifacts[q.ident].size - q.offset) <= WIRE_LIMIT
    modifies storage, storage.store
    ensures storage.Valid() && storage.StillThere(q.ident)
    ensures var content := Content(storage.View().files, storage.artifacts[q.ident].manifest);
            && q.offset <= |content|
            && sunk == Slice(content, q.offset, q.length) && end == Finished(|sunk|)
  {
    SizeOfContent(storage, q.ident);
    var out, content, pieces, _ := Serve(storage, q, between);
    SmallOnWire(content, q, pieces, out);
    hide *;
    var wire := EncodeReplies(out);
    AnsweredOutcome(content, q, pieces, out);
    sunk, end := Receive(out, CutUp(wire, cuts));
  }

  /** And through the server's threads: `out` reaches the client whole and in order on
      every run with one worker that carries it call by call. */
  method FetchThroughServer(storage: Storage, q: Request, between: seq<seq<Event>>)
    returns (out: seq<Frame.Frame>, ghost slices: seq<seq<Frame.Frame>>)
    requires Fetchable(storage, q, between)
    modifies storage, storage.store
    ensures storage.Valid() && storage.StillThere(q.ident)
    ensures Flatten(slices) == out && QueueDownload.AllEncodable(slices)
    ensures var content := Content(storage.View().files, storage.artifacts[q.ident].manifest);
            && q.offset <= |content|
            && var range := Slice(content, q.offset, q.length);
               forall s, sent, rest, c, r :: QueueDownload.Carried(slices, s, sent, rest, c, r) ==>
                 Outcome(Frame.ParseStream(ServerQueue.BytesOf(QueueDownload.Received(s, sent, rest, c, r))).frames, 0)
                 == (range, Finished(|range|))
  {
    ghost var content: Bytes, pieces: seq<Bytes>;
    out, content, pieces, slices := Serve(storage, q, between);
    hide *;
    AnsweredOutcome(content, q, pieces, out);
    RepliesEncodable(content, q, pieces, out);
    QueueDownload.SlicesEncodable(slices);
    ghost var range := Slice(content, q.offset, q.length);
    forall s, sent, rest, c, r | QueueDownload.Carried(slices, s, sent, rest, c, r)
      ensures Outcome(Frame.ParseStream(ServerQueue.BytesOf(QueueDownload.Received(s, sent, rest, c, r))).frames, 0)
              == (range, Finished(|range|))
    {
      QueueDownload.WholeDownload(content, q, pieces, slices, s, sent, rest, c, r);
    }
  }

  /** The file cmd_download leaves. */
  function Written(content: Bytes, part: Bytes, resume: bool): Bytes {
    if resume && |part| < |content| then part + content[|part|..] else content
  }

  /** An unrelated byte in the partial file stays: the file has the right length and
      the wrong content. */
  lemma StalePartKept()
    ensures var content: Bytes := [1, 2];
            Written(content, [9], true) == [9, 2] && |Written(content, [9], true)| == |content|
            && Written(content, [9], true) != content
  {
  }

  lemma PartThenRest(content: Bytes, part: Bytes, offset: nat)
    requires offset <= |content| && (offset == 0 || offset == |part|)
    ensures Slice(content, offset, |content| - offset) == content[offset..]
    ensures var file := (if offset != 0 then part else []) + Slice(content, offset, |content| - offset);
            file == content <==> offset == 0 || part <= content
  {
    assert Slice(content, offset, |content| - offset) == content[offset..];
    Cut(content, offset);
    if offset != 0 {
      var file := part + content[offset..];
      assert file[..offset] == part;
      if part <= content {
        assert content[..offset] == part;
      }
    }
  }

  /** SHA-256 is printed as 64 characters. */
  ghost predicate HexDigests(cfg: Config) { forall b :: |cfg.sha(b)| == Wire.DIGEST_HEX_LEN }

  /** The names that go into a SHOW_ARTIFACT reply are no longer than a text may be. */
  predicate Named(ident: Ident, owner: string) {
    && |ident.ns| <= Wire.MAX_STRING_LEN && |ident.name| <= Wire.MAX_STRING_LEN
    && |ident.version| <= Wire.MAX_STRING_LEN && |owner| <= Wire.MAX_STRING_LEN
  }

  /** The length of the reply for an artifact of n chunks. */
  function ShowLength(ident: Ident, owner: string, n: nat): nat {
    |ident.ns| + |ident.name| + |ident.version| + |owner| + 102 + n * 84
  }

  /** Why frctl's download ends before it begins, or OK. */
  function Unshown(ident: Ident, owner: string, n: nat): Status {
    if !Named(ident, owner) then E_ARG
    else if ShowLength(ident, owner, n) > Frame.MAX_PAYLOAD then E_IO
    else OK
  }

  lemma EntriesSpelled(cfg: Config, chunkSize: nat, m: seq<Entry>)
    requires HexDigests(cfg) && ManifestOk(cfg, chunkSize, m)
    ensures Wire.AllAcceptable(Wire.ENTRY, M.EntryValues(EntriesOf(m)))
  {
    forall i | 0 <= i < |m| ensures Wire.Acceptable(Wire.ENTRY, M.EntryValue(EntryOf(m[i]))) {
      assert EntryOk(cfg, chunkSize, m, i);
      var c :| cfg.corpus(c) && cfg.sha(c) == m[i].digest && |c| == m[i].length;
      M.EntryParts(EntryOf(m[i]));
    }
    hide M.EntryValue, Wire.Acceptable, EntryOf;
    Wire.AllOf(Wire.ENTRY, M.EntryValues(EntriesOf(m)));
  }

  lemma FieldsNamed(ident: Ident, a: Artifact)
    requires |a.digest| == Wire.DIGEST_HEX_LEN
    requires Wire.AllAcceptable(Wire.ENTRY, M.EntryValues(EntriesOf(a.manifest)))
    ensures M.FieldsOk(InfoOf(ident, a)) <==> Named(ident, a.creator)
  {
    hide Wire.AllAcceptable, M.EntryValues, EntriesOf;
  }

  lemma ReplyLength(ident: Ident, a: Artifact)
    ensures FitsReply(InfoOf(ident, a)) <==> ShowLength(ident, a.creator, |a.manifest|) <= Frame.MAX_PAYLOAD
  {
  }

  lemma Spelled(cfg: Config, s: State, ident: Ident)
    requires HexDigests(cfg) && Safe(cfg, s) && ident in s.artifacts
    ensures var a := s.artifacts[ident];
            |a.digest| == Wire.DIGEST_HEX_LEN && Wire.AllAcceptable(Wire.ENTRY, M.EntryValues(EntriesOf(a.manifest)))
  {
    var a := s.artifacts[ident];
    assert ArtifactOk(cfg, s.files, a);
    hide Safe, ManifestOk, Wire.AllAcceptable, M.EntryValues, EntriesOf, TotalLength, ChunkCount;
    EntriesSpelled(cfg, a.chunkSize, a.manifest);
  }

  /** In a safe store what the client is told depends on names and chunk count only. */
  lemma ToldIff(cfg: Config, s: State, ident: Ident)
    requires HexDigests(cfg) && Safe(cfg, s) && ident in s.artifacts
    ensures var a := s.artifacts[ident];
            var code := Unshown(ident, a.creator, |a.manifest|);
            Told(s.artifacts, ident) == if code == OK then Ok(InfoOf(ident, a)) else Err(code)
  {
    Spelled(cfg, s, ident);
    FieldsNamed(ident, s.artifacts[ident]);
    ReplyLength(ident, s.artifacts[ident]);
    hide Safe, HexDigests, Wire.AllAcceptable, M.EntryValues, EntriesOf, InfoOf, M.FieldsOk, FitsReply, ShowLength,
         Named;
  }

  /** From 99864 chunks on no artifact can be downloaded by frctl. */
  lemma LargestUnshown(ident: Ident, owner: string, size: U64, chunkSize: ChunkSize)
    requires size > 99863 * chunkSize && size + chunkSize <= TWO_64
    ensures ChunkCount(size, chunkSize) >= 99864
    ensures Unshown(ident, owner, ChunkCount(size, chunkSize)) ==
            if |ident.ns| <= 512 && |ident.name| <= 512 && |ident.version| <= 512 && |owner| <= 512 then E_IO else E_ARG
  {
    CountIsCeiling(size, chunkSize);
    var n := ChunkCount(size, chunkSize);
    if n <= 99863 {
      Monotone(n, 99863, chunkSize);
    }
  }

  /** cmd_download once the size is known: continue behind a partial file of an
      earlier run when resuming, otherwise start over. */
  method Continue(storage: Storage, ident: Ident, size: U64, part: Bytes, resume: bool, between: seq<seq<Event>>)
    returns (file: Bytes)
    requires Fetchable(storage, Request(0, 1, ident, 0, 0), between) && size == storage.artifacts[ident].size
    modifies storage, storage.store
    ensures storage.Valid() && storage.StillThere(ident)
    ensures var content := Content(storage.View().files, storage.artifacts[ident].manifest);
            && file == Written(content, part, resume)
            && (file == content <==> !resume || |part| >= |content| || part <= content)
  {
    SizeOfContent(storage, ident);
    hide Content, Storage.Valid, Storage.View, Key, Flatten;
    var offset: U64 := 0;
    if resume {
      var have := |part|;
      if have < size {
        offset := have;
      }
    }
    var local := if offset != 0 then part else [];
    var sunk, end := Fetch(storage, Request(0, 1, ident, offset, size - offset), between);
    PartThenRest(Content(storage.View().files, storage.artifacts[ident].manifest), part, offset);
    file := local + sunk;
  }

  /** cmd_download: ask for the record, then fetch. There is a file exactly when the
      artifact exists and its record can be shown. Nothing compares the digest of the
      finished file, so it is the artifact exactly when what it continued was a prefix
      of it. */
  method DownloadFile(storage: Storage, ident: Ident, part: Bytes, resume: bool, cuts: seq<nat>,
                      between: seq<seq<Event>>)
    returns (r: Result<Bytes>)
    requires storage.Valid() && HexDigests(storage.cfg) && |Flatten(between)| < U64_MAX
    requires forall e :: e in Flatten(between) ==> Foreign(storage.cfg, e, Request(0, 1, ident, 0, 0), Key(0, 0))
    modifies storage, storage.store
    ensures storage.Valid()
    ensures ident !in old(storage.artifacts) ==> r == Err(E_NOTFOUND)
    ensures ident in old(storage.artifacts) ==>
              var a := old(storage.artifacts)[ident];
              var code := Unshown(ident, a.creator, |a.manifest|);
              && storage.StillThere(ident)
              && (r.Ok? <==> code == OK) && (r.Err? ==> r.code == code)
    ensures r.Ok? ==>
              && ident in storage.artifacts
              && var content := Content(storage.View().files, storage.artifacts[ident].manifest);
                 && r.value == Written(content, part, resume)
                 && (r.value == content <==> !resume || |part| >= |content| || part <= content)
  {
    ValidSafe(storage);
    if ident in storage.artifacts {
      ToldIff(storage.cfg, storage.View(), ident);
      InfoSize(ident, storage.artifacts[ident]);
    }
    hide Content, Storage.Valid, Storage.View, Unshown, Key, Safe, HexDigests, Flatten, Foreign, InfoOf, M.FieldsOk,
         FitsReply, Written;
    var info := Show(storage, ident, 1, cuts);
    if info.Err? {
      return Err(info.code);
    }
    var file := Continue(storage, ident, info.value.size, part, resume, between);
    return Ok(file);
  }

  lemma InfoSize(ident: Ident, a: Artifact)
    ensures InfoOf(ident, a).size == a.size
  {
  }

  /** Main result: what was published comes back, unless its upload is refused or it
      has too many chunks to be shown, whatever else happens between the slices. */
  method PublishAndFetch(storage: Storage, id: SessionId, ident: Ident, file: Bytes, owner: string, tmp: string,
                         room: nat, cuts: nat -> seq<nat>, clock: nat -> int, between: seq<seq<Event>>)
    returns (r: Result<Bytes>)
    requires storage.Valid() && id !in storage.sessions && ident !in storage.artifacts && IsToken(id)
    requires owner != "" && |file| + storage.cfg.chunkSize <= TWO_64 && HexDigests(storage.cfg)
    requires ChunkFiles.IsTemp(tmp) && tmp !in storage.store.temps
    requires forall o: nat :: storage.cfg.corpus(Piece(file, storage.cfg.chunkSize, o))
    requires forall i: nat :: clock(i) < clock(0) + storage.cfg.sessionHours * 3600
    requires |Flatten(between)| < U64_MAX
    requires forall e :: e in Flatten(between) ==> Foreign(storage.cfg, e, Request(0, 1, ident, 0, 0), Key(0, 0))
    modifies storage, storage.store
    ensures storage.Valid()
    ensures var refusal := Refusal(storage.cfg, old(storage.View()), clock(0), id, ident, file, owner, room);
            var unshown := Unshown(ident, owner, ChunkCount(|file|, storage.cfg.chunkSize));
            r == if refusal != OK then Err(refusal) else if unshown != OK then Err(unshown) else Ok(file)
  {
    hide Storage.Valid, Storage.View, Content, Piece, Refusal, Foreign, Flatten, Key, ChunkFiles.IsTemp, IsToken,
         Unshown, ChunkCount, HexDigests;
    var published := Publish(storage, id, ident, file, owner, tmp, room, cuts, clock);
    if published.Err? {
      return Err(published.code);
    }
    r := DownloadFile(storage, ident, [], false, cuts(0), between);
  }
}
