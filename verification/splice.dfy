/** A concrete run in which a download joins two contents: its artifact is deleted and
    published anew between its two slices. The client is told of success, and what it
    has sunk is neither file. */
module Splice {
  import opened Bytes
  import opened Frame
  import opened Store
  import opened Safety
  import opened Operations
  import opened Exactness
  import opened Upload
  import opened StorageLayer
  import opened Dispatch
  import opened Download
  import ChunkFiles

  /** One byte more than a slice. */
  const SIZE: nat := DATA_SLICE_BYTES + 1

  function Filled(b: Byte): Bytes { seq(SIZE, _ => b) }

  const OLD: Bytes := Filled(0)
  const NEW: Bytes := Filled(1)

  const NAME := Ident("n", "a", "1")
  const GET := Request(0, 1, NAME, 0, SIZE)

  function Claimed(cfg: Config, file: Bytes): Session {
    NewSession(cfg, 0, NAME, SIZE, cfg.sha(file), "o")
  }

  function Claim(cfg: Config, id: SessionId, file: Bytes): Op
  {
    CreateOp(id, NAME, SIZE, cfg.sha(file), "o", true)
  }

  /** Two uploads for the same name are under way. */
  function Two(cfg: Config): State {
    EMPTY.(sessions := map["u" := Claimed(cfg, OLD), "v" := Claimed(cfg, NEW)])
  }

  /** A configuration with room for them. */
  ghost predicate Roomy(cfg: Config) {
    && ValidConfig(cfg) && SIZE <= cfg.chunkSize && cfg.maxSessions >= 2 && Watermark(cfg) > 0
    && cfg.corpus(OLD) && cfg.corpus(NEW)
  }

  lemma CreatesOne(cfg: Config, s: State, id: SessionId, file: Bytes)
    requires s.chunks == map[] && |OpenOf(s, "o")| < cfg.maxSessions && Watermark(cfg) > 0
    ensures OpState(cfg, s, Claim(cfg, id, file), 0) == s.(sessions := s.sessions[id := Claimed(cfg, file)])
  {
    NothingUsed(s);
    hide Watermark, OpenOf, UsedBytes;
  }

  lemma CreatesTwo(cfg: Config)
    requires Roomy(cfg)
    ensures var s1 := OpState(cfg, EMPTY, Claim(cfg, "u", OLD), 0);
            "v" !in s1.sessions && OpState(cfg, s1, Claim(cfg, "v", NEW), 0) == Two(cfg)
  {
    var s1 := EMPTY.(sessions := map["u" := Claimed(cfg, OLD)]);
    assert OpenOf(EMPTY, "o") == {};
    assert OpenOf(s1, "o") == {"u"};
    CreatesOne(cfg, EMPTY, "u", OLD);
    CreatesOne(cfg, s1, "v", NEW);
    hide OpState, Watermark, OpenOf, Claimed;
  }

  lemma OneChunk(cfg: Config, file: Bytes)
    requires |file| == SIZE <= cfg.chunkSize && MIB <= cfg.chunkSize <= 8 * MIB
    ensures ChunkCount(SIZE, cfg.chunkSize) == 1 && Piece(file, cfg.chunkSize, 0) == file
  {
    CountIsCeiling(SIZE, cfg.chunkSize);
    Multiples(ChunkCount(SIZE, cfg.chunkSize) - 1, cfg.chunkSize);
  }

  lemma BothUploading(cfg: Config)
    requires Roomy(cfg)
    ensures Uploading(cfg, Two(cfg), "u", Claimed(cfg, OLD), OLD)
    ensures Uploading(cfg, Two(cfg), "v", Claimed(cfg, NEW), NEW)
    ensures Count(Claimed(cfg, OLD)) == 1 == Count(Claimed(cfg, NEW))
    ensures 0 < Claimed(cfg, OLD).expiresAt && 0 < Claimed(cfg, NEW).expiresAt
  {
    OneChunk(cfg, OLD);
    OneChunk(cfg, NEW);
    CountDef(Claimed(cfg, OLD));
    CountDef(Claimed(cfg, NEW));
    hide ChunkCount, Piece, CollisionFree, Watermark, Filled;
  }

  /** Both files are put, the first is committed; after its first slice it is deleted
      and the second committed. */
  function PutBoth(): seq<Call> { [Call(PutOp("u", 0, OLD), 0), Call(PutOp("v", 0, NEW), 0)] }

  function Switch(): seq<Call> { [Call(CommitOp("u", 1), 0), Call(DeleteOp(NAME), 0)] }

  /** The store is after the two puts. */
  ghost function Loaded(cfg: Config): State {
    OpState(cfg, OpState(cfg, Two(cfg), PutOp("u", 0, OLD), 0), PutOp("v", 0, NEW), 0)
  }

  ghost function Switched(cfg: Config): State {
    OpState(cfg, OpState(cfg, Loaded(cfg), CommitOp("u", 1), 0), DeleteOp(NAME), 0)
  }

  lemma TwoSafe(cfg: Config)
    requires Roomy(cfg)
    ensures Safe(cfg, Two(cfg))
  {
    CreatesTwo(cfg);
    SafeInitially(cfg);
    var s1 := OpState(cfg, EMPTY, Claim(cfg, "u", OLD), 0);
    OpSafe(cfg, EMPTY, Claim(cfg, "u", OLD), 0);
    OpSafe(cfg, s1, Claim(cfg, "v", NEW), 0);
    hide Safe, OpState, Two;
  }

  lemma LoadedIs(cfg: Config)
    requires Roomy(cfg)
    ensures CallsOk(cfg, Two(cfg), PutBoth()) && AfterCalls(cfg, Two(cfg), PutBoth()) == Loaded(cfg)
    ensures PutSomewhere(PutBoth(), "u", 0) && PutSomewhere(PutBoth(), "v", 0)
  {
    hide OpState, Two, Watermark, CollisionFree;
    TwoCalls(cfg, Two(cfg), PutBoth()[0], PutBoth()[1]);
    assert PutBoth()[0].op.id == "u" && PutBoth()[1].op.id == "v";
  }

  lemma SwitchedIs(cfg: Config)
    requires Roomy(cfg)
    ensures CallsOk(cfg, Two(cfg), PutBoth() + Switch())
    ensures AfterCalls(cfg, Two(cfg), PutBoth() + Switch()) == Switched(cfg)
    ensures PutSomewhere(PutBoth() + Switch(), "v", 0)
  {
    LoadedIs(cfg);
    SwitchOk(cfg, Loaded(cfg));
    hide OpState, Two, Loaded, Watermark, Roomy, CallsOk, AfterCalls;
    CallsConcat(cfg, Two(cfg), PutBoth(), Switch());
    assert (PutBoth() + Switch())[1] == PutBoth()[1];
    assert PutBoth()[1].op.id == "v";
  }

  lemma SwitchOk(cfg: Config, s: State)
    ensures CallsOk(cfg, s, Switch())
    ensures AfterCalls(cfg, s, Switch()) ==
            OpState(cfg, OpState(cfg, s, CommitOp("u", 1), 0), DeleteOp(NAME), 0)
  {
    hide OpState;
    TwoCalls(cfg, s, Switch()[0], Switch()[1]);
  }

  lemma BenignHere(cfg: Config)
    requires Roomy(cfg)
    ensures forall i :: 0 <= i < |PutBoth()| ==> Benign(Claimed(cfg, OLD), "u", OLD, PutBoth()[i].op)
    ensures forall i :: 0 <= i < |PutBoth()| ==> Benign(Claimed(cfg, NEW), "v", NEW, PutBoth()[i].op)
    ensures forall i :: 0 <= i < |Switch()| ==> Benign(Claimed(cfg, NEW), "v", NEW, Switch()[i].op)
    ensures forall i :: 0 <= i < |PutBoth()| ==> PutBoth()[i].now == 0
    ensures forall i :: 0 <= i < |Switch()| ==> Switch()[i].now == 0
  {
    OneChunk(cfg, OLD);
    OneChunk(cfg, NEW);
    BothUploading(cfg);
    hide Piece, Count, Filled, Watermark, CollisionFree, ChunkCount;
  }

  /** The name is free before each commit. */
  lemma NameFree(cfg: Config)
    requires Roomy(cfg)
    ensures NAME !in Loaded(cfg).artifacts && NAME !in Switched(cfg).artifacts
  {
    PutKeepsArtifacts(cfg, Two(cfg), 0, "u", 0, OLD);
    PutKeepsArtifacts(cfg, OpState(cfg, Two(cfg), PutOp("u", 0, OLD), 0), 0, "v", 0, NEW);
    assert Two(cfg).artifacts == map[];
    hide PutChunk, CommitSession, MarkAll, Two;
    DeletedGone(OpState(cfg, Loaded(cfg), CommitOp("u", 1), 0));
  }

  lemma DeletedGone(s: State)
    ensures NAME !in DeleteArtifact(s, 0, NAME).0.artifacts
  {
    hide Markable, NewlyMarked;
  }

  /** What the two commits publish. */
  lemma BothPublish(cfg: Config)
    requires Roomy(cfg)
    ensures var (t, r) := CommitSession(cfg, Loaded(cfg), 0, "u", 1);
            r.Ok? && Publishes(cfg, t, Claimed(cfg, OLD), r.value, OLD)
    ensures var (t, r) := CommitSession(cfg, Switched(cfg), 0, "v", 1);
            r.Ok? && Publishes(cfg, t, Claimed(cfg, NEW), r.value, NEW)
  {
    RoomyValid(cfg);
    TwoSafe(cfg);
    BothUploading(cfg);
    BenignHere(cfg);
    LoadedIs(cfg);
    SwitchedIs(cfg);
    NameFree(cfg);
    ClaimedName(cfg);
    hide *;
    UploadRoundTrip(cfg, Two(cfg), PutBoth(), "u", Claimed(cfg, OLD), OLD, 0, 1);
    var calls := PutBoth() + Switch();
    forall i | 0 <= i < |calls|
      ensures calls[i].now == 0 && Benign(Claimed(cfg, NEW), "v", NEW, calls[i].op)
    {
      assert calls[i] == if i < |PutBoth()| then PutBoth()[i] else Switch()[i - |PutBoth()|];
    }
    UploadRoundTrip(cfg, Two(cfg), calls, "v", Claimed(cfg, NEW), NEW, 0, 1);
  }

  lemma RoomyValid(cfg: Config)
    requires Roomy(cfg)
    ensures ValidConfig(cfg) && cfg.corpus(OLD) && cfg.corpus(NEW)
  {
    hide CollisionFree, Watermark;
  }

  lemma ClaimedName(cfg: Config)
    ensures Claimed(cfg, OLD).ident == NAME == Claimed(cfg, NEW).ident
  {
  }

  /** What the download delivers: the old slice and the new byte. */
  function Mixed(): Bytes { Patched(OLD, NEW, DATA_SLICE_BYTES) }

  lemma NeitherFile()
    ensures |Mixed()| == SIZE && Mixed() != OLD && Mixed() != NEW
  {
    assert Mixed()[0] == 0 && Mixed()[SIZE - 1] == 1;
  }

  lemma SmoothTemp()
    ensures ChunkFiles.IsTemp("frtmp-1") && !ChunkFiles.Crashing(ChunkFiles.SMOOTH)
  {
  }

  lemma NothingToMaintain()
    ensures RunMaintenance(EMPTY, 0).0 == EMPTY
  {
    assert Settled(EMPTY, 0) == EMPTY && DropDeadParts(EMPTY) == EMPTY;
    MarkAllNone(EMPTY, 0);
    assert DeadDigests(EMPTY) == {};
  }

  lemma EmptyView(disk: ChunkFiles.ChunkStore)
    requires disk.chunks == map[]
    ensures disk.View() == map[]
  {
  }

  lemma ClaimsAdmissible(cfg: Config)
    requires Roomy(cfg)
    ensures Admissible(cfg, EMPTY, Claim(cfg, "u", OLD))
    ensures var s1 := OpState(cfg, EMPTY, Claim(cfg, "u", OLD), 0);
            Admissible(cfg, s1, Claim(cfg, "v", NEW))
    ensures forall s: State :: Admissible(cfg, s, PutOp("u", 0, OLD)) && Admissible(cfg, s, PutOp("v", 0, NEW))
  {
    CreatesTwo(cfg);
    hide OpState, Watermark, CollisionFree;
  }

  /** One call, the file system in order. */
  method Do(storage: Storage, op: Op)
    requires storage.Valid() && Admissible(storage.cfg, storage.View(), op) && storage.store.temps == map[]
    modifies storage, storage.store
    ensures storage.Valid() && storage.View() == OpState(storage.cfg, old(storage.View()), op, 0)
    ensures storage.store.temps == map[]
  {
    SmoothTemp();
    hide Storage.Valid, Storage.View, OpState, ChunkFiles.IsTemp;
    var did := storage.Perform(op, "frtmp-1", ChunkFiles.SMOOTH, 0);
  }

  /** A fresh server. */
  method Fresh(cfg: Config) returns (storage: Storage)
    requires ValidConfig(cfg)
    ensures fresh(storage) && fresh(storage.store) && storage.Valid() && storage.cfg == cfg
    ensures storage.View() == EMPTY && storage.store.temps == map[]
  {
    SafeInitially(cfg);
    NothingToMaintain();
    hide Safe, ValidConfig, RunMaintenance, ChunkFiles.FileValid, ChunkFiles.ChunkFile, ChunkFiles.IsTemp;
    var disk := new ChunkFiles.ChunkStore(cfg.sha);
    EmptyView(disk);
    storage := new Storage(cfg, disk, map[], map[], map[], map[], 0);
  }

  /** The two uploads are created and put. */
  method Load(cfg: Config) returns (storage: Storage)
    requires Roomy(cfg)
    ensures fresh(storage) && fresh(storage.store) && storage.Valid() && storage.cfg == cfg
    ensures storage.View() == Loaded(cfg) && storage.store.temps == map[]
  {
    RoomyValid(cfg);
    CreatesTwo(cfg);
    ClaimsAdmissible(cfg);
    LoadedDef(cfg);
    hide *;
    storage := Fresh(cfg);
    Do(storage, Claim(cfg, "u", OLD));
    Do(storage, Claim(cfg, "v", NEW));
    Do(storage, PutOp("u", 0, OLD));
    Do(storage, PutOp("v", 0, NEW));
  }

  lemma LoadedDef(cfg: Config)
    ensures Loaded(cfg) == OpState(cfg, OpState(cfg, Two(cfg), PutOp("u", 0, OLD), 0), PutOp("v", 0, NEW), 0)
    ensures Switched(cfg) == OpState(cfg, OpState(cfg, Loaded(cfg), CommitOp("u", 1), 0), DeleteOp(NAME), 0)
  {
  }

  lemma SwitchAdmissible(cfg: Config, s: State)
    ensures Admissible(cfg, s, CommitOp("u", 1)) && Admissible(cfg, s, CommitOp("v", 1))
    ensures Admissible(cfg, s, DeleteOp(NAME))
  {
  }

  ghost predicate Holds(storage: Storage, file: Bytes)
    reads storage, storage.store
  {
    && storage.Valid() && NAME in storage.artifacts && storage.artifacts[NAME].size == SIZE
    && Content(storage.View().files, storage.artifacts[NAME].manifest) == file
  }

  /** A commit that publishes the file of the name. */
  method Commit(storage: Storage, id: SessionId, ghost x: Session, ghost file: Bytes)
    requires storage.Valid() && storage.store.temps == map[] && x.ident == NAME && |file| == SIZE
    requires var (t, r) := CommitSession(storage.cfg, storage.View(), 0, id, 1);
             r.Ok? && Publishes(storage.cfg, t, x, r.value, file)
    modifies storage, storage.store
    ensures storage.Valid() && storage.store.temps == map[] && Holds(storage, file)
    ensures storage.View() == OpState(storage.cfg, old(storage.View()), CommitOp(id, 1), 0)
  {
    SwitchIsCommit(storage.cfg, storage.View(), id);
    hide CommitSession, OpState, Content, Storage.Valid, Admissible, FileManifest;
    Do(storage, CommitOp(id, 1));
  }

  lemma SwitchIsCommit(cfg: Config, s: State, id: SessionId)
    ensures Admissible(cfg, s, CommitOp(id, 1))
    ensures OpState(cfg, s, CommitOp(id, 1), 0) == CommitSession(cfg, s, 0, id, 1).0
  {
    hide CommitSession;
  }

  /** The download under way in a dispatcher, one slice of the old file sent. */
  ghost predicate Sliced(dispatcher: Dispatcher, key: string, pieces: seq<Bytes>, out: seq<Frame>)
    reads dispatcher
  {
    && dispatcher.getSeq == 1 && KeysOk(dispatcher.gets, 1) && StatesOk(dispatcher.gets)
    && key == Key(0, 0) && key in dispatcher.gets && dispatcher.gets[key].offset == DATA_SLICE_BYTES
    && Midway(OLD, GET, dispatcher.gets[key], pieces, out)
  }

  method First(dispatcher: Dispatcher) returns (r: HandleResult, ghost pieces: seq<Bytes>)
    requires dispatcher.Valid() && dispatcher.getSeq == 0 && Holds(dispatcher.storage, OLD)
    modifies dispatcher
    ensures Sliced(dispatcher, r.key, pieces, r.out)
  {
    hide Storage.Valid, Storage.View, Content, Key, KeysOk, StatesOk, Midway, Answered, Filled;
    assert |OLD| == SIZE by { FilledSize(); }
    r, pieces := dispatcher.HandleGet(GET);
    MidwayAt(dispatcher.gets[r.key], pieces, r.out);
  }

  lemma FilledSize()
    ensures |OLD| == SIZE == |NEW|
  {
  }

  lemma MidwayAt(st: GetState, pieces: seq<Bytes>, out: seq<Frame>)
    requires Midway(OLD, GET, st, pieces, out)
    ensures st.offset == st.sent
  {
    hide Spells, DataFrames, Filled;
  }

  method Second(dispatcher: Dispatcher, key: string, ghost pieces: seq<Bytes>, ghost sent: seq<Frame>)
    returns (out: seq<Frame>)
    requires Sliced(dispatcher, key, pieces, sent) && Holds(dispatcher.storage, NEW)
    modifies dispatcher, dispatcher.storage, dispatcher.storage.store
    ensures Outcome(sent + out, 0) == (Mixed(), Finished(SIZE))
  {
    FilledSize();
    hide Storage.Valid, Storage.View, Content, Key, KeysOk, StatesOk, Midway, Answered, Filled, Outcome, Patched;
    NoEvents();
    var rest, failed, next := dispatcher.ServeReplaced(GET, key, [], 0, OLD, pieces, sent);
    NeitherFile();
    AnsweredOutcome(Mixed(), GET, pieces + next, sent + rest);
    WholeSlice(Mixed(), SIZE);
    out := rest;
  }

  lemma NoEvents()
    ensures Flatten<Event>([]) == []
  {
  }

  /** The first upload is published. */
  method Opened(cfg: Config) returns (dispatcher: Dispatcher)
    requires Roomy(cfg)
    ensures fresh(dispatcher) && fresh(dispatcher.storage) && fresh(dispatcher.storage.store)
    ensures dispatcher.Valid() && dispatcher.getSeq == 0 && Holds(dispatcher.storage, OLD)
    ensures dispatcher.storage.Valid() && dispatcher.storage.cfg == cfg && dispatcher.storage.store.temps == map[]
    ensures dispatcher.storage.View() == OpState(cfg, Loaded(cfg), CommitOp("u", 1), 0)
  {
    BothPublish(cfg);
    ClaimedName(cfg);
    FilledSize();
    hide *;
    var storage := Load(cfg);
    Commit(storage, "u", Claimed(cfg, OLD), OLD);
    dispatcher := new Dispatcher(storage);
  }

  /** It is deleted, and the second one published. */
  method Replace(storage: Storage)
    requires Roomy(storage.cfg) && storage.Valid() && storage.store.temps == map[]
    requires storage.View() == OpState(storage.cfg, Loaded(storage.cfg), CommitOp("u", 1), 0)
    modifies storage, storage.store
    ensures Holds(storage, NEW)
  {
    BothPublish(storage.cfg);
    ClaimedName(storage.cfg);
    LoadedDef(storage.cfg);
    FilledSize();
    hide *;
    SwitchAdmissible(storage.cfg, storage.View());
    Do(storage, DeleteOp(NAME));
    Commit(storage, "v", Claimed(storage.cfg, NEW), NEW);
  }

  /** The run. The client sinks the first slice of the old file and the rest of the
      new one, and is told that all of it came: it has neither file. */
  method SplicedRun(cfg: Config) returns (out: seq<Frame>)
    requires Roomy(cfg)
    ensures Outcome(out, 0) == (Mixed(), Finished(SIZE))
    ensures Mixed() != OLD && Mixed() != NEW
  {
    NeitherFile();
    hide *;
    var dispatcher := Opened(cfg);
    var r, pieces := First(dispatcher);
    Replace(dispatcher.storage);
    var rest := Second(dispatcher, r.key, pieces, r.out);
    out := r.out + rest;
  }
}
