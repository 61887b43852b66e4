/** The SHOW_ARTIFACT exchange a download begins with: the server reads the artifact's
    row and its chunk rows, encodes them into one frame, and ignores whether the frame
    encoder accepted it; the client reads the reply. */
module ShowArtifact {
  import opened Bytes
  import opened ByteOrder
  import opened Buffer
  import opened Streams
  import opened Wire
  import opened Messages
  import opened Store
  import opened Safety
  import opened StorageLayer
  import opened Dispatch
  import F = Frame
  import M = ManifestCodec

  // ---- The record ----------------------------------------------------------------------

  /** Strings are bytes. */
  function ByteOf(c: char): Byte { c as int % 256 }

  function BytesOf(s: string): (b: Bytes)
    ensures |b| == |s|
  {
    seq(|s|, i requires 0 <= i < |s| => ByteOf(s[i]))
  }

  /** The value of a 64-bit clock. */
  function Clock64(t: int): I64 { (t + 0x8000_0000_0000_0000) % TWO_64 - 0x8000_0000_0000_0000 }

  function EntryOf(e: Entry): M.Entry {
    M.Entry(e.ordinal % 0x1_0000_0000, e.offset % TWO_64, e.length % TWO_64, BytesOf(e.digest))
  }

  function EntriesOf(m: seq<Entry>): (es: seq<M.Entry>)
    ensures |es| == |m| && forall i :: 0 <= i < |m| ==> es[i] == EntryOf(m[i])
  {
    seq(|m|, i requires 0 <= i < |m| => EntryOf(m[i]))
  }

  /** What show_artifact returns for an artifact; the note is never set. */
  function InfoOf(ident: Ident, a: Artifact): M.Info {
    M.Info(Ref(BytesOf(ident.ns), BytesOf(ident.name), BytesOf(ident.version)), a.size, BytesOf(a.digest),
           a.chunkSize % TWO_64, BytesOf(a.creator), Clock64(a.createdAt), [], EntriesOf(a.manifest))
  }

  /** Storage::show_artifact: the row, then its chunk rows in order. */
  method ReadInfo(storage: Storage, ident: Ident) returns (r: Result<M.Info>)
    ensures r == if ident in storage.artifacts then Ok(InfoOf(ident, storage.artifacts[ident])) else Err(E_NOTFOUND)
  {
    if ident !in storage.artifacts {
      return Err(E_NOTFOUND);
    }
    var a := storage.artifacts[ident];
    var chunks: seq<M.Entry> := [];
    for i := 0 to |a.manifest|
      invariant chunks == EntriesOf(a.manifest[..i])
    {
      chunks := chunks + [EntryOf(a.manifest[i])];
    }
    assert a.manifest[..|a.manifest|] == a.manifest;
    var ref := Ref(BytesOf(ident.ns), BytesOf(ident.name), BytesOf(ident.version));
    return Ok(M.Info(ref, a.size, BytesOf(a.digest), a.chunkSize % TWO_64, BytesOf(a.creator), Clock64(a.createdAt),
                     [], chunks));
  }

  // ---- The reply -------------------------------------------------------------------------

  predicate FitsReply(x: M.Info) { M.HeadLength(x) + |x.chunks| * M.ENTRY_SIZE <= F.MAX_PAYLOAD }

  /** What the client is told: an error of the server, nothing at all when the reply
      does not fit a frame, or the record. */
  function Told(artifacts: map<Ident, Artifact>, ident: Ident): Result<M.Info> {
    if ident !in artifacts then Err(E_NOTFOUND)
    else
      var x := InfoOf(ident, artifacts[ident]);
      if !M.FieldsOk(x) then Err(E_ARG) else if !FitsReply(x) then Err(E_IO) else Ok(x)
  }

  function OkReply(reqId: U32, x: M.Info): F.Frame
    requires M.FieldsOk(x)
  {
    F.Frame(F.MSG_OK, 0, reqId, M.InfoBytes(x))
  }

  /** The bytes of the reply to the client. */
  ghost predicate Reply(artifacts: map<Ident, Artifact>, ident: Ident, reqId: U32, wire: Bytes) {
    match Told(artifacts, ident)
    case Ok(x) => M.FieldsOk(x) && F.Encodable(OkReply(reqId, x)) && wire == F.Encoding(OkReply(reqId, x))
    case Err(code) =>
      if code == E_IO then wire == []
      else F.Encodable(ErrorFrame(reqId, code)) && wire == F.Encoding(ErrorFrame(reqId, code))
  }

  /** A manifest has at most 2^44 entries. */
  lemma FewEntries(cfg: Config, s: State, ident: Ident)
    requires Safe(cfg, s) && ident in s.artifacts
    ensures |s.artifacts[ident].manifest| <= 0x1000_0000_0000
  {
    var a := s.artifacts[ident];
    assert ArtifactOk(cfg, s.files, a);
    hide ManifestOk, TotalLength, Content, LiveOk, PartsOk, RowsOk, FilesOk;
    if a.size != 0 {
      var sum := (a.size + a.chunkSize - 1) % TWO_64;
      Quotient(sum, a.chunkSize);
    }
  }

  lemma Quotient(n: nat, c: nat)
    requires n < TWO_64 && c >= MIB
    ensures n / c <= 0x1000_0000_0000
  {
    var k := n / c;
    assert k * c <= n;
    assert k * c == k * MIB + k * (c - MIB) && k * (c - MIB) >= 0;
  }

  lemma ErrorEncodable(reqId: U32, code: Status)
    requires reqId != 0
    ensures F.Encodable(ErrorFrame(reqId, code))
  {
    assert |Be32(StatusWord(code))| == 4 && |Be16(0)| == 2;
    hide Be32, Be16, StatusWord;
  }

  /** handle for SHOW_ARTIFACT, and the socket. */
  method ServeShow(storage: Storage, ident: Ident, reqId: U32) returns (wire: Bytes)
    requires storage.Valid() && reqId != 0
    ensures Reply(storage.artifacts, ident, reqId, wire)
  {
    ErrorEncodable(reqId, E_NOTFOUND);
    ErrorEncodable(reqId, E_ARG);
    if ident in storage.artifacts {
      FewEntries(storage.cfg, storage.View(), ident);
      InfoEntries(ident, storage.artifacts[ident]);
    }
    hide Storage.Valid, InfoOf, M.FieldsOk, M.InfoBytes, M.HeadLength, F.Encoding, F.Encodable, ErrorFrame, IsCapacity,
         F.MsgTypeValid;
    var info := ReadInfo(storage, ident);
    if info.Err? {
      wire := SendFrame(ErrorFrame(reqId, info.code));
      return;
    }
    wire := SendInfo(info.value, reqId);
  }

  lemma InfoEntries(ident: Ident, a: Artifact)
    ensures |InfoOf(ident, a).chunks| == |a.manifest|
  {
  }

  /** A frame into an empty buffer. */
  method SendFrame(f: F.Frame) returns (wire: Bytes)
    ensures F.EncodeStatus(f) == OK <==> F.Encodable(f)
    ensures wire == if F.Encodable(f) then F.Encoding(f) else []
  {
    hide F.Encoding, IsCapacity, F.MsgTypeValid;
    var out := new FrBuf();
    var _ := F.Encode(out, f);
    return out.data[..out.len];
  }

  /** The record's payload. */
  method EncodePayload(x: M.Info) returns (st: Status, payload: Bytes)
    requires |x.chunks| <= 0x1000_0000_0000
    ensures st == if M.FieldsOk(x) then OK else E_ARG
    ensures st == OK ==> payload == M.InfoBytes(x)
  {
    hide M.FieldsOk, M.InfoBytes, IsCapacity;
    var out := new FrBuf();
    st := M.EncodeInfo(out, x);
    payload := out.data[..out.len];
  }

  lemma ReplyEncodable(x: M.Info, reqId: U32)
    requires M.FieldsOk(x) && reqId != 0
    ensures F.EncodeStatus(OkReply(reqId, x)) == OK <==> FitsReply(x)
    ensures OkReply(reqId, x) == F.Frame(F.MSG_OK, 0, reqId, M.InfoBytes(x))
  {
    M.ShownIff(x, reqId);
    hide M.FieldsOk, M.InfoBytes, M.HeadLength;
  }

  /** And make_ok, which ignores the encoder's verdict. */
  method SendInfo(x: M.Info, reqId: U32) returns (wire: Bytes)
    requires reqId != 0 && |x.chunks| <= 0x1000_0000_0000
    ensures !M.FieldsOk(x) ==> F.Encodable(ErrorFrame(reqId, E_ARG)) && wire == F.Encoding(ErrorFrame(reqId, E_ARG))
    ensures M.FieldsOk(x) && !FitsReply(x) ==> wire == []
    ensures M.FieldsOk(x) && FitsReply(x) ==> F.Encodable(OkReply(reqId, x)) && wire == F.Encoding(OkReply(reqId, x))
  {
    hide *;
    ErrorEncodable(reqId, E_ARG);
    if M.FieldsOk(x) { ReplyEncodable(x, reqId); }
    var st, payload := EncodePayload(x);
    if st != OK {
      wire := SendFrame(ErrorFrame(reqId, st));
      return;
    }
    wire := SendFrame(F.Frame(F.MSG_OK, 0, reqId, payload));
  }

  // ---- The client -------------------------------------------------------------------------

  /** The cast of the received number back to a status. */
  function StatusOf(word: U32): Status {
    if word == StatusWord(E_ARG) then E_ARG
    else if word == StatusWord(E_RANGE) then E_RANGE
    else if word == StatusWord(E_OVERFLOW) then E_OVERFLOW
    else if word == StatusWord(E_NOMEM) then E_NOMEM
    else if word == StatusWord(E_IO) then E_IO
    else if word == StatusWord(E_EOF) then E_EOF
    else if word == StatusWord(E_PROTOCOL) then E_PROTOCOL
    else if word == StatusWord(E_STATE) then E_STATE
    else if word == StatusWord(E_NOTFOUND) then E_NOTFOUND
    else if word == StatusWord(E_EXISTS) then E_EXISTS
    else if word == StatusWord(E_LIMIT) then E_LIMIT
    else if word == StatusWord(E_BUSY) then E_BUSY
    else if word == StatusWord(E_CONFLICT) then E_CONFLICT
    else if word == StatusWord(E_EXPIRED) then E_EXPIRED
    else E_INTERNAL
  }

  lemma StatusBack(c: Status)
    requires c != OK
    ensures StatusOf(StatusWord(c)) == c
  {
  }

  /** decode_error_payload: the code, and a message that is read and dropped here. */
  method DecodeError(payload: Bytes, ghost reqId: U32, ghost c: Status) returns (code: Status)
    requires payload == ErrorFrame(reqId, c).payload && c != OK
    ensures code == c
  {
    ErrorReads(payload, reqId, c);
    StatusBack(c);
    hide DecNumber, Dec, ErrorFrame, StatusOf, StatusWord;
    var src := new Reader(payload);
    assert Unread(src) == payload;
    var word := GetNumber(src, 4);
    if word.Err? {
      return E_PROTOCOL;
    }
    var text := GetStr(src);
    if text.Err? {
      return E_PROTOCOL;
    }
    return StatusOf(word.value);
  }

  lemma ErrorReads(payload: Bytes, reqId: U32, c: Status)
    requires payload == ErrorFrame(reqId, c).payload
    ensures DecNumber(4, payload) == Got(Num(StatusWord(c)), Be16(0)) && Dec(Text, Be16(0)) == Got(Raw([]), [])
  {
    hide StatusWord, DecNumber, Dec;
    SmallWidths();
    NumberBack(StatusWord(c), 4, Be16(0));
    NoText();
  }

  lemma NoText()
    ensures Dec(Text, Be16(0)) == Got(Raw([]), [])
  {
    SmallWidths();
    PrefixedBack(2, MAX_STRING_LEN, [], []);
    assert Be(0, 2) + [] + [] == Be16(0);
  }

  /** request for SHOW_ARTIFACT, from the first byte received. */
  method ReceiveShow(recvs: seq<Bytes>, ghost artifacts: map<Ident, Artifact>, ghost ident: Ident, ghost reqId: U32)
    returns (r: Result<M.Info>)
    requires Reply(artifacts, ident, reqId, Flatten(recvs))
    ensures r == Told(artifacts, ident)
  {
    ReplyFrames(artifacts, ident, reqId, Flatten(recvs));
    hide *;
    var reader := new FrameReader();
    var frames, code := ClientRun(reader, recvs);
    if frames == [] {
      return Err(code);
    }
    r := ReadReply(frames[0], artifacts, ident, reqId);
  }

  /** The one frame of the reply. */
  ghost predicate ReplyFrame(artifacts: map<Ident, Artifact>, ident: Ident, reqId: U32, f: F.Frame) {
    match Told(artifacts, ident)
    case Ok(x) => M.FieldsOk(x) && FitsReply(x) && f == OkReply(reqId, x)
    case Err(code) => code != OK && f == ErrorFrame(reqId, code)
  }

  lemma ReplyFrames(artifacts: map<Ident, Artifact>, ident: Ident, reqId: U32, wire: Bytes)
    requires Reply(artifacts, ident, reqId, wire)
    ensures |wire| <= 0x8000_0000_0000_0000
    ensures var r := F.ParseStream(wire);
            && !r.tail.Broken?
            && if r.frames == [] then Told(artifacts, ident) == Err(E_IO)
               else ReplyFrame(artifacts, ident, reqId, r.frames[0])
  {
    hide F.Encoding, F.Encodable, F.ParseStream, OkReply, ErrorFrame, InfoOf, M.FieldsOk, M.HeadLength;
    var told := Told(artifacts, ident);
    if told.Ok? {
      F.OneFrame(OkReply(reqId, told.value));
      SmallFrame(OkReply(reqId, told.value));
    } else if told.code == E_IO {
      F.ParseEncodeAll([]);
      NoFrames();
    } else {
      F.OneFrame(ErrorFrame(reqId, told.code));
      SmallFrame(ErrorFrame(reqId, told.code));
    }
  }

  lemma NoFrames()
    ensures F.EncodeAll([]) == []
  {
  }

  lemma SmallFrame(f: F.Frame)
    requires F.Encodable(f)
    ensures |F.Encoding(f)| <= 0x8000_0000_0000_0000
  {
  }

  method ReadReply(f: F.Frame, ghost artifacts: map<Ident, Artifact>, ghost ident: Ident, ghost reqId: U32)
    returns (r: Result<M.Info>)
    requires ReplyFrame(artifacts, ident, reqId, f)
    ensures r == Told(artifacts, ident)
  {
    hide InfoOf, M.FieldsOk, M.HeadLength, M.InfoBytes, StatusWord;
    if f.msgType == F.MSG_ERROR {
      var code := DecodeError(f.payload, reqId, Told(artifacts, ident).code);
      return Err(code);
    }
    if f.msgType != F.MSG_OK && f.msgType != F.MSG_DATA {
      return Err(E_PROTOCOL);
    }
    r := ReadInfoReply(f.payload, Told(artifacts, ident).value);
  }

  method ReadInfoReply(payload: Bytes, ghost x: M.Info) returns (r: Result<M.Info>)
    requires M.FieldsOk(x) && FitsReply(x) && payload == M.InfoBytes(x)
    ensures r == Ok(x)
  {
    InfoBack(x);
    hide Dec, M.InfoValue, M.FieldsOk, M.InfoBytes, FitsReply, ShapeOf;
    var src := new Reader(payload);
    assert Unread(src) == payload;
    r := M.DecodeInfo(src);
    SameInfo(r.value, x);
  }

  lemma SameInfo(x: M.Info, y: M.Info)
    requires M.InfoValue(x) == M.InfoValue(y)
    ensures x == y
  {
    assert |x.chunks| == |M.EntryValues(x.chunks)| == |M.EntryValues(y.chunks)| == |y.chunks|;
    forall i | 0 <= i < |x.chunks| ensures x.chunks[i] == y.chunks[i] {
      assert M.EntryValue(x.chunks[i]) == M.EntryValues(x.chunks)[i] == M.EntryValues(y.chunks)[i];
    }
  }

  /** What the server encodes the client decodes. */
  lemma InfoBack(x: M.Info)
    requires M.FieldsOk(x) && FitsReply(x)
    ensures Dec(ShapeOf(ShowArtifactOk), M.InfoBytes(x)) == Got(M.InfoValue(x), [])
  {
    FewChunks(x);
    M.InfoParts(x);
    InfoWithin(x);
    EveryMessage(ShowArtifactOk);
    hide *;
    RoundTrip(ShapeOf(ShowArtifactOk), M.InfoValue(x), []);
    assert M.InfoBytes(x) + [] == M.InfoBytes(x);
  }

  lemma FewChunks(x: M.Info)
    requires FitsReply(x)
    ensures |x.chunks| <= 99863
  {
  }

  lemma {:induction false} EntriesWithin(es: seq<M.Entry>)
    requires AllAcceptable(ENTRY, M.EntryValues(es))
    ensures AllWithin(ENTRY, M.EntryValues(es))
  {
    if es != [] {
      assert M.EntryValues(es)[1..] == M.EntryValues(es[1..]);
      EntriesWithin(es[1..]);
    }
  }

  lemma ThenWithin(a: Shape, b: Shape, v: Value, w: Value)
    requires Acceptable(a, v) && Acceptable(b, w) && Within(a, v) && Within(b, w)
    ensures Acceptable(Then(a, b), Both(v, w)) && Within(Then(a, b), Both(v, w))
  {
  }

  lemma LeavesWithin(x: M.Info)
    requires M.FieldsOk(x) && |x.chunks| <= 99863
    ensures Acceptable(REF, RefValue(x.ref)) && Within(REF, RefValue(x.ref))
    ensures Acceptable(Digest, Raw(x.digest)) && Within(Digest, Raw(x.digest))
    ensures Acceptable(Text, Raw(x.creator)) && Within(Text, Raw(x.creator))
    ensures Acceptable(Text, Raw(x.note)) && Within(Text, Raw(x.note))
    ensures Acceptable(U64_FIELD, Num(x.size)) && Within(U64_FIELD, Num(x.size))
    ensures Acceptable(U64_FIELD, Num(x.chunkSize)) && Within(U64_FIELD, Num(x.chunkSize))
    ensures Acceptable(I64_FIELD, Num(x.createdAt)) && Within(I64_FIELD, Num(x.createdAt))
  {
    Widths();
    hide M.EntryValues, AllAcceptable;
  }

  lemma ManifestWithin(es: seq<M.Entry>)
    requires AllAcceptable(ENTRY, M.EntryValues(es)) && |es| <= 99863
    ensures Acceptable(M.MANIFEST, Items(M.EntryValues(es))) && Within(M.MANIFEST, Items(M.EntryValues(es)))
  {
    EntriesWithin(es);
    hide M.EntryValue, AllWithin, AllAcceptable;
  }

  lemma FieldEntries(x: M.Info)
    requires M.FieldsOk(x)
    ensures AllAcceptable(ENTRY, M.EntryValues(x.chunks))
  {
    hide AllAcceptable, Acceptable;
  }

  lemma InfoWithin(x: M.Info)
    requires M.FieldsOk(x) && |x.chunks| <= 99863
    ensures Acceptable(ShapeOf(ShowArtifactOk), M.InfoValue(x)) && Within(ShapeOf(ShowArtifactOk), M.InfoValue(x))
  {
    FieldEntries(x);
    LeavesWithin(x);
    ManifestWithin(x.chunks);
    var m := Items(M.EntryValues(x.chunks));
    hide Acceptable, Within, M.FieldsOk, M.EntryValues, RefValue;
    ThenWithin(Text, M.MANIFEST, Raw(x.note), m);
    ThenWithin(I64_FIELD, Then(Text, M.MANIFEST), Num(x.createdAt), Both(Raw(x.note), m));
    ThenWithin(Text, Then(I64_FIELD, Then(Text, M.MANIFEST)), Raw(x.creator),
               Both(Num(x.createdAt), Both(Raw(x.note), m)));
    ThenWithin(U64_FIELD, Then(Text, Then(I64_FIELD, Then(Text, M.MANIFEST))), Num(x.chunkSize),
               Both(Raw(x.creator), Both(Num(x.createdAt), Both(Raw(x.note), m))));
    ThenWithin(Digest, SHOW_TAIL, Raw(x.digest), M.TailValue(x));
    ThenWithin(U64_FIELD, Then(Digest, SHOW_TAIL), Num(x.size), Both(Raw(x.digest), M.TailValue(x)));
    ThenWithin(REF, Then(U64_FIELD, Then(Digest, SHOW_TAIL)), RefValue(x.ref),
               Both(Num(x.size), Both(Raw(x.digest), M.TailValue(x))));
  }

  /** Main result: however the reply is cut, the client has the record exactly when the
      server has the artifact, its fields can be encoded, and the reply fits a frame;
      where it does not fit, nothing is ever received. */
  method Show(storage: Storage, ident: Ident, reqId: U32, cuts: seq<nat>) returns (r: Result<M.Info>)
    requires storage.Valid() && reqId != 0
    ensures r == Told(storage.artifacts, ident)
  {
    hide *;
    var wire := ServeShow(storage, ident, reqId);
    r := ReceiveShow(CutUp(wire, cuts), storage.artifacts, ident, reqId);
  }
}
