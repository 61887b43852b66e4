/** One PUT_CHUNK on its way: the client's payload encoder and frame encoder, a
    network that cuts the bytes anywhere, the server's read loop and payload decoder,
    and put_chunk itself. */
module ChunkTransfer {
  import opened Bytes
  import opened ByteOrder
  import opened Buffer
  import opened Frame
  import opened Streams
  import opened Wire
  import opened Messages
  import opened Store
  import opened StorageLayer
  import ChunkFiles

  const MSG_PUT_CHUNK: Byte := 17

  /** Session tokens are short and hexadecimal. */
  predicate IsToken(id: SessionId) {
    |id| <= MAX_STRING_LEN && forall i :: 0 <= i < |id| ==> id[i] as int < 128
  }

  function CharByte(c: char): Byte
    requires c as int < 128
  {
    c as int
  }

  function TokenBytes(id: SessionId): Bytes
    requires IsToken(id)
  {
    seq(|id|, i requires 0 <= i < |id| => CharByte(id[i]))
  }

  function TokenOf(b: Bytes): SessionId {
    seq(|b|, i requires 0 <= i < |b| => b[i] as char)
  }

  lemma TokenBack(id: SessionId)
    requires IsToken(id)
    ensures TokenOf(TokenBytes(id)) == id && |TokenBytes(id)| == |id|
  {
  }

  /** The request has room for the data in one frame. */
  predicate FitsFrame(id: SessionId, size: nat) { 2 + |id| + 8 + size <= MAX_PAYLOAD }

  ghost function Payload(id: SessionId, ordinal: U64, data: Bytes): Bytes
    requires IsToken(id)
  {
    var v := ChunkReqValue(ChunkReq(TokenBytes(id), ordinal, data));
    if Acceptable(ShapeOf(PutChunkReq), v) then Enc(ShapeOf(PutChunkReq), v) else []
  }

  lemma PayloadIs(id: SessionId, ordinal: U64, data: Bytes)
    requires IsToken(id)
    ensures var v := ChunkReqValue(ChunkReq(TokenBytes(id), ordinal, data));
            && Acceptable(ShapeOf(PutChunkReq), v) && Payload(id, ordinal, data) == Enc(ShapeOf(PutChunkReq), v)
            && |Payload(id, ordinal, data)| == 2 + |id| + 8 + |data|
            && Dec(ShapeOf(PutChunkReq), Payload(id, ordinal, data)) == Got(v, [])
  {
    var v := ChunkReqValue(ChunkReq(TokenBytes(id), ordinal, data));
    Widths();
    TokenBack(id);
    assert Acceptable(ShapeOf(PutChunkReq), v);
    assert Within(ShapeOf(PutChunkReq), v);
    RoundTrip(ShapeOf(PutChunkReq), v, []);
    assert Enc(ShapeOf(PutChunkReq), v) + [] == Enc(ShapeOf(PutChunkReq), v);
  }

  /** Client::put_chunk up to the socket: the frame's bytes, or the frame encoder's
      refusal of a payload that is too long. */
  method EncodePut(id: SessionId, ordinal: U64, data: Bytes, reqId: U32) returns (r: Result<Bytes>)
    requires IsToken(id) && reqId != 0 && |data| <= MAX_PAYLOAD
    ensures r.Err? ==> r.code == E_RANGE
    ensures r.Ok? <==> FitsFrame(id, |data|)
    ensures r.Ok? ==> Encodable(Frame(17, 0, reqId, Payload(id, ordinal, data)))
                      && r.value == Encoding(Frame(17, 0, reqId, Payload(id, ordinal, data)))
  {
    PayloadIs(id, ordinal, data);
    hide IsCapacity, Enc, Dec, Encoding, Payload, TokenBytes;
    var payload := new FrBuf();
    var st := EncodeChunkReq(payload, ChunkReq(TokenBytes(id), ordinal, data));
    assert payload.Contents() == Payload(id, ordinal, data);
    var out := new FrBuf();
    var f := Frame(MSG_PUT_CHUNK, 0, reqId, payload.data[..payload.len]);
    st := Encode(out, f);
    if st != OK {
      return Err(st);
    }
    return Ok(out.data[..out.len]);
  }

  /** The server's side up to the call: read, parse, decode. */
  method ReceivePut(recvs: seq<Bytes>, ghost id: SessionId, ghost ordinal: U64, ghost data: Bytes, ghost reqId: U32)
    returns (q: ChunkReq)
    requires IsToken(id) && Encodable(Frame(MSG_PUT_CHUNK, 0, reqId, Payload(id, ordinal, data)))
    requires Flatten(recvs) == Encoding(Frame(MSG_PUT_CHUNK, 0, reqId, Payload(id, ordinal, data)))
    ensures q == ChunkReq(TokenBytes(id), ordinal, data)
  {
    OneFrame(Frame(MSG_PUT_CHUNK, 0, reqId, Payload(id, ordinal, data)));
    PayloadIs(id, ordinal, data);
    hide *;
    var parser := new Parser();
    var frames, _ := ServerRun(parser, recvs);
    q := DecodePut(frames[0].payload, id, ordinal, data);
  }

  method DecodePut(payload: Bytes, ghost id: SessionId, ghost ordinal: U64, ghost data: Bytes) returns (q: ChunkReq)
    requires IsToken(id) && payload == Payload(id, ordinal, data)
    ensures q == ChunkReq(TokenBytes(id), ordinal, data)
  {
    PayloadIs(id, ordinal, data);
    hide Dec, Enc, Payload, TokenBytes;
    var src := new Reader(payload);
    assert Unread(src) == payload;
    var decoded := DecodeChunkReq(src);
    q := decoded.value;
    SameRequest(q, id, ordinal, data);
  }

  lemma SameRequest(q: ChunkReq, id: SessionId, ordinal: U64, data: Bytes)
    requires IsToken(id) && ChunkReqValue(q) == ChunkReqValue(ChunkReq(TokenBytes(id), ordinal, data))
    ensures q == ChunkReq(TokenBytes(id), ordinal, data)
  {
  }

  /** Main result: however the bytes are cut, the server makes of the request exactly
      what put_chunk makes of these arguments; but a request that does not fit one
      frame never leaves the client. */
  method PutOverWire(storage: Storage, id: SessionId, ordinal: U64, data: Bytes, reqId: U32, cuts: seq<nat>,
                     tmp: string, now: int)
    returns (r: Result<Accept>)
    requires storage.Valid() && storage.cfg.corpus(data) && IsToken(id) && reqId != 0 && |data| <= MAX_PAYLOAD
    requires ChunkFiles.IsTemp(tmp) && tmp !in storage.store.temps
    modifies storage, storage.store
    ensures storage.Valid() && storage.store.temps == old(storage.store.temps)
    ensures (storage.View(), r) ==
            if FitsFrame(id, |data|) then PutChunk(storage.cfg, old(storage.View()), now, id, ordinal, data)
            else (old(storage.View()), Err(E_RANGE))
  {
    TokenBack(id);
    hide FitsFrame, PutChunk, Storage.Valid, ChunkFiles.IsTemp, Encoding, Payload, Encodable, Flatten, CutUp,
         TokenBytes, TokenOf;
    var sent := EncodePut(id, ordinal, data, reqId);
    if sent.Err? {
      return Err(sent.code);
    }
    var q := ReceivePut(CutUp(sent.value, cuts), id, ordinal, data, reqId);
    var accept, _ := storage.PutChunk(TokenOf(q.session), q.ordinal, q.data, tmp, ChunkFiles.SMOOTH, now);
    return accept;
  }
}
