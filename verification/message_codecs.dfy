/** The remaining message codecs of `fr_messages.cpp`: each record, its bytes written
    out field by field, the encoder that produces them and the decoder that reads them
    back. The shapes of module Wire are proved to say the same. */
module MessageCodecs {
  import opened Bytes
  import opened ByteOrder
  import opened Buffer
  import opened Wire
  import opened Messages
  import M = ManifestCodec

  type I32 = x: int | -0x8000_0000 <= x < 0x8000_0000

  // ---- The fields as bytes ---------------------------------------------------------------

  function Str(s: Bytes): Bytes { Be(|s|, 2) + s }

  function Word32(v: I32): Bytes { Be(if v < 0 then v + 0x1_0000_0000 else v, 4) }

  function Word64(v: I64): Bytes { Be(if v < 0 then v + 0x1_0000_0000_0000_0000 else v, 8) }

  function OneOrZero(b: bool): Bytes { [if b then 1 else 0] }

  function RefBytes(ref: Ref): Bytes { Str(ref.ns) + (Str(ref.name) + Str(ref.version)) }

  predicate RefFits(ref: Ref) { |ref.ns| <= 512 && |ref.name| <= 512 && |ref.version| <= 512 }

  lemma TextField(s: Bytes)
    ensures Acceptable(Text, Raw(s)) <==> |s| <= 512
    ensures |s| <= 512 ==> Enc(Text, Raw(s)) == Str(s)
  {
  }

  lemma DigestField(s: Bytes)
    ensures Acceptable(Digest, Raw(s)) <==> |s| == 64
    ensures |s| == 64 ==> Enc(Digest, Raw(s)) == s
  {
  }

  lemma NumberField(n: nat, w: nat)
    ensures Acceptable(Number(w), Num(n)) <==> n < Pow256(w)
    ensures n < Pow256(w) ==> Enc(Number(w), Num(n)) == Be(n, w)
  {
  }

  lemma ByteField(b: Byte)
    ensures Acceptable(U8_FIELD, Num(b)) && Enc(U8_FIELD, Num(b)) == [b]
    ensures Acceptable(Version, Num(b)) && Enc(Version, Num(b)) == [b]
  {
    SmallWidths();
    OneByte(b);
  }

  lemma WordFields(a: U32, b: U64)
    ensures Acceptable(U32_FIELD, Num(a)) && Enc(U32_FIELD, Num(a)) == Be(a, 4)
    ensures Acceptable(U64_FIELD, Num(b)) && Enc(U64_FIELD, Num(b)) == Be(b, 8)
  {
    Widths();
    NumberField(a, 4);
    NumberField(b, 8);
    hide Enc, Acceptable, Be;
  }

  lemma SignedFields(a: I32, b: I64)
    ensures Acceptable(I32_FIELD, Num(a)) && Enc(I32_FIELD, Num(a)) == Word32(a)
    ensures Acceptable(I64_FIELD, Num(b)) && Enc(I64_FIELD, Num(b)) == Word64(b)
  {
    Widths();
  }

  lemma FlagField(b: bool)
    ensures Acceptable(Flag, Bool(b)) && Enc(Flag, Bool(b)) == OneOrZero(b)
  {
  }

  lemma RefField(ref: Ref)
    ensures Acceptable(REF, RefValue(ref)) <==> RefFits(ref)
    ensures RefFits(ref) ==> Enc(REF, RefValue(ref)) == RefBytes(ref)
  {
    TextField(ref.ns);
    TextField(ref.name);
    TextField(ref.version);
    ThenParts(Text, Text, Raw(ref.name), Raw(ref.version));
    ThenParts(Text, Then(Text, Text), Raw(ref.ns), Both(Raw(ref.name), Raw(ref.version)));
    hide Enc, Acceptable, Str;
  }

  lemma BitmapField(s: Bytes)
    ensures Acceptable(Bitmap, Raw(s)) <==> |s| <= 1024 * 1024
    ensures |s| <= 1024 * 1024 ==> Enc(Bitmap, Raw(s)) == Be(|s|, 4) + s
  {
  }

  lemma RestField(s: Bytes)
    ensures Acceptable(Rest, Raw(s)) && Enc(Rest, Raw(s)) == s
  {
  }

  // ---- More primitives --------------------------------------------------------------------

  method PutText(out: FrBuf, value: Bytes) returns (st: Status)
    requires Room(out, 514)
    modifies out, out.data
    ensures out.Valid() && (out.data == old(out.data) || fresh(out.data)) && out.len <= old(out.len) + 514
    ensures st == if |value| <= 512 then OK else E_ARG
    ensures st == OK ==> out.Contents() == old(out.Contents()) + Str(value)
  {
    TextField(value);
    hide Enc, Acceptable, Str;
    st := PutStr(out, value);
  }

  method PutHex(out: FrBuf, hex: Bytes) returns (st: Status)
    requires Room(out, 64)
    modifies out, out.data
    ensures out.Valid() && (out.data == old(out.data) || fresh(out.data)) && out.len <= old(out.len) + 64
    ensures st == if |hex| == 64 then OK else E_ARG
    ensures st == OK ==> out.Contents() == old(out.Contents()) + hex
  {
    DigestField(hex);
    hide Enc, Acceptable;
    st := PutDigest(out, hex);
  }

  method PutTriple(out: FrBuf, ref: Ref) returns (st: Status)
    requires Room(out, 1542)
    modifies out, out.data
    ensures out.Valid() && (out.data == old(out.data) || fresh(out.data)) && out.len <= old(out.len) + 1542
    ensures st == if RefFits(ref) then OK else E_ARG
    ensures st == OK ==> out.Contents() == old(out.Contents()) + RefBytes(ref)
  {
    RefField(ref);
    hide Enc, Acceptable, RefBytes, RefFits, RefValue;
    st := PutRef(out, ref);
  }

  method PutByte(out: FrBuf, v: Byte)
    requires Room(out, 1)
    modifies out, out.data
    ensures out.Valid() && (out.data == old(out.data) || fresh(out.data)) && out.len <= old(out.len) + 1
    ensures out.Contents() == old(out.Contents()) + [v]
  {
    OneByte(v);
    hide Be;
    PutU8(out, v);
  }

  method PutFlag(out: FrBuf, b: bool)
    requires Room(out, 1)
    modifies out, out.data
    ensures out.Valid() && (out.data == old(out.data) || fresh(out.data)) && out.len <= old(out.len) + 1
    ensures out.Contents() == old(out.Contents()) + OneOrZero(b)
  {
    PutByte(out, if b then 1 else 0);
  }

  method PutWord64(out: FrBuf, v: I64)
    requires Room(out, 8)
    modifies out, out.data
    ensures out.Valid() && (out.data == old(out.data) || fresh(out.data)) && out.len <= old(out.len) + 8
    ensures out.Contents() == old(out.Contents()) + Word64(v)
  {
    SignedFields(0, v);
    hide Enc, Acceptable, Word64;
    PutI64(out, v);
  }

  /** put_i32: the cast to uint32_t, then the word. */
  method PutWord32(out: FrBuf, v: I32)
    requires Room(out, 4)
    modifies out, out.data
    ensures out.Valid() && (out.data == old(out.data) || fresh(out.data)) && out.len <= old(out.len) + 4
    ensures out.Contents() == old(out.Contents()) + Word32(v)
  {
    hide Be;
    PutU32(out, if v < 0 then v + 0x1_0000_0000 else v);
  }

  method GetText(src: Reader) returns (r: Result<Bytes>)
    requires src.Valid()
    modifies src
    ensures src.Valid()
    ensures match Dec(Text, old(Unread(src)))
            case Bad => r == Err(E_PROTOCOL)
            case Got(v, rest) => r.Ok? && v == Raw(r.value) && Unread(src) == rest
  {
    TextIsRaw(Unread(src));
    hide Dec;
    r := GetStr(src);
  }

  method GetHex(src: Reader) returns (r: Result<Bytes>)
    requires src.Valid()
    modifies src
    ensures src.Valid()
    ensures match Dec(Digest, old(Unread(src)))
            case Bad => r == Err(E_PROTOCOL)
            case Got(v, rest) => r.Ok? && v == Raw(r.value) && Unread(src) == rest
  {
    DigestIsRaw(Unread(src));
    hide Dec;
    r := GetDigest(src);
  }

  method GetByte(src: Reader) returns (r: Result<Byte>)
    requires src.Valid()
    modifies src
    ensures src.Valid()
    ensures match Dec(U8_FIELD, old(Unread(src)))
            case Bad => r == Err(E_PROTOCOL)
            case Got(v, rest) => r.Ok? && v == Num(r.value) && Unread(src) == rest
  {
    SmallWidths();
    hide DecNumber;
    var n := GetNumber(src, 1);
    match n {
      case Err(code) => return Err(code);
      case Ok(b) => return Ok(b);
    }
  }

  method GetU32(src: Reader) returns (r: Result<U32>)
    requires src.Valid()
    modifies src
    ensures src.Valid()
    ensures match Dec(U32_FIELD, old(Unread(src)))
            case Bad => r == Err(E_PROTOCOL)
            case Got(v, rest) => r.Ok? && v == Num(r.value) && Unread(src) == rest
  {
    Widths();
    hide DecNumber;
    var n := GetNumber(src, 4);
    match n {
      case Err(code) => return Err(code);
      case Ok(v) => return Ok(v);
    }
  }

  method GetU64(src: Reader) returns (r: Result<U64>)
    requires src.Valid()
    modifies src
    ensures src.Valid()
    ensures match Dec(U64_FIELD, old(Unread(src)))
            case Bad => r == Err(E_PROTOCOL)
            case Got(v, rest) => r.Ok? && v == Num(r.value) && Unread(src) == rest
  {
    Widths();
    hide DecNumber;
    var n := GetNumber(src, 8);
    match n {
      case Err(code) => return Err(code);
      case Ok(v) => return Ok(v);
    }
  }

  lemma SignedRead(s: Bytes)
    ensures Dec(I64_FIELD, s).Got? ==> Dec(I64_FIELD, s).value.Num?
  {
  }

  method GetSigned64(src: Reader) returns (r: Result<I64>)
    requires src.Valid()
    modifies src
    ensures src.Valid()
    ensures match Dec(I64_FIELD, old(Unread(src)))
            case Bad => r == Err(E_PROTOCOL)
            case Got(v, rest) => r.Ok? && v == Num(r.value) && Unread(src) == rest
  {
    SignedRead(Unread(src));
    hide Dec;
    r := GetI64(src);
  }

  /** get_i32: the word, then the cast to int32_t. */
  method GetSigned32(src: Reader) returns (r: Result<I32>)
    requires src.Valid()
    modifies src
    ensures src.Valid()
    ensures match Dec(I32_FIELD, old(Unread(src)))
            case Bad => r == Err(E_PROTOCOL)
            case Got(v, rest) => r.Ok? && v == Num(r.value) && Unread(src) == rest
  {
    Widths();
    hide DecNumber;
    var n := GetNumber(src, 4);
    match n {
      case Err(code) => return Err(code);
      case Ok(u) => return Ok(if u < 0x8000_0000 then u else u - 0x1_0000_0000);
    }
  }

  method GetFlag(src: Reader) returns (r: Result<bool>)
    requires src.Valid()
    modifies src
    ensures src.Valid()
    ensures match Dec(Flag, old(Unread(src)))
            case Bad => r == Err(E_PROTOCOL)
            case Got(v, rest) => r.Ok? && v == Bool(r.value) && Unread(src) == rest
  {
    hide DecNumber;
    var n := GetNumber(src, 1);
    match n {
      case Err(code) => return Err(code);
      case Ok(v) => return Ok(v != 0);
    }
  }

  lemma Nest2(s: Bytes, a: Bytes, b: Bytes)
    ensures s + a + b == s + (a + b)
  {
  }

  lemma Nest6(s: Bytes, a: Bytes, b: Bytes, c: Bytes, d: Bytes, e: Bytes, f: Bytes)
    ensures s + a + b + c + d + e + f == s + (a + (b + (c + (d + (e + f)))))
  {
    Nest5(s + a, b, c, d, e, f);
    Assoc(s, a, b + (c + (d + (e + f))));
  }

  lemma Nest7(s: Bytes, a: Bytes, b: Bytes, c: Bytes, d: Bytes, e: Bytes, f: Bytes, g: Bytes)
    ensures s + a + b + c + d + e + f + g == s + (a + (b + (c + (d + (e + (f + g))))))
  {
    Nest6(s + a, b, c, d, e, f, g);
    Assoc(s, a, b + (c + (d + (e + (f + g)))));
  }

  lemma Nest8(s: Bytes, a: Bytes, b: Bytes, c: Bytes, d: Bytes, e: Bytes, f: Bytes, g: Bytes, h: Bytes)
    ensures s + a + b + c + d + e + f + g + h == s + (a + (b + (c + (d + (e + (f + (g + h)))))))
  {
    Nest7(s + a, b, c, d, e, f, g, h);
    Assoc(s, a, b + (c + (d + (e + (f + (g + h))))));
  }

  // ---- AUTH reply --------------------------------------------------------------------------

  datatype AuthReply = AuthReply(username: Bytes, role: Byte)

  function AuthReplyValue(x: AuthReply): Value {
    Both(Raw(x.username), Num(x.role))
  }

  /** Its payload. */
  function AuthReplyBytes(x: AuthReply): Bytes {
    Str(x.username) + [x.role]
  }

  predicate AuthReplyFits(x: AuthReply) { |x.username| <= 512 }

  /** The shape says the same. */
  lemma AuthReplyShape(x: AuthReply)
    ensures Acceptable(ShapeOf(AuthOk), AuthReplyValue(x)) <==> AuthReplyFits(x)
    ensures AuthReplyFits(x) ==> Enc(ShapeOf(AuthOk), AuthReplyValue(x)) == AuthReplyBytes(x)
  {
    hide Enc, Acceptable, Str, Be, Word32, Word64, OneOrZero, RefBytes, RefFits, RefValue;
    TextField(x.username);
    ByteField(x.role);
    var s1, v1 := U8_FIELD, Num(x.role);
    ThenParts(Text, s1, Raw(x.username), v1);
  }

  method EncodeAuthReply(out: FrBuf, x: AuthReply) returns (st: Status)
    requires Room(out, 515)
    modifies out, out.data
    ensures out.Valid() && (out.data == old(out.data) || fresh(out.data)) && out.len <= old(out.len) + 515
    ensures st == if AuthReplyFits(x) then OK else E_ARG
    ensures st == OK ==> out.Contents() == old(out.Contents()) + AuthReplyBytes(x)
  {
    hide IsCapacity, Str, Be, Word32, Word64, OneOrZero, RefBytes, RefFits;
    :- PutText(out, x.username);
    PutByte(out, x.role);
    Nest2(old(out.Contents()), Str(x.username), [x.role]);
    st := OK;
  }

  method DecodeAuthReply(src: Reader) returns (r: Result<AuthReply>)
    requires src.Valid()
    modifies src
    ensures src.Valid()
    ensures match Dec(ShapeOf(AuthOk), old(Unread(src)))
            case Bad => r == Err(E_PROTOCOL)
            case Got(v, rest) => r.Ok? && v == AuthReplyValue(r.value) && Unread(src) == rest
  {
    hide Dec, RefValue;
    ThenReads(Text, U8_FIELD, Unread(src));
    var username :- GetText(src);
    var role :- GetByte(src);
    return Ok(AuthReply(username, role));
  }

  // ---- CREATE_UPLOAD request ---------------------------------------------------------------

  datatype CreateReq = CreateReq(ref: Ref, size: U64, digest: Bytes)

  function CreateReqValue(x: CreateReq): Value {
    Both(RefValue(x.ref), Both(Num(x.size), Raw(x.digest)))
  }

  /** Its payload. */
  function CreateReqBytes(x: CreateReq): Bytes {
    RefBytes(x.ref) + (Be(x.size, 8) + x.digest)
  }

  predicate CreateReqFits(x: CreateReq) { RefFits(x.ref) && |x.digest| == 64 }

  /** The shape says the same. */
  lemma CreateReqShape(x: CreateReq)
    ensures Acceptable(ShapeOf(CreateUploadReq), CreateReqValue(x)) <==> CreateReqFits(x)
    ensures CreateReqFits(x) ==> Enc(ShapeOf(CreateUploadReq), CreateReqValue(x)) == CreateReqBytes(x)
  {
    hide Enc, Acceptable, Str, Be, Word32, Word64, OneOrZero, RefBytes, RefFits, RefValue;
    RefField(x.ref);
    WordFields(0, x.size);
    DigestField(x.digest);
    var s2, v2 := Digest, Raw(x.digest);
    ThenParts(U64_FIELD, s2, Num(x.size), v2);
    var s1, v1 := Then(U64_FIELD, s2), Both(Num(x.size), v2);
    ThenParts(REF, s1, RefValue(x.ref), v1);
  }

  method EncodeCreateReq(out: FrBuf, x: CreateReq) returns (st: Status)
    requires Room(out, 1614)
    modifies out, out.data
    ensures out.Valid() && (out.data == old(out.data) || fresh(out.data)) && out.len <= old(out.len) + 1614
    ensures st == if CreateReqFits(x) then OK else E_ARG
    ensures st == OK ==> out.Contents() == old(out.Contents()) + CreateReqBytes(x)
  {
    hide IsCapacity, Str, Be, Word32, Word64, OneOrZero, RefBytes, RefFits;
    :- PutTriple(out, x.ref);
    PutU64(out, x.size);
    :- PutHex(out, x.digest);
    Nest3(old(out.Contents()), RefBytes(x.ref), Be(x.size, 8), x.digest);
    st := OK;
  }

  method DecodeCreateReq(src: Reader) returns (r: Result<CreateReq>)
    requires src.Valid()
    modifies src
    ensures src.Valid()
    ensures match Dec(ShapeOf(CreateUploadReq), old(Unread(src)))
            case Bad => r == Err(E_PROTOCOL)
            case Got(v, rest) => r.Ok? && v == CreateReqValue(r.value) && Unread(src) == rest
  {
    hide Dec, RefValue;
    ThenReads(REF, Then(U64_FIELD, Digest), Unread(src));
    var ref :- GetRef(src);
    ThenReads(U64_FIELD, Digest, Unread(src));
    var size :- GetU64(src);
    var digest :- GetHex(src);
    return Ok(CreateReq(ref, size, digest));
  }

  // ---- CREATE_UPLOAD reply -----------------------------------------------------------------

  datatype CreateOk = CreateOk(session: Bytes, chunkSize: U64, expiresAt: I64)

  function CreateOkValue(x: CreateOk): Value {
    Both(Raw(x.session), Both(Num(x.chunkSize), Num(x.expiresAt)))
  }

  /** Its payload. */
  function CreateOkBytes(x: CreateOk): Bytes {
    Str(x.session) + (Be(x.chunkSize, 8) + Word64(x.expiresAt))
  }

  predicate CreateOkFits(x: CreateOk) { |x.session| <= 512 }

  /** The shape says the same. */
  lemma CreateOkShape(x: CreateOk)
    ensures Acceptable(ShapeOf(CreateUploadOk), CreateOkValue(x)) <==> CreateOkFits(x)
    ensures CreateOkFits(x) ==> Enc(ShapeOf(CreateUploadOk), CreateOkValue(x)) == CreateOkBytes(x)
  {
    hide Enc, Acceptable, Str, Be, Word32, Word64, OneOrZero, RefBytes, RefFits, RefValue;
    TextField(x.session);
    WordFields(0, x.chunkSize);
    SignedFields(0, x.expiresAt);
    var s2, v2 := I64_FIELD, Num(x.expiresAt);
    ThenParts(U64_FIELD, s2, Num(x.chunkSize), v2);
    var s1, v1 := Then(U64_FIELD, s2), Both(Num(x.chunkSize), v2);
    ThenParts(Text, s1, Raw(x.session), v1);
  }

  method EncodeCreateOk(out: FrBuf, x: CreateOk) returns (st: Status)
    requires Room(out, 530)
    modifies out, out.data
    ensures out.Valid() && (out.data == old(out.data) || fresh(out.data)) && out.len <= old(out.len) + 530
    ensures st == if CreateOkFits(x) then OK else E_ARG
    ensures st == OK ==> out.Contents() == old(out.Contents()) + CreateOkBytes(x)
  {
    hide IsCapacity, Str, Be, Word32, Word64, OneOrZero, RefBytes, RefFits;
    :- PutText(out, x.session);
    PutU64(out, x.chunkSize);
    PutWord64(out, x.expiresAt);
    Nest3(old(out.Contents()), Str(x.session), Be(x.chunkSize, 8), Word64(x.expiresAt));
    st := OK;
  }

  method DecodeCreateOk(src: Reader) returns (r: Result<CreateOk>)
    requires src.Valid()
    modifies src
    ensures src.Valid()
    ensures match Dec(ShapeOf(CreateUploadOk), old(Unread(src)))
            case Bad => r == Err(E_PROTOCOL)
            case Got(v, rest) => r.Ok? && v == CreateOkValue(r.value) && Unread(src) == rest
  {
    hide Dec, RefValue;
    ThenReads(Text, Then(U64_FIELD, I64_FIELD), Unread(src));
    var session :- GetText(src);
    ThenReads(U64_FIELD, I64_FIELD, Unread(src));
    var chunkSize :- GetU64(src);
    var expiresAt :- GetSigned64(src);
    return Ok(CreateOk(session, chunkSize, expiresAt));
  }

  // ---- PUT_CHUNK reply ---------------------------------------------------------------------

  datatype ChunkOk = ChunkOk(digest: Bytes, reused: bool)

  function ChunkOkValue(x: ChunkOk): Value {
    Both(Raw(x.digest), Bool(x.reused))
  }

  /** Its payload. */
  function ChunkOkBytes(x: ChunkOk): Bytes {
    x.digest + OneOrZero(x.reused)
  }

  predicate ChunkOkFits(x: ChunkOk) { |x.digest| == 64 }

  /** The shape says the same. */
  lemma ChunkOkShape(x: ChunkOk)
    ensures Acceptable(ShapeOf(PutChunkOk), ChunkOkValue(x)) <==> ChunkOkFits(x)
    ensures ChunkOkFits(x) ==> Enc(ShapeOf(PutChunkOk), ChunkOkValue(x)) == ChunkOkBytes(x)
  {
    hide Enc, Acceptable, Str, Be, Word32, Word64, OneOrZero, RefBytes, RefFits, RefValue;
    DigestField(x.digest);
    FlagField(x.reused);
    var s1, v1 := Flag, Bool(x.reused);
    ThenParts(Digest, s1, Raw(x.digest), v1);
  }

  method EncodeChunkOk(out: FrBuf, x: ChunkOk) returns (st: Status)
    requires Room(out, 65)
    modifies out, out.data
    ensures out.Valid() && (out.data == old(out.data) || fresh(out.data)) && out.len <= old(out.len) + 65
    ensures st == if ChunkOkFits(x) then OK else E_ARG
    ensures st == OK ==> out.Contents() == old(out.Contents()) + ChunkOkBytes(x)
  {
    hide IsCapacity, Str, Be, Word32, Word64, OneOrZero, RefBytes, RefFits;
    :- PutHex(out, x.digest);
    PutFlag(out, x.reused);
    Nest2(old(out.Contents()), x.digest, OneOrZero(x.reused));
    st := OK;
  }

  method DecodeChunkOk(src: Reader) returns (r: Result<ChunkOk>)
    requires src.Valid()
    modifies src
    ensures src.Valid()
    ensures match Dec(ShapeOf(PutChunkOk), old(Unread(src)))
            case Bad => r == Err(E_PROTOCOL)
            case Got(v, rest) => r.Ok? && v == ChunkOkValue(r.value) && Unread(src) == rest
  {
    hide Dec, RefValue;
    ThenReads(Digest, Flag, Unread(src));
    var digest :- GetHex(src);
    var reused :- GetFlag(src);
    return Ok(ChunkOk(digest, reused));
  }

  // ---- COMMIT_UPLOAD reply -----------------------------------------------------------------

  datatype CommitOk = CommitOk(ref: Ref, size: U64, digest: Bytes)

  function CommitOkValue(x: CommitOk): Value {
    Both(RefValue(x.ref), Both(Num(x.size), Raw(x.digest)))
  }

  /** Its payload. */
  function CommitOkBytes(x: CommitOk): Bytes {
    RefBytes(x.ref) + (Be(x.size, 8) + x.digest)
  }

  predicate CommitOkFits(x: CommitOk) { RefFits(x.ref) && |x.digest| == 64 }

  /** The shape says the same. */
  lemma CommitOkShape(x: CommitOk)
    ensures Acceptable(ShapeOf(CommitUploadOk), CommitOkValue(x)) <==> CommitOkFits(x)
    ensures CommitOkFits(x) ==> Enc(ShapeOf(CommitUploadOk), CommitOkValue(x)) == CommitOkBytes(x)
  {
    hide Enc, Acceptable, Str, Be, Word32, Word64, OneOrZero, RefBytes, RefFits, RefValue;
    RefField(x.ref);
    WordFields(0, x.size);
    DigestField(x.digest);
    var s2, v2 := Digest, Raw(x.digest);
    ThenParts(U64_FIELD, s2, Num(x.size), v2);
    var s1, v1 := Then(U64_FIELD, s2), Both(Num(x.size), v2);
    ThenParts(REF, s1, RefValue(x.ref), v1);
  }

  method EncodeCommitOk(out: FrBuf, x: CommitOk) returns (st: Status)
    requires Room(out, 1614)
    modifies out, out.data
    ensures out.Valid() && (out.data == old(out.data) || fresh(out.data)) && out.len <= old(out.len) + 1614
    ensures st == if CommitOkFits(x) then OK else E_ARG
    ensures st == OK ==> out.Contents() == old(out.Contents()) + CommitOkBytes(x)
  {
    hide IsCapacity, Str, Be, Word32, Word64, OneOrZero, RefBytes, RefFits;
    :- PutTriple(out, x.ref);
    PutU64(out, x.size);
    :- PutHex(out, x.digest);
    Nest3(old(out.Contents()), RefBytes(x.ref), Be(x.size, 8), x.digest);
    st := OK;
  }

  method DecodeCommitOk(src: Reader) returns (r: Result<CommitOk>)
    requires src.Valid()
    modifies src
    ensures src.Valid()
    ensures match Dec(ShapeOf(CommitUploadOk), old(Unread(src)))
            case Bad => r == Err(E_PROTOCOL)
            case Got(v, rest) => r.Ok? && v == CommitOkValue(r.value) && Unread(src) == rest
  {
    hide Dec, RefValue;
    ThenReads(REF, Then(U64_FIELD, Digest), Unread(src));
    var ref :- GetRef(src);
    ThenReads(U64_FIELD, Digest, Unread(src));
    var size :- GetU64(src);
    var digest :- GetHex(src);
    return Ok(CommitOk(ref, size, digest));
  }

  // ---- GET_ARTIFACT request ----------------------------------------------------------------

  datatype GetReq = GetReq(ref: Ref, offset: U64, length: U64)

  function GetReqValue(x: GetReq): Value {
    Both(RefValue(x.ref), Both(Num(x.offset), Num(x.length)))
  }

  /** Its payload. */
  function GetReqBytes(x: GetReq): Bytes {
    RefBytes(x.ref) + (Be(x.offset, 8) + Be(x.length, 8))
  }

  predicate GetReqFits(x: GetReq) { RefFits(x.ref) }

  /** The shape says the same. */
  lemma GetReqShape(x: GetReq)
    ensures Acceptable(ShapeOf(GetArtifactReq), GetReqValue(x)) <==> GetReqFits(x)
    ensures GetReqFits(x) ==> Enc(ShapeOf(GetArtifactReq), GetReqValue(x)) == GetReqBytes(x)
  {
    hide Enc, Acceptable, Str, Be, Word32, Word64, OneOrZero, RefBytes, RefFits, RefValue;
    RefField(x.ref);
    WordFields(0, x.offset);
    WordFields(0, x.length);
    var s2, v2 := U64_FIELD, Num(x.length);
    ThenParts(U64_FIELD, s2, Num(x.offset), v2);
    var s1, v1 := Then(U64_FIELD, s2), Both(Num(x.offset), v2);
    ThenParts(REF, s1, RefValue(x.ref), v1);
  }

  method EncodeGetReq(out: FrBuf, x: GetReq) returns (st: Status)
    requires Room(out, 1558)
    modifies out, out.data
    ensures out.Valid() && (out.data == old(out.data) || fresh(out.data)) && out.len <= old(out.len) + 1558
    ensures st == if GetReqFits(x) then OK else E_ARG
    ensures st == OK ==> out.Contents() == old(out.Contents()) + GetReqBytes(x)
  {
    hide IsCapacity, Str, Be, Word32, Word64, OneOrZero, RefBytes, RefFits;
    :- PutTriple(out, x.ref);
    PutU64(out, x.offset);
    PutU64(out, x.length);
    Nest3(old(out.Contents()), RefBytes(x.ref), Be(x.offset, 8), Be(x.length, 8));
    st := OK;
  }

  method DecodeGetReq(src: Reader) returns (r: Result<GetReq>)
    requires src.Valid()
    modifies src
    ensures src.Valid()
    ensures match Dec(ShapeOf(GetArtifactReq), old(Unread(src)))
            case Bad => r == Err(E_PROTOCOL)
            case Got(v, rest) => r.Ok? && v == GetReqValue(r.value) && Unread(src) == rest
  {
    hide Dec, RefValue;
    ThenReads(REF, Then(U64_FIELD, U64_FIELD), Unread(src));
    var ref :- GetRef(src);
    ThenReads(U64_FIELD, U64_FIELD, Unread(src));
    var offset :- GetU64(src);
    var length :- GetU64(src);
    return Ok(GetReq(ref, offset, length));
  }

  // ---- STATUS reply ------------------------------------------------------------------------

  datatype ServerStatus = ServerStatus(version: Bytes, uptime: U64, connections: U32, sessions: U32, artifacts: U64,
                                       used: U64, capacity: U64, watermark: Byte)

  function ServerStatusValue(x: ServerStatus): Value {
    Both(Raw(x.version), Both(Num(x.uptime), Both(Num(x.connections), Both(Num(x.sessions),
      Both(Num(x.artifacts), Both(Num(x.used), Both(Num(x.capacity), Num(x.watermark))))))))
  }

  /** Its payload. */
  function ServerStatusBytes(x: ServerStatus): Bytes {
    Str(x.version) + (Be(x.uptime, 8) + (Be(x.connections, 4) + (Be(x.sessions, 4)
      + (Be(x.artifacts, 8) + (Be(x.used, 8) + (Be(x.capacity, 8) + [x.watermark]))))))
  }

  predicate ServerStatusFits(x: ServerStatus) { |x.version| <= 512 }

  /** The shape says the same. */
  lemma ServerStatusShape(x: ServerStatus)
    ensures Acceptable(ShapeOf(StatusOk), ServerStatusValue(x)) <==> ServerStatusFits(x)
    ensures ServerStatusFits(x) ==> Enc(ShapeOf(StatusOk), ServerStatusValue(x)) == ServerStatusBytes(x)
  {
    hide Enc, Acceptable, Str, Be, Word32, Word64, OneOrZero, RefBytes, RefFits, RefValue;
    TextField(x.version);
    WordFields(0, x.uptime);
    WordFields(x.connections, 0);
    WordFields(x.sessions, 0);
    WordFields(0, x.artifacts);
    WordFields(0, x.used);
    WordFields(0, x.capacity);
    ByteField(x.watermark);
    var s7, v7 := U8_FIELD, Num(x.watermark);
    ThenParts(U64_FIELD, s7, Num(x.capacity), v7);
    var s6, v6 := Then(U64_FIELD, s7), Both(Num(x.capacity), v7);
    ThenParts(U64_FIELD, s6, Num(x.used), v6);
    var s5, v5 := Then(U64_FIELD, s6), Both(Num(x.used), v6);
    ThenParts(U64_FIELD, s5, Num(x.artifacts), v5);
    var s4, v4 := Then(U64_FIELD, s5), Both(Num(x.artifacts), v5);
    ThenParts(U32_FIELD, s4, Num(x.sessions), v4);
    var s3, v3 := Then(U32_FIELD, s4), Both(Num(x.sessions), v4);
    ThenParts(U32_FIELD, s3, Num(x.connections), v3);
    var s2, v2 := Then(U32_FIELD, s3), Both(Num(x.connections), v3);
    ThenParts(U64_FIELD, s2, Num(x.uptime), v2);
    var s1, v1 := Then(U64_FIELD, s2), Both(Num(x.uptime), v2);
    ThenParts(Text, s1, Raw(x.version), v1);
  }

  method EncodeServerStatus(out: FrBuf, x: ServerStatus) returns (st: Status)
    requires Room(out, 555)
    modifies out, out.data
    ensures out.Valid() && (out.data == old(out.data) || fresh(out.data)) && out.len <= old(out.len) + 555
    ensures st == if ServerStatusFits(x) then OK else E_ARG
    ensures st == OK ==> out.Contents() == old(out.Contents()) + ServerStatusBytes(x)
  {
    hide IsCapacity, Str, Be, Word32, Word64, OneOrZero, RefBytes, RefFits;
    :- PutText(out, x.version);
    PutU64(out, x.uptime);
    PutU32(out, x.connections);
    PutU32(out, x.sessions);
    PutU64(out, x.artifacts);
    PutU64(out, x.used);
    PutU64(out, x.capacity);
    PutByte(out, x.watermark);
    Nest8(old(out.Contents()), Str(x.version), Be(x.uptime, 8), Be(x.connections, 4), Be(x.sessions, 4)
          , Be(x.artifacts, 8), Be(x.used, 8), Be(x.capacity, 8), [x.watermark]);
    st := OK;
  }

  method DecodeServerStatus(src: Reader) returns (r: Result<ServerStatus>)
    requires src.Valid()
    modifies src
    ensures src.Valid()
    ensures match Dec(ShapeOf(StatusOk), old(Unread(src)))
            case Bad => r == Err(E_PROTOCOL)
            case Got(v, rest) => r.Ok? && v == ServerStatusValue(r.value) && Unread(src) == rest
  {
    hide Dec, RefValue;
    ThenReads(Text, Then(U64_FIELD, Then(U32_FIELD, Then(U32_FIELD,
                    Then(U64_FIELD, Then(U64_FIELD, Then(U64_FIELD, U8_FIELD)))))), Unread(src));
    var version :- GetText(src);
    ThenReads(U64_FIELD, Then(U32_FIELD, Then(U32_FIELD,
                    Then(U64_FIELD, Then(U64_FIELD, Then(U64_FIELD, U8_FIELD))))), Unread(src));
    var uptime :- GetU64(src);
    ThenReads(U32_FIELD, Then(U32_FIELD, Then(U64_FIELD, Then(U64_FIELD, Then(U64_FIELD, U8_FIELD)))), Unread(src));
    var connections :- GetU32(src);
    ThenReads(U32_FIELD, Then(U64_FIELD, Then(U64_FIELD, Then(U64_FIELD, U8_FIELD))), Unread(src));
    var sessions :- GetU32(src);
    ThenReads(U64_FIELD, Then(U64_FIELD, Then(U64_FIELD, U8_FIELD)), Unread(src));
    var artifacts :- GetU64(src);
    ThenReads(U64_FIELD, Then(U64_FIELD, U8_FIELD), Unread(src));
    var used :- GetU64(src);
    ThenReads(U64_FIELD, U8_FIELD, Unread(src));
    var capacity :- GetU64(src);
    var watermark :- GetByte(src);
    return Ok(ServerStatus(version, uptime, connections, sessions, artifacts, used, capacity, watermark));
  }

  // ---- RUN_GC reply ------------------------------------------------------------------------

  datatype GcOk = GcOk(scanned: I64, deletedCount: I64, deletedBytes: I64)

  function GcOkValue(x: GcOk): Value {
    Both(Num(x.scanned), Both(Num(x.deletedCount), Num(x.deletedBytes)))
  }

  /** Its payload. */
  function GcOkBytes(x: GcOk): Bytes {
    Word64(x.scanned) + (Word64(x.deletedCount) + Word64(x.deletedBytes))
  }

  /** The shape says the same. */
  lemma GcOkShape(x: GcOk)
    ensures Acceptable(ShapeOf(RunGcOk), GcOkValue(x)) && Enc(ShapeOf(RunGcOk), GcOkValue(x)) == GcOkBytes(x)
  {
    hide Enc, Acceptable, Str, Be, Word32, Word64, OneOrZero, RefBytes, RefFits, RefValue;
    SignedFields(0, x.scanned);
    SignedFields(0, x.deletedCount);
    SignedFields(0, x.deletedBytes);
    var s2, v2 := I64_FIELD, Num(x.deletedBytes);
    ThenParts(I64_FIELD, s2, Num(x.deletedCount), v2);
    var s1, v1 := Then(I64_FIELD, s2), Both(Num(x.deletedCount), v2);
    ThenParts(I64_FIELD, s1, Num(x.scanned), v1);
  }

  method EncodeGcOk(out: FrBuf, x: GcOk) returns (st: Status)
    requires Room(out, 24)
    modifies out, out.data
    ensures out.Valid() && (out.data == old(out.data) || fresh(out.data)) && out.len <= old(out.len) + 24
    ensures st == OK
    ensures st == OK ==> out.Contents() == old(out.Contents()) + GcOkBytes(x)
  {
    hide IsCapacity, Str, Be, Word32, Word64, OneOrZero, RefBytes, RefFits;
    PutWord64(out, x.scanned);
    PutWord64(out, x.deletedCount);
    PutWord64(out, x.deletedBytes);
    Nest3(old(out.Contents()), Word64(x.scanned), Word64(x.deletedCount), Word64(x.deletedBytes));
    st := OK;
  }

  method DecodeGcOk(src: Reader) returns (r: Result<GcOk>)
    requires src.Valid()
    modifies src
    ensures src.Valid()
    ensures match Dec(ShapeOf(RunGcOk), old(Unread(src)))
            case Bad => r == Err(E_PROTOCOL)
            case Got(v, rest) => r.Ok? && v == GcOkValue(r.value) && Unread(src) == rest
  {
    hide Dec, RefValue;
    ThenReads(I64_FIELD, Then(I64_FIELD, I64_FIELD), Unread(src));
    var scanned :- GetSigned64(src);
    ThenReads(I64_FIELD, I64_FIELD, Unread(src));
    var deletedCount :- GetSigned64(src);
    var deletedBytes :- GetSigned64(src);
    return Ok(GcOk(scanned, deletedCount, deletedBytes));
  }

  // ---- USER_ADD request --------------------------------------------------------------------

  datatype UserReq = UserReq(username: Bytes, role: Byte)

  function UserReqValue(x: UserReq): Value {
    Both(Raw(x.username), Num(x.role))
  }

  /** Its payload. */
  function UserReqBytes(x: UserReq): Bytes {
    Str(x.username) + [x.role]
  }

  predicate UserReqFits(x: UserReq) { |x.username| <= 512 }

  /** The shape says the same. */
  lemma UserReqShape(x: UserReq)
    ensures Acceptable(ShapeOf(UserAddReq), UserReqValue(x)) <==> UserReqFits(x)
    ensures UserReqFits(x) ==> Enc(ShapeOf(UserAddReq), UserReqValue(x)) == UserReqBytes(x)
  {
    hide Enc, Acceptable, Str, Be, Word32, Word64, OneOrZero, RefBytes, RefFits, RefValue;
    TextField(x.username);
    ByteField(x.role);
    var s1, v1 := U8_FIELD, Num(x.role);
    ThenParts(Text, s1, Raw(x.username), v1);
  }

  method EncodeUserReq(out: FrBuf, x: UserReq) returns (st: Status)
    requires Room(out, 515)
    modifies out, out.data
    ensures out.Valid() && (out.data == old(out.data) || fresh(out.data)) && out.len <= old(out.len) + 515
    ensures st == if UserReqFits(x) then OK else E_ARG
    ensures st == OK ==> out.Contents() == old(out.Contents()) + UserReqBytes(x)
  {
    hide IsCapacity, Str, Be, Word32, Word64, OneOrZero, RefBytes, RefFits;
    :- PutText(out, x.username);
    PutByte(out, x.role);
    Nest2(old(out.Contents()), Str(x.username), [x.role]);
    st := OK;
  }

  method DecodeUserReq(src: Reader) returns (r: Result<UserReq>)
    requires src.Valid()
    modifies src
    ensures src.Valid()
    ensures match Dec(ShapeOf(UserAddReq), old(Unread(src)))
            case Bad => r == Err(E_PROTOCOL)
            case Got(v, rest) => r.Ok? && v == UserReqValue(r.value) && Unread(src) == rest
  {
    hide Dec, RefValue;
    ThenReads(Text, U8_FIELD, Unread(src));
    var username :- GetText(src);
    var role :- GetByte(src);
    return Ok(UserReq(username, role));
  }

  // ---- TOKEN_CREATE request ----------------------------------------------------------------

  datatype TokenReq = TokenReq(username: Bytes, ttlHours: U32)

  function TokenReqValue(x: TokenReq): Value {
    Both(Raw(x.username), Num(x.ttlHours))
  }

  /** Its payload. */
  function TokenReqBytes(x: TokenReq): Bytes {
    Str(x.username) + Be(x.ttlHours, 4)
  }

  predicate TokenReqFits(x: TokenReq) { |x.username| <= 512 }

  /** The shape says the same. */
  lemma TokenReqShape(x: TokenReq)
    ensures Acceptable(ShapeOf(TokenCreateReq), TokenReqValue(x)) <==> TokenReqFits(x)
    ensures TokenReqFits(x) ==> Enc(ShapeOf(TokenCreateReq), TokenReqValue(x)) == TokenReqBytes(x)
  {
    hide Enc, Acceptable, Str, Be, Word32, Word64, OneOrZero, RefBytes, RefFits, RefValue;
    TextField(x.username);
    WordFields(x.ttlHours, 0);
    var s1, v1 := U32_FIELD, Num(x.ttlHours);
    ThenParts(Text, s1, Raw(x.username), v1);
  }

  method EncodeTokenReq(out: FrBuf, x: TokenReq) returns (st: Status)
    requires Room(out, 518)
    modifies out, out.data
    ensures out.Valid() && (out.data == old(out.data) || fresh(out.data)) && out.len <= old(out.len) + 518
    ensures st == if TokenReqFits(x) then OK else E_ARG
    ensures st == OK ==> out.Contents() == old(out.Contents()) + TokenReqBytes(x)
  {
    hide IsCapacity, Str, Be, Word32, Word64, OneOrZero, RefBytes, RefFits;
    :- PutText(out, x.username);
    PutU32(out, x.ttlHours);
    Nest2(old(out.Contents()), Str(x.username), Be(x.ttlHours, 4));
    st := OK;
  }

  method DecodeTokenReq(src: Reader) returns (r: Result<TokenReq>)
    requires src.Valid()
    modifies src
    ensures src.Valid()
    ensures match Dec(ShapeOf(TokenCreateReq), old(Unread(src)))
            case Bad => r == Err(E_PROTOCOL)
            case Got(v, rest) => r.Ok? && v == TokenReqValue(r.value) && Unread(src) == rest
  {
    hide Dec, RefValue;
    ThenReads(Text, U32_FIELD, Unread(src));
    var username :- GetText(src);
    var ttlHours :- GetU32(src);
    return Ok(TokenReq(username, ttlHours));
  }

  // ---- ERROR -------------------------------------------------------------------------------

  datatype Failure = Failure(code: I32, message: Bytes)

  function FailureValue(x: Failure): Value {
    Both(Num(x.code), Raw(x.message))
  }

  /** Its payload. */
  function FailureBytes(x: Failure): Bytes {
    Word32(x.code) + Str(x.message)
  }

  predicate FailureFits(x: Failure) { |x.message| <= 512 }

  /** The shape says the same. */
  lemma FailureShape(x: Failure)
    ensures Acceptable(ShapeOf(ErrorPayload), FailureValue(x)) <==> FailureFits(x)
    ensures FailureFits(x) ==> Enc(ShapeOf(ErrorPayload), FailureValue(x)) == FailureBytes(x)
  {
    hide Enc, Acceptable, Str, Be, Word32, Word64, OneOrZero, RefBytes, RefFits, RefValue;
    SignedFields(x.code, 0);
    TextField(x.message);
    var s1, v1 := Text, Raw(x.message);
    ThenParts(I32_FIELD, s1, Num(x.code), v1);
  }

  method EncodeFailure(out: FrBuf, x: Failure) returns (st: Status)
    requires Room(out, 518)
    modifies out, out.data
    ensures out.Valid() && (out.data == old(out.data) || fresh(out.data)) && out.len <= old(out.len) + 518
    ensures st == if FailureFits(x) then OK else E_ARG
    ensures st == OK ==> out.Contents() == old(out.Contents()) + FailureBytes(x)
  {
    hide IsCapacity, Str, Be, Word32, Word64, OneOrZero, RefBytes, RefFits;
    PutWord32(out, x.code);
    :- PutText(out, x.message);
    Nest2(old(out.Contents()), Word32(x.code), Str(x.message));
    st := OK;
  }

  method DecodeFailure(src: Reader) returns (r: Result<Failure>)
    requires src.Valid()
    modifies src
    ensures src.Valid()
    ensures match Dec(ShapeOf(ErrorPayload), old(Unread(src)))
            case Bad => r == Err(E_PROTOCOL)
            case Got(v, rest) => r.Ok? && v == FailureValue(r.value) && Unread(src) == rest
  {
    hide Dec, RefValue;
    ThenReads(I32_FIELD, Text, Unread(src));
    var code :- GetSigned32(src);
    var message :- GetText(src);
    return Ok(Failure(code, message));
  }

  // ---- Payloads of a single field ------------------------------------------------------------

  /** The AUTH request and the TOKEN_CREATE reply are a string, the GET_ARTIFACT reply is
      the number of bytes, the DELETE_ARTIFACT reply the number of chunks, the RUN_GC
      request its flag, a DATA payload the data; five requests are a name alone. */
  lemma SingleFields(token: Bytes, bytesSent: U64, marked: I64, dryRun: bool, data: Bytes, ref: Ref)
    ensures |token| <= 512 ==>
              && Acceptable(ShapeOf(AuthReq), Raw(token)) && Enc(ShapeOf(AuthReq), Raw(token)) == Str(token)
              && Acceptable(ShapeOf(TokenCreateOk), Raw(token))
              && Enc(ShapeOf(TokenCreateOk), Raw(token)) == Str(token)
    ensures Acceptable(ShapeOf(GetArtifactOk), Num(bytesSent))
            && Enc(ShapeOf(GetArtifactOk), Num(bytesSent)) == Be(bytesSent, 8)
    ensures Acceptable(ShapeOf(DeleteArtifactOk), Num(marked))
            && Enc(ShapeOf(DeleteArtifactOk), Num(marked)) == Word64(marked)
    ensures Acceptable(ShapeOf(RunGcReq), Bool(dryRun)) && Enc(ShapeOf(RunGcReq), Bool(dryRun)) == OneOrZero(dryRun)
    ensures Acceptable(ShapeOf(DataPayload), Raw(data)) && Enc(ShapeOf(DataPayload), Raw(data)) == data
    ensures RefFits(ref) ==>
              Acceptable(ShapeOf(RefOnly), RefValue(ref)) && Enc(ShapeOf(RefOnly), RefValue(ref)) == RefBytes(ref)
  {
    hide Enc, Acceptable, Str, Be, Word64, OneOrZero, RefBytes, RefFits, RefValue;
    TextField(token);
    WordFields(0, bytesSent);
    SignedFields(0, marked);
    FlagField(dryRun);
    RestField(data);
    RefField(ref);
  }

  // ---- HELLO request ---------------------------------------------------------------------------

  datatype Hello = Hello(version: Byte, client: Bytes)

  function HelloValue(x: Hello): Value { Both(Num(x.version), Raw(x.client)) }

  function HelloBytes(x: Hello): Bytes { [x.version] + Str(x.client) }

  /** The decoder takes protocol version 1 only. */
  lemma HelloShape(x: Hello)
    ensures Acceptable(ShapeOf(HelloReq), HelloValue(x)) <==> |x.client| <= 512
    ensures |x.client| <= 512 ==>
              Enc(ShapeOf(HelloReq), HelloValue(x)) == HelloBytes(x)
              && (Within(ShapeOf(HelloReq), HelloValue(x)) <==> x.version == 1)
  {
    ByteField(x.version);
    TextField(x.client);
    ThenParts(Version, Text, Num(x.version), Raw(x.client));
    hide Enc, Acceptable, Str;
  }

  method EncodeHello(out: FrBuf, x: Hello) returns (st: Status)
    requires Room(out, 515)
    modifies out, out.data
    ensures out.Valid()
    ensures st == if |x.client| <= 512 then OK else E_ARG
    ensures st == OK ==> out.Contents() == old(out.Contents()) + HelloBytes(x)
  {
    hide IsCapacity, Str;
    PutByte(out, x.version);
    :- PutText(out, x.client);
    Nest2(old(out.Contents()), [x.version], Str(x.client));
    return OK;
  }

  method DecodeHello(src: Reader) returns (r: Result<Hello>)
    requires src.Valid()
    modifies src
    ensures src.Valid()
    ensures match Dec(ShapeOf(HelloReq), old(Unread(src)))
            case Bad => r == Err(E_PROTOCOL)
            case Got(v, rest) => r.Ok? && v == HelloValue(r.value) && Unread(src) == rest
  {
    VersionReads(Unread(src));
    ThenReads(Version, Text, Unread(src));
    hide Dec, DecNumber;
    var version :- GetByte(src);
    if version != 1 {
      return Err(E_PROTOCOL);
    }
    var client :- GetText(src);
    return Ok(Hello(version, client));
  }

  lemma VersionReads(s: Bytes)
    ensures Dec(Version, s) ==
            match Dec(U8_FIELD, s)
            case Bad => Bad
            case Got(u, rest) => if u != Num(1) then Bad else Got(u, rest)
  {
  }

  // ---- QUERY_UPLOAD reply ------------------------------------------------------------------------

  datatype Progress = Progress(state: Byte, count: U64, bitmap: Bytes)

  function ProgressValue(x: Progress): Value { Both(Num(x.state), Both(Num(x.count), Raw(x.bitmap))) }

  function ProgressBytes(x: Progress): Bytes
    requires |x.bitmap| <= 1024 * 1024
  {
    [x.state] + (Be(x.count, 8) + (Be(|x.bitmap|, 4) + x.bitmap))
  }

  lemma ProgressShape(x: Progress)
    ensures Acceptable(ShapeOf(QueryUploadOk), ProgressValue(x)) <==> |x.bitmap| <= 1024 * 1024
    ensures |x.bitmap| <= 1024 * 1024 ==> Enc(ShapeOf(QueryUploadOk), ProgressValue(x)) == ProgressBytes(x)
  {
    ByteField(x.state);
    WordFields(0, x.count);
    BitmapField(x.bitmap);
    ThenParts(U64_FIELD, Bitmap, Num(x.count), Raw(x.bitmap));
    ThenParts(U8_FIELD, Then(U64_FIELD, Bitmap), Num(x.state), Both(Num(x.count), Raw(x.bitmap)));
    hide Enc, Acceptable, Be;
  }

  /** The one encoder that answers E_RANGE, with the first two fields already written. */
  method EncodeProgress(out: FrBuf, x: Progress) returns (st: Status)
    requires Room(out, 13 + 1024 * 1024)
    modifies out, out.data
    ensures out.Valid()
    ensures st == if |x.bitmap| <= 1024 * 1024 then OK else E_RANGE
    ensures out.Contents() ==
            old(out.Contents()) + if st == OK then ProgressBytes(x) else [x.state] + Be(x.count, 8)
  {
    hide IsCapacity, Be;
    PutByte(out, x.state);
    PutU64(out, x.count);
    Nest2(old(out.Contents()), [x.state], Be(x.count, 8));
    if |x.bitmap| > 1024 * 1024 {
      return E_RANGE;
    }
    PutU32(out, |x.bitmap|);
    PutRaw(out, x.bitmap);
    Nest4(old(out.Contents()), [x.state], Be(x.count, 8), Be(|x.bitmap|, 4), x.bitmap);
    return OK;
  }

  method DecodeProgress(src: Reader) returns (r: Result<Progress>)
    requires src.Valid()
    modifies src
    ensures src.Valid()
    ensures match Dec(ShapeOf(QueryUploadOk), old(Unread(src)))
            case Bad => r == Err(E_PROTOCOL)
            case Got(v, rest) => r.Ok? && v == ProgressValue(r.value) && Unread(src) == rest
  {
    hide Dec;
    ThenReads(U8_FIELD, Then(U64_FIELD, Bitmap), Unread(src));
    var state :- GetByte(src);
    ThenReads(U64_FIELD, Bitmap, Unread(src));
    var count :- GetU64(src);
    BitmapReads(Unread(src));
    var length :- GetU32(src);
    if length > 1024 * 1024 {
      return Err(E_PROTOCOL);
    }
    var bitmap :- GetRaw(src, length);
    return Ok(Progress(state, count, bitmap));
  }

  lemma BitmapReads(s: Bytes)
    ensures Dec(Bitmap, s) ==
            match Dec(U32_FIELD, s)
            case Bad => Bad
            case Got(n, rest) =>
              if !n.Num? || n.n < 0 || n.n > 1024 * 1024 then Bad else DecRaw(n.n, rest)
  {
  }

  // ---- Lists -----------------------------------------------------------------------------

  lemma {:induction false} ItemsAre(item: Shape, vs: seq<Value>, bs: seq<Bytes>)
    requires |vs| == |bs|
    requires forall i :: 0 <= i < |vs| ==> Acceptable(item, vs[i]) && Enc(item, vs[i]) == bs[i]
    ensures AllAcceptable(item, vs) && EncAll(item, vs) == Flatten(bs)
    decreases |vs|
  {
    hide Acceptable, Enc;
    if vs != [] {
      ItemsAre(item, vs[1..], bs[1..]);
    }
  }

  lemma CountedField(item: Shape, max: nat, vs: seq<Value>)
    requires AllAcceptable(item, vs) && |vs| < 0x1_0000_0000
    ensures Acceptable(Counted(item, max), Items(vs))
    ensures Enc(Counted(item, max), Items(vs)) == Be(|vs|, 4) + EncAll(item, vs)
    ensures Within(Counted(item, max), Items(vs)) ==> |vs| <= max
  {
  }

  lemma CountedReads(item: Shape, max: nat, s: Bytes)
    ensures Dec(Counted(item, max), s) ==
            match Dec(U32_FIELD, s)
            case Bad => Bad
            case Got(count, rest) =>
              if !count.Num? || count.n < 0 || count.n > max then Bad else DecAll(item, count.n, rest)
  {
  }

  lemma NoItems(head: Bytes, bs: seq<Bytes>)
    ensures head + Flatten(bs[..0]) == head
  {
    assert bs[..0] == [] && head + [] == head;
  }

  lemma OneMoreItem(head: Bytes, bs: seq<Bytes>, i: nat)
    requires i < |bs|
    ensures head + Flatten(bs[..i + 1]) == head + Flatten(bs[..i]) + bs[i]
  {
    assert bs[..i + 1] == bs[..i] + [bs[i]];
    FlattenSnoc(bs[..i], bs[i]);
    Assoc(head, Flatten(bs[..i]), bs[i]);
  }

  // ---- The records of module Messages ------------------------------------------------------------

  function OptionalStr(o: Option<Bytes>): Bytes {
    match o
    case None => [0]
    case Some(s) => [1] + Str(s)
  }

  predicate OptionalFits(o: Option<Bytes>) { o.Some? ==> |o.value| <= 512 }

  lemma OptionalField(o: Option<Bytes>)
    ensures Acceptable(Optional(Text), OptionalValue(o)) <==> OptionalFits(o)
    ensures OptionalFits(o) ==> Enc(Optional(Text), OptionalValue(o)) == OptionalStr(o)
  {
    if o.Some? { TextField(o.value); }
  }

  lemma ListReqShape(q: ListReq)
    ensures Acceptable(ShapeOf(ListArtifactsReq), ListReqValue(q)) <==> OptionalFits(q.ns) && OptionalFits(q.name)
    ensures OptionalFits(q.ns) && OptionalFits(q.name) ==>
              Enc(ShapeOf(ListArtifactsReq), ListReqValue(q)) ==
              OptionalStr(q.ns) + (OptionalStr(q.name) + (Be(q.limit, 4) + Be(q.offset, 4)))
  {
    OptionalField(q.ns);
    OptionalField(q.name);
    ListReqParts(q);
    hide Enc, Acceptable, Be, OptionalStr, OptionalFits, OptionalValue;
  }

  lemma SummaryShape(m: Summary)
    ensures Acceptable(SUMMARY, SummaryValue(m)) <==> RefFits(m.ref) && |m.digest| == 64 && |m.creator| <= 512
    ensures RefFits(m.ref) && |m.digest| == 64 && |m.creator| <= 512 ==>
              Enc(SUMMARY, SummaryValue(m)) ==
              RefBytes(m.ref) + (Be(m.size, 8) + (m.digest + (Str(m.creator) + Word64(m.createdAt))))
  {
    RefField(m.ref);
    DigestField(m.digest);
    TextField(m.creator);
    SignedFields(0, m.createdAt);
    SummaryParts(m);
    hide Enc, Acceptable, Be, Str, Word64, RefBytes, RefFits, RefValue;
  }

  /** A LIST_ARTIFACTS reply: the count, and the summaries, 4096 of them at most. */
  lemma SummariesShape(items: seq<Summary>)
    requires |items| < 0x1_0000_0000 && AllAcceptable(SUMMARY, SummaryValues(items))
    ensures var v := Items(SummaryValues(items));
            && Enc(ShapeOf(ListArtifactsOk), v) == Be(|items|, 4) + EncAll(SUMMARY, SummaryValues(items))
            && (Within(ShapeOf(ListArtifactsOk), v) ==> |items| <= 4096)
  {
    CountedField(SUMMARY, 4096, SummaryValues(items));
    SummariesCounted();
    hide *;
  }

  lemma SummariesCounted()
    ensures ShapeOf(ListArtifactsOk) == Counted(SUMMARY, 4096)
    ensures forall items: seq<Summary> :: |SummaryValues(items)| == |items|
  {
  }

  lemma ChunkReqShape(q: ChunkReq)
    ensures Acceptable(ShapeOf(PutChunkReq), ChunkReqValue(q)) <==> |q.session| <= 512
    ensures |q.session| <= 512 ==>
              Enc(ShapeOf(PutChunkReq), ChunkReqValue(q)) == Str(q.session) + (Be(q.ordinal, 8) + q.data)
  {
    hide Enc, Acceptable, Str, Be;
    TextField(q.session);
    WordFields(0, q.ordinal);
    RestField(q.data);
    ThenParts(U64_FIELD, Rest, Num(q.ordinal), Raw(q.data));
    ThenParts(Text, Then(U64_FIELD, Rest), Raw(q.session), Both(Num(q.ordinal), Raw(q.data)));
  }

  // ---- The record of module ManifestCodec ----------------------------------------------------------

  lemma EntryShape(e: M.Entry)
    ensures Acceptable(ENTRY, M.EntryValue(e)) <==> |e.digest| == 64
    ensures |e.digest| == 64 ==>
              Enc(ENTRY, M.EntryValue(e)) == Be(e.ordinal, 4) + (Be(e.offset, 8) + (Be(e.length, 8) + e.digest))
  {
    M.EntryParts(e);
    DigestField(e.digest);
    hide Enc, Acceptable, Be, M.EntryValue;
  }

  /** The SHOW_ARTIFACT reply. */
  lemma InfoShape(x: M.Info)
    requires M.FieldsOk(x)
    ensures M.InfoBytes(x) ==
            RefBytes(x.ref) + (Be(x.size, 8) + (x.digest + (Be(x.chunkSize, 8) + (Str(x.creator)
            + (Word64(x.createdAt) + (Str(x.note) + M.ManifestBytes(x.chunks)))))))
    ensures M.ManifestBytes(x.chunks) ==
            Be(|x.chunks| % 0x1_0000_0000, 4) + EncAll(ENTRY, M.EntryValues(x.chunks))
  {
    RefField(x.ref);
    DigestField(x.digest);
    TextField(x.creator);
    TextField(x.note);
    SignedFields(0, x.createdAt);
    M.CreatedAtIs(x);
    hide Enc, Acceptable, Be, Str, Word64, RefBytes, RefFits, RefValue, EncAll, AllAcceptable, M.EntryValues,
         M.CreatedAt;
  }

  /** Its decoder takes 1048576 entries at most. */
  lemma EntriesCounted()
    ensures SHOW_TAIL == Then(U64_FIELD, Then(Text, Then(I64_FIELD, Then(Text, Counted(ENTRY, 1048576)))))
    ensures ShapeOf(ShowArtifactOk) == Then(REF, Then(U64_FIELD, Then(Digest, SHOW_TAIL)))
  {
  }

  // ---- One user of a USER_LIST reply -------------------------------------------------------

  datatype UserItem = UserItem(username: Bytes, role: Byte, enabled: bool, createdAt: I64)

  function UserItemValue(x: UserItem): Value {
    Both(Raw(x.username), Both(Num(x.role), Both(Bool(x.enabled), Num(x.createdAt))))
  }

  /** Its payload. */
  function UserItemBytes(x: UserItem): Bytes {
    Str(x.username) + ([x.role] + (OneOrZero(x.enabled) + Word64(x.createdAt)))
  }

  predicate UserItemFits(x: UserItem) { |x.username| <= 512 }

  /** The shape says the same. */
  lemma UserItemShape(x: UserItem)
    ensures Acceptable(USER, UserItemValue(x)) <==> UserItemFits(x)
    ensures UserItemFits(x) ==> Enc(USER, UserItemValue(x)) == UserItemBytes(x)
  {
    hide Enc, Acceptable, Str, Be, Word32, Word64, OneOrZero, RefBytes, RefFits, RefValue;
    TextField(x.username);
    ByteField(x.role);
    FlagField(x.enabled);
    SignedFields(0, x.createdAt);
    var s3, v3 := I64_FIELD, Num(x.createdAt);
    ThenParts(Flag, s3, Bool(x.enabled), v3);
    var s2, v2 := Then(Flag, s3), Both(Bool(x.enabled), v3);
    ThenParts(U8_FIELD, s2, Num(x.role), v2);
    var s1, v1 := Then(U8_FIELD, s2), Both(Num(x.role), v2);
    ThenParts(Text, s1, Raw(x.username), v1);
  }

  method EncodeUserItem(out: FrBuf, x: UserItem) returns (st: Status)
    requires Room(out, 524)
    modifies out, out.data
    ensures out.Valid() && (out.data == old(out.data) || fresh(out.data)) && out.len <= old(out.len) + 524
    ensures st == if UserItemFits(x) then OK else E_ARG
    ensures st == OK ==> out.Contents() == old(out.Contents()) + UserItemBytes(x)
  {
    hide IsCapacity, Str, Be, Word32, Word64, OneOrZero, RefBytes, RefFits;
    :- PutText(out, x.username);
    PutByte(out, x.role);
    PutFlag(out, x.enabled);
    PutWord64(out, x.createdAt);
    Nest4(old(out.Contents()), Str(x.username), [x.role], OneOrZero(x.enabled), Word64(x.createdAt));
    st := OK;
  }

  method DecodeUserItem(src: Reader) returns (r: Result<UserItem>)
    requires src.Valid()
    modifies src
    ensures src.Valid()
    ensures match Dec(USER, old(Unread(src)))
            case Bad => r == Err(E_PROTOCOL)
            case Got(v, rest) => r.Ok? && v == UserItemValue(r.value) && Unread(src) == rest
  {
    hide Dec, RefValue;
    ThenReads(Text, Then(U8_FIELD, Then(Flag, I64_FIELD)), Unread(src));
    var username :- GetText(src);
    ThenReads(U8_FIELD, Then(Flag, I64_FIELD), Unread(src));
    var role :- GetByte(src);
    ThenReads(Flag, I64_FIELD, Unread(src));
    var enabled :- GetFlag(src);
    var createdAt :- GetSigned64(src);
    return Ok(UserItem(username, role, enabled, createdAt));
  }

  // ---- USER_LIST reply ---------------------------------------------------------------------

  function UsersValues(items: seq<UserItem>): (vs: seq<Value>)
    ensures |vs| == |items| && forall i :: 0 <= i < |items| ==> vs[i] == UserItemValue(items[i])
  {
    seq(|items|, i requires 0 <= i < |items| => UserItemValue(items[i]))
  }

  function UsersPieces(items: seq<UserItem>): (bs: seq<Bytes>)
    ensures |bs| == |items| && forall i :: 0 <= i < |items| ==> bs[i] == UserItemBytes(items[i])
  {
    seq(|items|, i requires 0 <= i < |items| => UserItemBytes(items[i]))
  }

  predicate UsersFit(items: seq<UserItem>) { forall i :: 0 <= i < |items| ==> UserItemFits(items[i]) }

  /** The shape says: the count, and the items one after the other, 4096 of them at most. */
  lemma UsersShape(items: seq<UserItem>)
    requires |items| < 0x1_0000_0000 && UsersFit(items)
    ensures var v := Items(UsersValues(items));
            && Acceptable(ShapeOf(UserListOk), v)
            && Enc(ShapeOf(UserListOk), v) == Be(|items|, 4) + Flatten(UsersPieces(items))
            && (Within(ShapeOf(UserListOk), v) ==> |items| <= 4096)
  {
    hide *;
    var vs, bs := UsersValues(items), UsersPieces(items);
    forall i | 0 <= i < |items| ensures Acceptable(USER, vs[i]) && Enc(USER, vs[i]) == bs[i] {
      UsersFitting(items, i);
      UserItemShape(items[i]);
    }
    ItemsAre(USER, vs, bs);
    CountedField(USER, 4096, vs);
    UsersCounted();
  }

  lemma UsersFitting(items: seq<UserItem>, i: nat)
    requires UsersFit(items) && i < |items|
    ensures UserItemFits(items[i])
  {
    hide UserItemFits;
  }

  lemma UsersCounted()
    ensures ShapeOf(UserListOk) == Counted(USER, 4096)
  {
  }

  method EncodeUsers(out: FrBuf, items: seq<UserItem>) returns (st: Status)
    requires |items| < 0x1_0000_0000 && Room(out, 4 + |items| * 524)
    modifies out, out.data
    ensures out.Valid() && (st == if UsersFit(items) then OK else E_ARG)
    ensures st == OK ==> out.Contents() == old(out.Contents()) + (Be(|items|, 4) + Flatten(UsersPieces(items)))
  {
    hide IsCapacity, Be, Flatten, UserItemFits, UserItemBytes;
    ghost var bs := UsersPieces(items);
    ghost var head := old(out.Contents()) + Be(|items|, 4);
    PutU32(out, |items|);
    NoItems(head, bs);
    for i := 0 to |items|
      invariant out.Valid() && (out.data == old(out.data) || fresh(out.data))
      invariant out.len + (|items| - i) * 524 <= 0x8000_0000_0000_0000
      invariant (forall j :: 0 <= j < i ==> UserItemFits(items[j])) && out.Contents() == head + Flatten(bs[..i])
    {
      OneMoreItem(head, bs, i);
      :- EncodeUserItem(out, items[i]);
    }
    assert bs[..|items|] == bs;
    Assoc(old(out.Contents()), Be(|items|, 4), Flatten(bs));
    return OK;
  }

  method DecodeUsers(src: Reader) returns (r: Result<seq<UserItem>>)
    requires src.Valid()
    modifies src
    ensures src.Valid()
    ensures match Dec(ShapeOf(UserListOk), old(Unread(src)))
            case Bad => r == Err(E_PROTOCOL)
            case Got(v, rest) => r.Ok? && v == Items(UsersValues(r.value)) && Unread(src) == rest
  {
    CountedReads(USER, 4096, Unread(src));
    UsersCounted();
    hide *;
    var count :- GetU32(src);
    if count > 4096 {
      return Err(E_PROTOCOL);
    }
    r := DecodeUserItems(src, count);
  }

  method DecodeUserItems(src: Reader, count: nat) returns (r: Result<seq<UserItem>>)
    requires src.Valid()
    modifies src
    ensures src.Valid()
    ensures match DecAll(USER, count, old(Unread(src)))
            case Bad => r == Err(E_PROTOCOL)
            case Got(v, rest) => r.Ok? && v == Items(UsersValues(r.value)) && Unread(src) == rest
  {
    hide Dec, DecAll, UserItemValue, DecNumber, UsersValues;
    ghost var all := DecAll(USER, count, Unread(src));
    var items: seq<UserItem> := [];
    assert UsersValues([]) == [];
    PrependNothing(USER, count, Unread(src));
    for i := 0 to count
      invariant src.Valid() && |items| == i
      invariant Prepend(UsersValues(items), DecAll(USER, count - i, Unread(src))) == all
    {
      DecAllStep(USER, count - i, Unread(src), UsersValues(items));
      var item :- DecodeUserItem(src);
      UsersSnoc(items, item);
      items := items + [item];
    }
    NoneLeft(USER, Unread(src), UsersValues(items));
    return Ok(items);
  }

  lemma UsersSnoc(items: seq<UserItem>, x: UserItem)
    ensures UsersValues(items + [x]) == UsersValues(items) + [UserItemValue(x)]
  {
  }

  // ---- One token of a TOKEN_LIST reply -----------------------------------------------------

  datatype TokenItem = TokenItem(id: U64, username: Bytes, createdAt: I64, expiresAt: I64, revoked: bool)

  function TokenItemValue(x: TokenItem): Value {
    Both(Num(x.id), Both(Raw(x.username), Both(Num(x.createdAt), Both(Num(x.expiresAt), Bool(x.revoked)))))
  }

  /** Its payload. */
  function TokenItemBytes(x: TokenItem): Bytes {
    Be(x.id, 8) + (Str(x.username) + (Word64(x.createdAt) + (Word64(x.expiresAt) + OneOrZero(x.revoked))))
  }

  predicate TokenItemFits(x: TokenItem) { |x.username| <= 512 }

  /** The shape says the same. */
  lemma TokenItemShape(x: TokenItem)
    ensures Acceptable(TOKEN, TokenItemValue(x)) <==> TokenItemFits(x)
    ensures TokenItemFits(x) ==> Enc(TOKEN, TokenItemValue(x)) == TokenItemBytes(x)
  {
    hide Enc, Acceptable, Str, Be, Word32, Word64, OneOrZero, RefBytes, RefFits, RefValue;
    WordFields(0, x.id);
    TextField(x.username);
    SignedFields(0, x.createdAt);
    SignedFields(0, x.expiresAt);
    FlagField(x.revoked);
    var s4, v4 := Flag, Bool(x.revoked);
    ThenParts(I64_FIELD, s4, Num(x.expiresAt), v4);
    var s3, v3 := Then(I64_FIELD, s4), Both(Num(x.expiresAt), v4);
    ThenParts(I64_FIELD, s3, Num(x.createdAt), v3);
    var s2, v2 := Then(I64_FIELD, s3), Both(Num(x.createdAt), v3);
    ThenParts(Text, s2, Raw(x.username), v2);
    var s1, v1 := Then(Text, s2), Both(Raw(x.username), v2);
    ThenParts(U64_FIELD, s1, Num(x.id), v1);
  }

  method EncodeTokenItem(out: FrBuf, x: TokenItem) returns (st: Status)
    requires Room(out, 539)
    modifies out, out.data
    ensures out.Valid() && (out.data == old(out.data) || fresh(out.data)) && out.len <= old(out.len) + 539
    ensures st == if TokenItemFits(x) then OK else E_ARG
    ensures st == OK ==> out.Contents() == old(out.Contents()) + TokenItemBytes(x)
  {
    hide IsCapacity, Str, Be, Word32, Word64, OneOrZero, RefBytes, RefFits;
    PutU64(out, x.id);
    :- PutText(out, x.username);
    PutWord64(out, x.createdAt);
    PutWord64(out, x.expiresAt);
    PutFlag(out, x.revoked);
    Nest5(old(out.Contents()), Be(x.id, 8), Str(x.username), Word64(x.createdAt), Word64(x.expiresAt)
          , OneOrZero(x.revoked));
    st := OK;
  }

  method DecodeTokenItem(src: Reader) returns (r: Result<TokenItem>)
    requires src.Valid()
    modifies src
    ensures src.Valid()
    ensures match Dec(TOKEN, old(Unread(src)))
            case Bad => r == Err(E_PROTOCOL)
            case Got(v, rest) => r.Ok? && v == TokenItemValue(r.value) && Unread(src) == rest
  {
    hide Dec, RefValue;
    ThenReads(U64_FIELD, Then(Text, Then(I64_FIELD, Then(I64_FIELD, Flag))), Unread(src));
    var id :- GetU64(src);
    ThenReads(Text, Then(I64_FIELD, Then(I64_FIELD, Flag)), Unread(src));
    var username :- GetText(src);
    ThenReads(I64_FIELD, Then(I64_FIELD, Flag), Unread(src));
    var createdAt :- GetSigned64(src);
    ThenReads(I64_FIELD, Flag, Unread(src));
    var expiresAt :- GetSigned64(src);
    var revoked :- GetFlag(src);
    return Ok(TokenItem(id, username, createdAt, expiresAt, revoked));
  }

  // ---- TOKEN_LIST reply --------------------------------------------------------------------

  function TokensValues(items: seq<TokenItem>): (vs: seq<Value>)
    ensures |vs| == |items| && forall i :: 0 <= i < |items| ==> vs[i] == TokenItemValue(items[i])
  {
    seq(|items|, i requires 0 <= i < |items| => TokenItemValue(items[i]))
  }

  function TokensPieces(items: seq<TokenItem>): (bs: seq<Bytes>)
    ensures |bs| == |items| && forall i :: 0 <= i < |items| ==> bs[i] == TokenItemBytes(items[i])
  {
    seq(|items|, i requires 0 <= i < |items| => TokenItemBytes(items[i]))
  }

  predicate TokensFit(items: seq<TokenItem>) { forall i :: 0 <= i < |items| ==> TokenItemFits(items[i]) }

  /** The shape says: the count, and the items one after the other, 4096 of them at most. */
  lemma TokensShape(items: seq<TokenItem>)
    requires |items| < 0x1_0000_0000 && TokensFit(items)
    ensures var v := Items(TokensValues(items));
            && Acceptable(ShapeOf(TokenListOk), v)
            && Enc(ShapeOf(TokenListOk), v) == Be(|items|, 4) + Flatten(TokensPieces(items))
            && (Within(ShapeOf(TokenListOk), v) ==> |items| <= 4096)
  {
    hide *;
    var vs, bs := TokensValues(items), TokensPieces(items);
    forall i | 0 <= i < |items| ensures Acceptable(TOKEN, vs[i]) && Enc(TOKEN, vs[i]) == bs[i] {
      TokensFitting(items, i);
      TokenItemShape(items[i]);
    }
    ItemsAre(TOKEN, vs, bs);
    CountedField(TOKEN, 4096, vs);
    TokensCounted();
  }

  lemma TokensFitting(items: seq<TokenItem>, i: nat)
    requires TokensFit(items) && i < |items|
    ensures TokenItemFits(items[i])
  {
    hide TokenItemFits;
  }

  lemma TokensCounted()
    ensures ShapeOf(TokenListOk) == Counted(TOKEN, 4096)
  {
  }

  method EncodeTokens(out: FrBuf, items: seq<TokenItem>) returns (st: Status)
    requires |items| < 0x1_0000_0000 && Room(out, 4 + |items| * 539)
    modifies out, out.data
    ensures out.Valid() && (st == if TokensFit(items) then OK else E_ARG)
    ensures st == OK ==> out.Contents() == old(out.Contents()) + (Be(|items|, 4) + Flatten(TokensPieces(items)))
  {
    hide IsCapacity, Be, Flatten, TokenItemFits, TokenItemBytes;
    ghost var bs := TokensPieces(items);
    ghost var head := old(out.Contents()) + Be(|items|, 4);
    PutU32(out, |items|);
    NoItems(head, bs);
    for i := 0 to |items|
      invariant out.Valid() && (out.data == old(out.data) || fresh(out.data))
      invariant out.len + (|items| - i) * 539 <= 0x8000_0000_0000_0000
      invariant (forall j :: 0 <= j < i ==> TokenItemFits(items[j])) && out.Contents() == head + Flatten(bs[..i])
    {
      OneMoreItem(head, bs, i);
      :- EncodeTokenItem(out, items[i]);
    }
    assert bs[..|items|] == bs;
    Assoc(old(out.Contents()), Be(|items|, 4), Flatten(bs));
    return OK;
  }

  method DecodeTokens(src: Reader) returns (r: Result<seq<TokenItem>>)
    requires src.Valid()
    modifies src
    ensures src.Valid()
    ensures match Dec(ShapeOf(TokenListOk), old(Unread(src)))
            case Bad => r == Err(E_PROTOCOL)
            case Got(v, rest) => r.Ok? && v == Items(TokensValues(r.value)) && Unread(src) == rest
  {
    CountedReads(TOKEN, 4096, Unread(src));
    TokensCounted();
    hide *;
    var count :- GetU32(src);
    if count > 4096 {
      return Err(E_PROTOCOL);
    }
    r := DecodeTokenItems(src, count);
  }

  method DecodeTokenItems(src: Reader, count: nat) returns (r: Result<seq<TokenItem>>)
    requires src.Valid()
    modifies src
    ensures src.Valid()
    ensures match DecAll(TOKEN, count, old(Unread(src)))
            case Bad => r == Err(E_PROTOCOL)
            case Got(v, rest) => r.Ok? && v == Items(TokensValues(r.value)) && Unread(src) == rest
  {
    hide Dec, DecAll, TokenItemValue, DecNumber, TokensValues;
    ghost var all := DecAll(TOKEN, count, Unread(src));
    var items: seq<TokenItem> := [];
    assert TokensValues([]) == [];
    PrependNothing(TOKEN, count, Unread(src));
    for i := 0 to count
      invariant src.Valid() && |items| == i
      invariant Prepend(TokensValues(items), DecAll(TOKEN, count - i, Unread(src))) == all
    {
      DecAllStep(TOKEN, count - i, Unread(src), TokensValues(items));
      var item :- DecodeTokenItem(src);
      TokensSnoc(items, item);
      items := items + [item];
    }
    NoneLeft(TOKEN, Unread(src), TokensValues(items));
    return Ok(items);
  }

  lemma TokensSnoc(items: seq<TokenItem>, x: TokenItem)
    ensures TokensValues(items + [x]) == TokensValues(items) + [TokenItemValue(x)]
  {
  }

  // ---- One session of a SESSION_LIST reply -------------------------------------------------

  datatype SessionItem = SessionItem(session: Bytes, owner: Bytes, state: Byte, ref: Ref, size: U64, createdAt: I64)

  function SessionItemValue(x: SessionItem): Value {
    Both(Raw(x.session), Both(Raw(x.owner), Both(Num(x.state), Both(RefValue(x.ref),
      Both(Num(x.size), Num(x.createdAt))))))
  }

  /** Its payload. */
  function SessionItemBytes(x: SessionItem): Bytes {
    Str(x.session) + (Str(x.owner) + ([x.state] + (RefBytes(x.ref) + (Be(x.size, 8) + Word64(x.createdAt)))))
  }

  predicate SessionItemFits(x: SessionItem) { |x.session| <= 512 && |x.owner| <= 512 && RefFits(x.ref) }

  /** The shape says the same. */
  lemma SessionItemShape(x: SessionItem)
    ensures Acceptable(SESSION, SessionItemValue(x)) <==> SessionItemFits(x)
    ensures SessionItemFits(x) ==> Enc(SESSION, SessionItemValue(x)) == SessionItemBytes(x)
  {
    hide Enc, Acceptable, Str, Be, Word32, Word64, OneOrZero, RefBytes, RefFits, RefValue;
    TextField(x.session);
    TextField(x.owner);
    ByteField(x.state);
    RefField(x.ref);
    WordFields(0, x.size);
    SignedFields(0, x.createdAt);
    var s5, v5 := I64_FIELD, Num(x.createdAt);
    ThenParts(U64_FIELD, s5, Num(x.size), v5);
    var s4, v4 := Then(U64_FIELD, s5), Both(Num(x.size), v5);
    ThenParts(REF, s4, RefValue(x.ref), v4);
    var s3, v3 := Then(REF, s4), Both(RefValue(x.ref), v4);
    ThenParts(U8_FIELD, s3, Num(x.state), v3);
    var s2, v2 := Then(U8_FIELD, s3), Both(Num(x.state), v3);
    ThenParts(Text, s2, Raw(x.owner), v2);
    var s1, v1 := Then(Text, s2), Both(Raw(x.owner), v2);
    ThenParts(Text, s1, Raw(x.session), v1);
  }

  method EncodeSessionItem(out: FrBuf, x: SessionItem) returns (st: Status)
    requires Room(out, 2587)
    modifies out, out.data
    ensures out.Valid() && (out.data == old(out.data) || fresh(out.data)) && out.len <= old(out.len) + 2587
    ensures st == if SessionItemFits(x) then OK else E_ARG
    ensures st == OK ==> out.Contents() == old(out.Contents()) + SessionItemBytes(x)
  {
    hide IsCapacity, Str, Be, Word32, Word64, OneOrZero, RefBytes, RefFits;
    :- PutText(out, x.session);
    :- PutText(out, x.owner);
    PutByte(out, x.state);
    :- PutTriple(out, x.ref);
    PutU64(out, x.size);
    PutWord64(out, x.createdAt);
    Nest6(old(out.Contents()), Str(x.session), Str(x.owner), [x.state], RefBytes(x.ref), Be(x.size, 8)
          , Word64(x.createdAt));
    st := OK;
  }

  method DecodeSessionItem(src: Reader) returns (r: Result<SessionItem>)
    requires src.Valid()
    modifies src
    ensures src.Valid()
    ensures match Dec(SESSION, old(Unread(src)))
            case Bad => r == Err(E_PROTOCOL)
            case Got(v, rest) => r.Ok? && v == SessionItemValue(r.value) && Unread(src) == rest
  {
    hide Dec, RefValue;
    ThenReads(Text, Then(Text, Then(U8_FIELD, Then(REF, Then(U64_FIELD, I64_FIELD)))), Unread(src));
    var session :- GetText(src);
    ThenReads(Text, Then(U8_FIELD, Then(REF, Then(U64_FIELD, I64_FIELD))), Unread(src));
    var owner :- GetText(src);
    ThenReads(U8_FIELD, Then(REF, Then(U64_FIELD, I64_FIELD)), Unread(src));
    var state :- GetByte(src);
    ThenReads(REF, Then(U64_FIELD, I64_FIELD), Unread(src));
    var ref :- GetRef(src);
    ThenReads(U64_FIELD, I64_FIELD, Unread(src));
    var size :- GetU64(src);
    var createdAt :- GetSigned64(src);
    return Ok(SessionItem(session, owner, state, ref, size, createdAt));
  }

  // ---- SESSION_LIST reply ------------------------------------------------------------------

  function SessionsValues(items: seq<SessionItem>): (vs: seq<Value>)
    ensures |vs| == |items| && forall i :: 0 <= i < |items| ==> vs[i] == SessionItemValue(items[i])
  {
    seq(|items|, i requires 0 <= i < |items| => SessionItemValue(items[i]))
  }

  function SessionsPieces(items: seq<SessionItem>): (bs: seq<Bytes>)
    ensures |bs| == |items| && forall i :: 0 <= i < |items| ==> bs[i] == SessionItemBytes(items[i])
  {
    seq(|items|, i requires 0 <= i < |items| => SessionItemBytes(items[i]))
  }

  predicate SessionsFit(items: seq<SessionItem>) { forall i :: 0 <= i < |items| ==> SessionItemFits(items[i]) }

  /** The shape says: the count, and the items one after the other, 4096 of them at most. */
  lemma SessionsShape(items: seq<SessionItem>)
    requires |items| < 0x1_0000_0000 && SessionsFit(items)
    ensures var v := Items(SessionsValues(items));
            && Acceptable(ShapeOf(SessionListOk), v)
            && Enc(ShapeOf(SessionListOk), v) == Be(|items|, 4) + Flatten(SessionsPieces(items))
            && (Within(ShapeOf(SessionListOk), v) ==> |items| <= 4096)
  {
    hide *;
    var vs, bs := SessionsValues(items), SessionsPieces(items);
    forall i | 0 <= i < |items| ensures Acceptable(SESSION, vs[i]) && Enc(SESSION, vs[i]) == bs[i] {
      SessionsFitting(items, i);
      SessionItemShape(items[i]);
    }
    ItemsAre(SESSION, vs, bs);
    CountedField(SESSION, 4096, vs);
    SessionsCounted();
  }

  lemma SessionsFitting(items: seq<SessionItem>, i: nat)
    requires SessionsFit(items) && i < |items|
    ensures SessionItemFits(items[i])
  {
    hide SessionItemFits;
  }

  lemma SessionsCounted()
    ensures ShapeOf(SessionListOk) == Counted(SESSION, 4096)
  {
  }

  method EncodeSessions(out: FrBuf, items: seq<SessionItem>) returns (st: Status)
    requires |items| < 0x1_0000_0000 && Room(out, 4 + |items| * 2587)
    modifies out, out.data
    ensures out.Valid() && (st == if SessionsFit(items) then OK else E_ARG)
    ensures st == OK ==> out.Contents() == old(out.Contents()) + (Be(|items|, 4) + Flatten(SessionsPieces(items)))
  {
    hide IsCapacity, Be, Flatten, SessionItemFits, SessionItemBytes;
    ghost var bs := SessionsPieces(items);
    ghost var head := old(out.Contents()) + Be(|items|, 4);
    PutU32(out, |items|);
    NoItems(head, bs);
    for i := 0 to |items|
      invariant out.Valid() && (out.data == old(out.data) || fresh(out.data))
      invariant out.len + (|items| - i) * 2587 <= 0x8000_0000_0000_0000
      invariant (forall j :: 0 <= j < i ==> SessionItemFits(items[j])) && out.Contents() == head + Flatten(bs[..i])
    {
      OneMoreItem(head, bs, i);
      :- EncodeSessionItem(out, items[i]);
    }
    assert bs[..|items|] == bs;
    Assoc(old(out.Contents()), Be(|items|, 4), Flatten(bs));
    return OK;
  }

  method DecodeSessions(src: Reader) returns (r: Result<seq<SessionItem>>)
    requires src.Valid()
    modifies src
    ensures src.Valid()
    ensures match Dec(ShapeOf(SessionListOk), old(Unread(src)))
            case Bad => r == Err(E_PROTOCOL)
            case Got(v, rest) => r.Ok? && v == Items(SessionsValues(r.value)) && Unread(src) == rest
  {
    CountedReads(SESSION, 4096, Unread(src));
    SessionsCounted();
    hide *;
    var count :- GetU32(src);
    if count > 4096 {
      return Err(E_PROTOCOL);
    }
    r := DecodeSessionItems(src, count);
  }

  method DecodeSessionItems(src: Reader, count: nat) returns (r: Result<seq<SessionItem>>)
    requires src.Valid()
    modifies src
    ensures src.Valid()
    ensures match DecAll(SESSION, count, old(Unread(src)))
            case Bad => r == Err(E_PROTOCOL)
            case Got(v, rest) => r.Ok? && v == Items(SessionsValues(r.value)) && Unread(src) == rest
  {
    hide Dec, DecAll, SessionItemValue, DecNumber, SessionsValues;
    ghost var all := DecAll(SESSION, count, Unread(src));
    var items: seq<SessionItem> := [];
    assert SessionsValues([]) == [];
    PrependNothing(SESSION, count, Unread(src));
    for i := 0 to count
      invariant src.Valid() && |items| == i
      invariant Prepend(SessionsValues(items), DecAll(SESSION, count - i, Unread(src))) == all
    {
      DecAllStep(SESSION, count - i, Unread(src), SessionsValues(items));
      var item :- DecodeSessionItem(src);
      SessionsSnoc(items, item);
      items := items + [item];
    }
    NoneLeft(SESSION, Unread(src), SessionsValues(items));
    return Ok(items);
  }

  lemma SessionsSnoc(items: seq<SessionItem>, x: SessionItem)
    ensures SessionsValues(items + [x]) == SessionsValues(items) + [SessionItemValue(x)]
  {
  }
}
