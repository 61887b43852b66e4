/** The payload format of `fr_messages.cpp` as shapes built from the primitive
    fields: what bytes a value becomes, what bytes mean, and that the two agree for
    every message. */
module Wire {
  import opened Bytes
  import opened ByteOrder

  const MAX_STRING_LEN: nat := 512
  const DIGEST_HEX_LEN: nat := 64
  const MAX_LIST: nat := 4096
  const MAX_MANIFEST: nat := 1024 * 1024
  const MAX_BITMAP: nat := 1024 * 1024
  const PROTOCOL_VERSION: Byte := 1

  datatype Shape =
    | Number(width: nat)             // put_u8, put_u32, put_u64
    | Signed(width: nat)             // put_i32, put_i64: two's complement
    | Version                        // the protocol version byte of HELLO
    | Flag                           // a bool as one byte
    | Text                           // u16 length, at most 512 bytes
    | Digest                         // 64 bytes
    | Bitmap                         // u32 length, at most 1 MiB
    | Optional(inner: Shape)         // presence byte
    | Counted(item: Shape, max: nat) // u32 count
    | Then(first: Shape, second: Shape)
    | Rest                           // whatever is left of the payload

  datatype Value =
    | Num(n: int)
    | Bool(b: bool)
    | Raw(bytes: Bytes)
    | Absent
    | Present(value: Value)
    | Items(items: seq<Value>)
    | Both(first: Value, second: Value)

  // ---- Encoding ----------------------------------------------------------------------

  /** The values an encoder accepts without throwing. It does not check how long a
      list is, nor the protocol version. */
  predicate Acceptable(shape: Shape, v: Value)
    decreases shape, 0
  {
    match shape
    case Number(w) => v.Num? && 0 <= v.n < Pow256(w)
    case Signed(w) => v.Num? && 0 - Pow256(w) <= 2 * v.n < Pow256(w)
    case Version => v.Num? && 0 <= v.n < 256
    case Flag => v.Bool?
    case Text => v.Raw? && |v.bytes| <= MAX_STRING_LEN
    case Digest => v.Raw? && |v.bytes| == DIGEST_HEX_LEN
    case Bitmap => v.Raw? && |v.bytes| <= MAX_BITMAP
    case Optional(inner) => v.Absent? || (v.Present? && Acceptable(inner, v.value))
    case Counted(item, _) => v.Items? && |v.items| < 0x1_0000_0000 && AllAcceptable(item, v.items)
    case Then(a, b) => v.Both? && Acceptable(a, v.first) && Acceptable(b, v.second)
    case Rest => v.Raw?
  }

  predicate AllAcceptable(item: Shape, vs: seq<Value>)
    decreases item, |vs| + 1
  {
    vs == [] || (Acceptable(item, vs[0]) && AllAcceptable(item, vs[1..]))
  }

  /** static_cast to the unsigned type of the same width. */
  function Unsigned(n: int, w: nat): nat
    requires 0 - Pow256(w) <= 2 * n < Pow256(w)
  {
    if n < 0 then n + Pow256(w) else n
  }

  function ToSigned(u: nat, w: nat): int {
    if 2 * u < Pow256(w) then u else u - Pow256(w)
  }

  function Enc(shape: Shape, v: Value): Bytes
    requires Acceptable(shape, v)
    decreases shape, 0
  {
    match shape
    case Number(w) => Be(v.n, w)
    case Signed(w) => Be(Unsigned(v.n, w), w)
    case Version => Be(v.n, 1)
    case Flag => [if v.b then 1 else 0]
    case Text => Be(|v.bytes|, 2) + v.bytes
    case Digest => v.bytes
    case Bitmap => Be(|v.bytes|, 4) + v.bytes
    case Optional(inner) => if v.Absent? then [0] else [1] + Enc(inner, v.value)
    case Counted(item, _) => Be(|v.items|, 4) + EncAll(item, v.items)
    case Then(a, b) => Enc(a, v.first) + Enc(b, v.second)
    case Rest => v.bytes
  }

  function EncAll(item: Shape, vs: seq<Value>): Bytes
    requires AllAcceptable(item, vs)
    decreases item, |vs| + 1
  {
    if vs == [] then [] else Enc(item, vs[0]) + EncAll(item, vs[1..])
  }

  // ---- Decoding ---------------------------------------------------------------------

  /** A decoded value and the unread remainder, or FR_E_PROTOCOL. */
  datatype Decoded = Got(value: Value, rest: Bytes) | Bad

  function DecNumber(w: nat, s: Bytes): (d: Decoded)
    ensures d.Got? ==> d.value.Num? && 0 <= d.value.n < Pow256(w) && |s| == |d.rest| + w
  {
    BeLoad(s[..Min(w, |s|)]);
    if |s| < w then Bad else Got(Num(Load(s[..w])), s[w..])
  }

  /** n bytes taken as they are. */
  function DecRaw(n: nat, s: Bytes): Decoded {
    if |s| < n then Bad else Got(Raw(s[..n]), s[n..])
  }

  /** A length field of `w` bytes, at most `max`, then that many bytes. */
  function DecPrefixed(w: nat, max: nat, s: Bytes): Decoded {
    match DecNumber(w, s)
    case Bad => Bad
    case Got(len, rest) => if len.n > max then Bad else DecRaw(len.n, rest)
  }

  function Dec(shape: Shape, s: Bytes): Decoded
    decreases shape, 0
  {
    match shape
    case Number(w) => DecNumber(w, s)
    case Signed(w) =>
      (match DecNumber(w, s)
       case Bad => Bad
       case Got(u, rest) => Got(Num(ToSigned(u.n, w)), rest))
    case Version =>
      (match DecNumber(1, s)
       case Bad => Bad
       case Got(u, rest) => if u.n != PROTOCOL_VERSION then Bad else Got(u, rest))
    case Flag =>
      (match DecNumber(1, s)
       case Bad => Bad
       case Got(u, rest) => Got(Bool(u.n != 0), rest))
    case Text => DecPrefixed(2, MAX_STRING_LEN, s)
    case Digest => DecRaw(DIGEST_HEX_LEN, s)
    case Bitmap => DecPrefixed(4, MAX_BITMAP, s)
    case Optional(inner) =>
      (match DecNumber(1, s)
       case Bad => Bad
       case Got(u, rest) =>
         if u.n == 0 then Got(Absent, rest)
         else
           match Dec(inner, rest)
           case Bad => Bad
           case Got(v, rest2) => Got(Present(v), rest2))
    case Counted(item, max) =>
      (match DecNumber(4, s)
       case Bad => Bad
       case Got(count, rest) => if count.n > max then Bad else DecAll(item, count.n, rest))
    case Then(a, b) =>
      (match Dec(a, s)
       case Bad => Bad
       case Got(u, rest) =>
         match Dec(b, rest)
         case Bad => Bad
         case Got(v, rest2) => Got(Both(u, v), rest2))
    case Rest => Got(Raw(s), [])
  }

  function DecAll(item: Shape, count: nat, s: Bytes): (d: Decoded)
    ensures d.Got? ==> d.value.Items?
    decreases item, count + 1
  {
    if count == 0 then Got(Items([]), s)
    else
      match Dec(item, s)
      case Bad => Bad
      case Got(v, rest) =>
        match DecAll(item, count - 1, rest)
        case Bad => Bad
        case Got(vs, rest2) => Got(Items([v] + vs.items), rest2)
  }

  // ---- Shapes of messages --------------------------------------------------------------

  predicate HasRest(shape: Shape) {
    match shape
    case Optional(inner) => HasRest(inner)
    case Counted(item, _) => HasRest(item)
    case Then(a, b) => HasRest(a) || HasRest(b)
    case Rest => true
    case _ => false
  }

  /** The rest of the payload can only be the last field. */
  predicate WellFormed(shape: Shape) {
    match shape
    case Optional(inner) => WellFormed(inner) && !HasRest(inner)
    case Counted(item, max) => WellFormed(item) && !HasRest(item) && max < 0x1_0000_0000
    case Then(a, b) => WellFormed(a) && WellFormed(b) && !HasRest(a)
    case _ => true
  }

  /** What the decoder insists on beyond the encoder: list limits and the version. */
  predicate Within(shape: Shape, v: Value)
    requires Acceptable(shape, v)
    decreases shape, 0
  {
    match shape
    case Version => v.n == PROTOCOL_VERSION
    case Optional(inner) => v.Present? ==> Within(inner, v.value)
    case Counted(item, max) => |v.items| <= max && AllWithin(item, v.items)
    case Then(a, b) => Within(a, v.first) && Within(b, v.second)
    case _ => true
  }

  predicate AllWithin(item: Shape, vs: seq<Value>)
    requires AllAcceptable(item, vs)
    decreases item, |vs| + 1
  {
    vs == [] || (Within(item, vs[0]) && AllWithin(item, vs[1..]))
  }

  // ---- The round trip --------------------------------------------------------------------

  lemma NumberBack(n: nat, w: nat, tail: Bytes)
    requires n < Pow256(w)
    ensures DecNumber(w, Be(n, w) + tail) == Got(Num(n), tail)
  {
    LoadBe(n, w);
    assert (Be(n, w) + tail)[..w] == Be(n, w) && (Be(n, w) + tail)[w..] == tail;
  }

  lemma RawBack(p: Bytes, tail: Bytes)
    ensures DecRaw(|p|, p + tail) == Got(Raw(p), tail)
  {
    assert (p + tail)[..|p|] == p && (p + tail)[|p|..] == tail;
  }

  lemma PrefixedBack(w: nat, max: nat, p: Bytes, tail: Bytes)
    requires |p| <= max < Pow256(w)
    ensures DecPrefixed(w, max, Be(|p|, w) + p + tail) == Got(Raw(p), tail)
  {
    NumberBack(|p|, w, p + tail);
    assert Be(|p|, w) + p + tail == Be(|p|, w) + (p + tail);
    RawBack(p, tail);
  }

  lemma SignedBack(n: int, w: nat)
    requires 0 - Pow256(w) <= 2 * n < Pow256(w)
    ensures Unsigned(n, w) < Pow256(w) && ToSigned(Unsigned(n, w), w) == n
  {
  }

  lemma SmallWidths()
    ensures Pow256(1) == 256 && Pow256(2) == 0x1_0000 && Pow256(4) == 0x1_0000_0000
  {
    Widths();
  }

  lemma FlagBack(b: bool, tail: Bytes)
    ensures DecNumber(1, [if b then 1 else 0] + tail) == Got(Num(if b then 1 else 0), tail)
  {
    SmallWidths();
    var n := if b then 1 else 0;
    assert Be(n, 1) == Be(n / 256, 0) + [n % 256] == [n];
    NumberBack(n, 1, tail);
  }

  /** Main result: for every message the encoder accepts, decoding its bytes gives
      the message back and consumes exactly them when the decoder's own limits hold,
      and is a protocol error when they do not. */
  lemma {:induction false} RoundTrip(shape: Shape, v: Value, tail: Bytes)
    requires WellFormed(shape) && Acceptable(shape, v) && (HasRest(shape) ==> tail == [])
    ensures Dec(shape, Enc(shape, v) + tail) == if Within(shape, v) then Got(v, tail) else Bad
    decreases shape, 0
  {
    match shape {
      case Number(w) => NumberBack(v.n, w, tail);
      case Signed(w) =>
        SignedBack(v.n, w);
        NumberBack(Unsigned(v.n, w), w, tail);
      case Version =>
        SmallWidths();
        NumberBack(v.n, 1, tail);
      case Flag => FlagBack(v.b, tail);
      case Text =>
        SmallWidths();
        PrefixedBack(2, MAX_STRING_LEN, v.bytes, tail);
      case Digest => RawBack(v.bytes, tail);
      case Bitmap =>
        SmallWidths();
        PrefixedBack(4, MAX_BITMAP, v.bytes, tail);
      case Optional(inner) => OptionalBack(inner, v, tail);
      case Counted(item, max) => CountedBack(item, max, v, tail);
      case Then(a, b) => ThenBack(a, b, v, tail);
      case Rest => assert v.bytes + tail == v.bytes;
    }
  }

  lemma {:induction false} OptionalBack(inner: Shape, v: Value, tail: Bytes)
    requires WellFormed(inner) && !HasRest(inner) && Acceptable(Optional(inner), v)
    ensures Dec(Optional(inner), Enc(Optional(inner), v) + tail) ==
            if Within(Optional(inner), v) then Got(v, tail) else Bad
    decreases inner, 1
  {
    if v.Absent? {
      FlagBack(false, tail);
    } else {
      var body := Enc(inner, v.value);
      FlagBack(true, body + tail);
      assert [1] + body + tail == [1] + (body + tail);
      RoundTrip(inner, v.value, tail);
    }
  }

  lemma {:induction false} CountedBack(item: Shape, max: nat, v: Value, tail: Bytes)
    requires WellFormed(item) && !HasRest(item) && max < 0x1_0000_0000 && Acceptable(Counted(item, max), v)
    ensures Dec(Counted(item, max), Enc(Counted(item, max), v) + tail) ==
            if Within(Counted(item, max), v) then Got(v, tail) else Bad
    decreases item, |v.items| + 2
  {
    SmallWidths();
    var body := EncAll(item, v.items);
    NumberBack(|v.items|, 4, body + tail);
    assert Be(|v.items|, 4) + body + tail == Be(|v.items|, 4) + (body + tail);
    if |v.items| <= max {
      AllBack(item, v.items, tail);
    }
  }

  lemma {:induction false} AllBack(item: Shape, vs: seq<Value>, tail: Bytes)
    requires WellFormed(item) && !HasRest(item) && AllAcceptable(item, vs)
    ensures DecAll(item, |vs|, EncAll(item, vs) + tail) ==
            if AllWithin(item, vs) then Got(Items(vs), tail) else Bad
    decreases item, |vs| + 1
  {
    hide Enc, Dec, Acceptable, Within;
    if vs == [] {
      assert [] + tail == tail;
    } else {
      var rest := EncAll(item, vs[1..]);
      assert Enc(item, vs[0]) + rest + tail == Enc(item, vs[0]) + (rest + tail);
      RoundTrip(item, vs[0], rest + tail);
      AllBack(item, vs[1..], tail);
      assert [vs[0]] + vs[1..] == vs;
    }
  }

  lemma {:induction false} ThenBack(a: Shape, b: Shape, v: Value, tail: Bytes)
    requires WellFormed(a) && WellFormed(b) && !HasRest(a) && (HasRest(b) ==> tail == [])
    requires Acceptable(Then(a, b), v)
    ensures Dec(Then(a, b), Enc(Then(a, b), v) + tail) == if Within(Then(a, b), v) then Got(v, tail) else Bad
    decreases Then(a, b), -1
  {
    var p, q := Enc(a, v.first), Enc(b, v.second);
    assert p + q + tail == p + (q + tail);
    RoundTrip(a, v.first, q + tail);
    RoundTrip(b, v.second, tail);
  }

  // ---- What the decoder reads ------------------------------------------------------------

  lemma MoreNumber(w: nat, s: Bytes, t: Bytes)
    requires DecNumber(w, s).Got?
    ensures DecNumber(w, s + t) == Got(DecNumber(w, s).value, DecNumber(w, s).rest + t)
  {
    assert (s + t)[..w] == s[..w] && (s + t)[w..] == s[w..] + t;
  }

  lemma MoreRaw(n: nat, s: Bytes, t: Bytes)
    requires DecRaw(n, s).Got?
    ensures DecRaw(n, s + t) == Got(DecRaw(n, s).value, DecRaw(n, s).rest + t)
  {
    assert (s + t)[..n] == s[..n] && (s + t)[n..] == s[n..] + t;
  }

  lemma MorePrefixed(w: nat, max: nat, s: Bytes, t: Bytes)
    requires DecPrefixed(w, max, s).Got?
    ensures DecPrefixed(w, max, s + t) == Got(DecPrefixed(w, max, s).value, DecPrefixed(w, max, s).rest + t)
  {
    MoreNumber(w, s, t);
    MoreRaw(DecNumber(w, s).value.n, DecNumber(w, s).rest, t);
  }

  /** A field is decided by its own bytes: what follows is left alone. */
  lemma {:induction false} Extends(shape: Shape, s: Bytes, t: Bytes)
    requires !HasRest(shape) && Dec(shape, s).Got?
    ensures Dec(shape, s + t) == Got(Dec(shape, s).value, Dec(shape, s).rest + t)
    decreases shape, 0
  {
    match shape {
      case Number(w) => MoreNumber(w, s, t);
      case Signed(w) => MoreNumber(w, s, t);
      case Version => MoreNumber(1, s, t);
      case Flag => MoreNumber(1, s, t);
      case Text => MorePrefixed(2, MAX_STRING_LEN, s, t);
      case Digest => MoreRaw(DIGEST_HEX_LEN, s, t);
      case Bitmap => MorePrefixed(4, MAX_BITMAP, s, t);
      case Optional(inner) =>
        MoreNumber(1, s, t);
        if DecNumber(1, s).value.n != 0 {
          Extends(inner, DecNumber(1, s).rest, t);
        }
      case Counted(item, max) =>
        MoreNumber(4, s, t);
        ExtendsAll(item, DecNumber(4, s).value.n, DecNumber(4, s).rest, t);
      case Then(a, b) =>
        Extends(a, s, t);
        Extends(b, Dec(a, s).rest, t);
    }
  }

  lemma {:induction false} ExtendsAll(item: Shape, count: nat, s: Bytes, t: Bytes)
    requires !HasRest(item) && DecAll(item, count, s).Got?
    ensures DecAll(item, count, s + t) == Got(DecAll(item, count, s).value, DecAll(item, count, s).rest + t)
    decreases item, count + 1
  {
    if count != 0 {
      Extends(item, s, t);
      ExtendsAll(item, count - 1, Dec(item, s).rest, t);
    }
  }

  /** Main result: of a message without a rest-of-payload field every strict prefix
      is a protocol error. */
  lemma PrefixRejected(shape: Shape, v: Value, n: nat)
    requires WellFormed(shape) && !HasRest(shape) && Acceptable(shape, v) && n < |Enc(shape, v)|
    ensures Dec(shape, Enc(shape, v)[..n]) == Bad
  {
    var e := Enc(shape, v);
    var p := e[..n];
    assert p + e[n..] == e + [];
    RoundTrip(shape, v, []);
    if Dec(shape, p).Got? {
      Extends(shape, p, e[n..]);
    }
  }

  lemma SignedForth(u: nat, w: nat)
    requires u < Pow256(w) && Pow256(w) % 2 == 0
    ensures 0 - Pow256(w) <= 2 * ToSigned(u, w) < Pow256(w) && Unsigned(ToSigned(u, w), w) == u
  {
  }

  /** Numbers are of the widths the format uses. */
  predicate Plain(shape: Shape) {
    match shape
    case Number(w) => w in {1, 4, 8}
    case Signed(w) => w in {4, 8}
    case Optional(inner) => Plain(inner)
    case Counted(item, _) => Plain(item)
    case Then(a, b) => Plain(a) && Plain(b)
    case _ => true
  }

  /** Whatever the decoder accepts is a message within all limits, and the reader
      has advanced by exactly the length of its encoding. */
  lemma {:induction false} Accepted(shape: Shape, s: Bytes)
    requires WellFormed(shape) && Plain(shape) && Dec(shape, s).Got?
    ensures var d := Dec(shape, s);
            Acceptable(shape, d.value) && Within(shape, d.value) && |s| == |Enc(shape, d.value)| + |d.rest|
    decreases shape, 0
  {
    SmallWidths();
    Widths();
    match shape {
      case Number(w) =>
      case Signed(w) => SignedForth(DecNumber(w, s).value.n, w);
      case Version =>
      case Flag =>
      case Text =>
      case Digest =>
      case Bitmap =>
      case Optional(inner) =>
        if DecNumber(1, s).value.n != 0 {
          Accepted(inner, DecNumber(1, s).rest);
        }
      case Counted(item, max) =>
        AllAccepted(item, DecNumber(4, s).value.n, DecNumber(4, s).rest);
      case Then(a, b) =>
        Accepted(a, s);
        Accepted(b, Dec(a, s).rest);
      case Rest =>
    }
  }

  lemma {:induction false} AllAccepted(item: Shape, count: nat, s: Bytes)
    requires WellFormed(item) && Plain(item) && DecAll(item, count, s).Got?
    ensures var d := DecAll(item, count, s);
            var vs := d.value.items;
            |vs| == count && AllAcceptable(item, vs) && AllWithin(item, vs)
            && |s| == |EncAll(item, vs)| + |d.rest|
    decreases item, count + 1
  {
    if count != 0 {
      Accepted(item, s);
      AllAccepted(item, count - 1, Dec(item, s).rest);
      var v := Dec(item, s).value;
      var vs := DecAll(item, count - 1, Dec(item, s).rest).value.items;
      assert ([v] + vs)[1..] == vs;
    }
  }

  /** A list over its limit encodes, and is always refused by the decoder. */
  lemma OverlongRefused(item: Shape, max: nat, vs: seq<Value>, tail: Bytes)
    requires WellFormed(Counted(item, max)) && Acceptable(Counted(item, max), Items(vs)) && |vs| > max
    ensures Dec(Counted(item, max), Enc(Counted(item, max), Items(vs)) + tail) == Bad
  {
    RoundTrip(Counted(item, max), Items(vs), tail);
  }

  // ---- Two fields after one another ---------------------------------------------------------

  lemma ThenParts(a: Shape, b: Shape, v: Value, w: Value)
    ensures Acceptable(Then(a, b), Both(v, w)) <==> Acceptable(a, v) && Acceptable(b, w)
    ensures Acceptable(a, v) && Acceptable(b, w) ==> Enc(Then(a, b), Both(v, w)) == Enc(a, v) + Enc(b, w)
  {
  }

  function Two(a: Value, d: Decoded): Decoded {
    match d
    case Bad => Bad
    case Got(b, rest) => Got(Both(a, b), rest)
  }

  lemma ThenReads(a: Shape, b: Shape, s: Bytes)
    ensures Dec(Then(a, b), s) ==
            match Dec(a, s)
            case Bad => Bad
            case Got(v, rest) => Two(v, Dec(b, rest))
  {
  }

  // ---- The messages ------------------------------------------------------------------------

  const U8_FIELD := Number(1)
  const U32_FIELD := Number(4)
  const U64_FIELD := Number(8)
  const I32_FIELD := Signed(4)
  const I64_FIELD := Signed(8)
  const REF := Then(Text, Then(Text, Text))

  const SUMMARY := Then(REF, Then(U64_FIELD, Then(Digest, Then(Text, I64_FIELD))))
  const ENTRY := Then(U32_FIELD, Then(U64_FIELD, Then(U64_FIELD, Digest)))
  const USER := Then(Text, Then(U8_FIELD, Then(Flag, I64_FIELD)))
  const TOKEN := Then(U64_FIELD, Then(Text, Then(I64_FIELD, Then(I64_FIELD, Flag))))
  const SESSION := Then(Text, Then(Text, Then(U8_FIELD, Then(REF, Then(U64_FIELD, I64_FIELD)))))

  const SHOW_TAIL := Then(U64_FIELD, Then(Text, Then(I64_FIELD, Then(Text, Counted(ENTRY, MAX_MANIFEST)))))
  const STATUS_TAIL := Then(U64_FIELD, Then(U64_FIELD, Then(U64_FIELD, U8_FIELD)))

  datatype Message =
    | HelloReq | AuthReq | AuthOk | CreateUploadReq | CreateUploadOk | PutChunkReq | PutChunkOk
    | QueryUploadOk | CommitUploadOk | GetArtifactReq | DataPayload | GetArtifactOk
    | ListArtifactsReq | ListArtifactsOk | ShowArtifactOk | StatusOk | DeleteArtifactOk
    | RunGcReq | RunGcOk | UserAddReq | UserListOk | TokenCreateReq | TokenCreateOk | TokenListOk
    | SessionListOk | ErrorPayload | RefOnly

  /** The fields of every message, in the order they are put and got. */
  function ShapeOf(m: Message): Shape {
    match m
    case HelloReq => Then(Version, Text)
    case AuthReq => Text
    case AuthOk => Then(Text, U8_FIELD)
    case CreateUploadReq => Then(REF, Then(U64_FIELD, Digest))
    case CreateUploadOk => Then(Text, Then(U64_FIELD, I64_FIELD))
    case PutChunkReq => Then(Text, Then(U64_FIELD, Rest))
    case PutChunkOk => Then(Digest, Flag)
    case QueryUploadOk => Then(U8_FIELD, Then(U64_FIELD, Bitmap))
    case CommitUploadOk => Then(REF, Then(U64_FIELD, Digest))
    case GetArtifactReq => Then(REF, Then(U64_FIELD, U64_FIELD))
    case DataPayload => Rest
    case GetArtifactOk => U64_FIELD
    case ListArtifactsReq => Then(Optional(Text), Then(Optional(Text), Then(U32_FIELD, U32_FIELD)))
    case ListArtifactsOk => Counted(SUMMARY, MAX_LIST)
    case ShowArtifactOk =>
      Then(REF, Then(U64_FIELD, Then(Digest, SHOW_TAIL)))
    case StatusOk => Then(Text, Then(U64_FIELD, Then(U32_FIELD, Then(U32_FIELD, STATUS_TAIL))))
    case DeleteArtifactOk => I64_FIELD
    case RunGcReq => Flag
    case RunGcOk => Then(I64_FIELD, Then(I64_FIELD, I64_FIELD))
    case UserAddReq => Then(Text, U8_FIELD)
    case UserListOk => Counted(USER, MAX_LIST)
    case TokenCreateReq => Then(Text, U32_FIELD)
    case TokenCreateOk => Text
    case TokenListOk => Counted(TOKEN, MAX_LIST)
    case SessionListOk => Counted(SESSION, MAX_LIST)
    case ErrorPayload => Then(I32_FIELD, Text)
    case RefOnly => REF
  }

  lemma Parts()
    ensures forall p :: p in {REF, SUMMARY, ENTRY, USER, TOKEN, SESSION, SHOW_TAIL, STATUS_TAIL} ==>
              WellFormed(p) && Plain(p) && !HasRest(p)
  {
  }

  predicate IsList(m: Message) {
    m in {ListArtifactsOk, ShowArtifactOk, UserListOk, TokenListOk, SessionListOk, StatusOk, ListArtifactsReq, RunGcOk}
  }

  lemma Lists(m: Message)
    requires IsList(m)
    ensures WellFormed(ShapeOf(m)) && Plain(ShapeOf(m)) && !HasRest(ShapeOf(m))
  {
    Parts();
    match m {
      case ListArtifactsReq =>
      case ShowArtifactOk =>
      case _ =>
    }
  }

  lemma Records(m: Message)
    requires !IsList(m)
    ensures WellFormed(ShapeOf(m)) && Plain(ShapeOf(m))
    ensures HasRest(ShapeOf(m)) <==> m in {PutChunkReq, DataPayload}
  {
    Parts();
    match m {
      case CreateUploadReq =>
      case CommitUploadOk =>
      case GetArtifactReq =>
      case _ =>
    }
  }

  // ---- A list too long ----------------------------------------------------------------------

  lemma {:induction false} AllOf(item: Shape, vs: seq<Value>)
    requires forall i :: 0 <= i < |vs| ==> Acceptable(item, vs[i])
    ensures AllAcceptable(item, vs)
    decreases |vs|
  {
    hide Acceptable;
    if vs != [] {
      AllOf(item, vs[1..]);
    }
  }

  /** fr_ident_valid_component: 1 to 64 letters, digits, '.', '_' or '-', and not
      one of the two dot segments. user_add refuses any other name. */
  predicate ComponentByte(b: Byte) {
    0x61 <= b <= 0x7A || 0x41 <= b <= 0x5A || 0x30 <= b <= 0x39 || b in {0x2E, 0x5F, 0x2D}
  }

  predicate ValidComponent(name: Bytes) {
    && 1 <= |name| <= 64 && (forall i :: 0 <= i < |name| ==> ComponentByte(name[i]))
    && name != [0x2E] && name != [0x2E, 0x2E]
  }

  /** "u0000", "u0001", and so on. */
  function UserName(i: nat): Bytes
    requires i < 10000
  {
    [0x75, 0x30 + i / 1000, 0x30 + i / 100 % 10, 0x30 + i / 10 % 10, 0x30 + i % 10]
  }

  /** All of them may be added, and none twice. */
  lemma UserNamesDiffer(i: nat, j: nat)
    requires i < 10000 && j < 10000
    ensures ValidComponent(UserName(i))
    ensures UserName(i) == UserName(j) <==> i == j
  {
    var a, b := UserName(i), UserName(j);
    assert ValidComponent(a);
    if a == b {
      assert a[1] == b[1] && a[2] == b[2] && a[3] == b[3] && a[4] == b[4];
      DigitsOf(i);
      DigitsOf(j);
    }
  }

  lemma DigitsOf(i: nat)
    requires i < 10000
    ensures i == i / 1000 * 1000 + i / 100 % 10 * 100 + i / 10 % 10 * 10 + i % 10
  {
    assert i / 100 == i / 1000 * 10 + i / 100 % 10;
    assert i / 10 == i / 100 * 10 + i / 10 % 10;
  }

  /** An enabled reader. */
  function UserCalled(name: Bytes, createdAt: I64): Value {
    Both(Raw(name), Both(Num(0), Both(Bool(true), Num(createdAt))))
  }

  function Users(n: nat, createdAt: I64): seq<Value>
    requires n <= 10000
  {
    seq(n, i requires 0 <= i < n => UserCalled(UserName(i), createdAt))
  }

  lemma UserAcceptable(name: Bytes, createdAt: I64)
    requires |name| <= MAX_STRING_LEN
    ensures Acceptable(USER, UserCalled(name, createdAt))
  {
    Widths();
  }

  lemma UsersAcceptable(n: nat, createdAt: I64)
    requires n <= 10000
    ensures |Users(n, createdAt)| == n && AllAcceptable(USER, Users(n, createdAt))
  {
    forall i | 0 <= i < n ensures Acceptable(USER, Users(n, createdAt)[i]) {
      UserAcceptable(UserName(i), createdAt);
    }
    hide Acceptable, UserCalled, UserName;
    AllOf(USER, Users(n, createdAt));
  }

  lemma UserListShape()
    ensures ShapeOf(UserListOk) == Counted(USER, MAX_LIST) && WellFormed(Counted(USER, MAX_LIST))
    ensures MAX_LIST < 4097
  {
    Parts();
  }

  lemma CountedAcceptable(item: Shape, max: nat, vs: seq<Value>)
    requires AllAcceptable(item, vs) && |vs| < 0x1_0000_0000
    ensures Acceptable(Counted(item, max), Items(vs))
  {
  }

  /** USER_LIST with 4097 users, all of which could be added: the server sends a reply
      its client refuses. */
  lemma UserListRefused(createdAt: I64)
    ensures forall i, j :: 0 <= i < j < 4097 ==> ValidComponent(UserName(i)) && UserName(i) != UserName(j)
    ensures ValidComponent(UserName(4096))
    ensures var users := Items(Users(4097, createdAt));
            && Acceptable(ShapeOf(UserListOk), users)
            && Dec(ShapeOf(UserListOk), Enc(ShapeOf(UserListOk), users)) == Bad
  {
    hide *;
    forall i, j | 0 <= i < j < 4097 ensures ValidComponent(UserName(i)) && UserName(i) != UserName(j) {
      UserNamesDiffer(i, j);
    }
    UserNamesDiffer(4096, 4096);
    UserListShape();
    UsersAcceptable(4097, createdAt);
    CountedAcceptable(USER, MAX_LIST, Users(4097, createdAt));
    OverlongRefused(USER, MAX_LIST, Users(4097, createdAt), []);
    var e := Enc(ShapeOf(UserListOk), Items(Users(4097, createdAt)));
    assert e + [] == e;
  }

  /** The general results apply to every message, prefix rejection to all but two. */
  lemma EveryMessage(m: Message)
    ensures WellFormed(ShapeOf(m)) && Plain(ShapeOf(m))
    ensures HasRest(ShapeOf(m)) <==> m in {PutChunkReq, DataPayload}
  {
    hide *;
    if IsList(m) {
      Lists(m);
      NoRest(m);
    } else {
      Records(m);
    }
  }

  lemma NoRest(m: Message)
    requires IsList(m)
    ensures m !in {PutChunkReq, DataPayload}
  {
  }
}
