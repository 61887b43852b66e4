/** The FRLY frame layer (`fr_frame.c`): what a frame's bytes are, what the bytes
    of a stream mean, and the incremental parser and the encoder against that
    meaning. */
module Frame {
  import opened Bytes
  import opened ByteOrder
  import opened Buffer
  import Crc32

  const HEADER_SIZE: nat := 20
  const MAX_PAYLOAD: nat := 8 * 1024 * 1024
  const MAGIC: Bytes := [0x46, 0x52, 0x4C, 0x59]
  const VERSION: Byte := 1

  const MSG_DATA: Byte := 33
  const MSG_OK: Byte := 200
  const MSG_ERROR: Byte := 201

  predicate MsgTypeValid(t: int) {
    t in {1, 2, 3, 4, 16, 17, 18, 19, 20, 32, 33, 48, 49, 50,
          64, 65, 66, 67, 68, 80, 81, 82, 96, 97, 200, 201}
  }

  datatype Frame = Frame(msgType: Byte, flags: U16, reqId: U32, payload: Bytes)

  /** The frames the encoder accepts. */
  predicate Encodable(f: Frame) {
    MsgTypeValid(f.msgType) && f.flags == 0 && f.reqId != 0 && |f.payload| <= MAX_PAYLOAD
  }

  // ---- Meaning of the bytes ------------------------------------------------------

  /** The first 16 header bytes, which the header CRC covers. */
  function HeaderBase(f: Frame): (h: Bytes)
    requires Encodable(f)
    ensures |h| == 16
  {
    MAGIC + [VERSION, f.msgType] + Be16(f.flags) + Be32(f.reqId) + Be32(|f.payload|)
  }

  function Header(f: Frame): (h: Bytes)
    requires Encodable(f)
    ensures |h| == HEADER_SIZE
  {
    HeaderBase(f) + Be32(Crc32.Crc(HeaderBase(f)))
  }

  function Encoding(f: Frame): (b: Bytes)
    requires Encodable(f)
    ensures |b| == HEADER_SIZE + |f.payload|
  {
    Header(f) + f.payload
  }

  function EncodeAll(fs: seq<Frame>): Bytes
    requires forall f :: f in fs ==> Encodable(f)
  {
    if fs == [] then [] else Encoding(fs[0]) + EncodeAll(fs[1..])
  }

  /** frame_validate_header's verdict on a complete header. */
  predicate HeaderOk(h: Bytes)
    requires |h| == HEADER_SIZE
  {
    && h[..4] == MAGIC
    && h[4] == VERSION
    && Load16(h[6..8]) == 0
    && Load32(h[8..12]) != 0
    && MsgTypeValid(h[5])
    && Load32(h[12..16]) <= MAX_PAYLOAD
    && Load32(h[16..20]) == Crc32.Crc(h[..16])
  }

  function PayloadNeed(h: Bytes): U32
    requires |h| == HEADER_SIZE
  {
    Load32(h[12..16])
  }

  function FrameOf(h: Bytes, payload: Bytes): Frame
    requires |h| == HEADER_SIZE
  {
    Frame(h[5], Load16(h[6..8]), Load32(h[8..12]), payload)
  }

  datatype Parse = Incomplete | Malformed | Parsed(frame: Frame, used: nat)

  /** What a byte string says about the frame at its front. */
  function ParseOne(s: Bytes): (p: Parse)
    ensures p.Parsed? ==> HEADER_SIZE <= p.used <= |s|
  {
    if |s| < HEADER_SIZE then Incomplete
    else if !HeaderOk(s[..HEADER_SIZE]) then Malformed
    else
      var n := HEADER_SIZE + PayloadNeed(s[..HEADER_SIZE]);
      if |s| < n then Incomplete
      else Parsed(FrameOf(s[..HEADER_SIZE], s[HEADER_SIZE..n]), n)
  }

  /** What is left when no further frame can be split off. */
  datatype Tail = Residual(rest: Bytes) | Broken

  datatype Stream = Stream(frames: seq<Frame>, tail: Tail)

  /** The meaning of a whole stream: its frames in order, then a proper prefix of
      one more frame or a malformed header. */
  function ParseStream(s: Bytes): Stream
    decreases |s|
  {
    match ParseOne(s)
    case Incomplete => Stream([], Residual(s))
    case Malformed => Stream([], Broken)
    case Parsed(f, n) =>
      var later := ParseStream(s[n..]);
      Stream([f] + later.frames, later.tail)
  }

  // ---- Bijection -------------------------------------------------------------------

  lemma HeaderFields(f: Frame, tail: Bytes)
    requires Encodable(f)
    ensures var h := (Header(f) + tail)[..HEADER_SIZE];
            h == Header(f)
            && h[..4] == MAGIC && h[4] == VERSION && h[5] == f.msgType
            && h[6..8] == Be16(f.flags) && h[8..12] == Be32(f.reqId)
            && h[12..16] == Be32(|f.payload|)
            && h[..16] == HeaderBase(f) && h[16..20] == Be32(Crc32.Crc(HeaderBase(f)))
  {
    hide Crc32.Crc, Be16, Be32, MsgTypeValid;
    var h := Header(f);
    var b := HeaderBase(f);
    assert h[..16] == b && h[16..20] == Be32(Crc32.Crc(b));
    assert h[6..8] == b[6..8] == Be16(f.flags);
    assert h[8..12] == b[8..12] == Be32(f.reqId);
    assert h[12..16] == b[12..16] == Be32(|f.payload|);
  }

  /** Decoding the encoding of a frame, whatever follows it. */
  lemma ParseEncoding(f: Frame, rest: Bytes)
    requires Encodable(f)
    ensures ParseOne(Encoding(f) + rest) == Parsed(f, |Encoding(f)|)
    ensures (Encoding(f) + rest)[|Encoding(f)|..] == rest
  {
    hide Crc32.Crc, Be16, Be32, Load16, Load32, MsgTypeValid, HeaderBase;
    var s := Encoding(f) + rest;
    assert s == Header(f) + (f.payload + rest);
    HeaderFields(f, f.payload + rest);
    RoundTrip16(f.flags);
    RoundTrip32(f.reqId);
    RoundTrip32(|f.payload|);
    RoundTrip32(Crc32.Crc(HeaderBase(f)));
    assert s[HEADER_SIZE..HEADER_SIZE + |f.payload|] == f.payload;
  }

  /** Main result: the stream made of any list of frames means that list, with
      nothing left over. */
  lemma {:induction false} ParseEncodeAll(fs: seq<Frame>)
    requires forall f :: f in fs ==> Encodable(f)
    ensures ParseStream(EncodeAll(fs)) == Stream(fs, Residual([]))
  {
    assert ParseOne([]) == Incomplete;
    hide ParseOne, Encoding, Encodable;
    if fs != [] {
      var e, rest := Encoding(fs[0]), EncodeAll(fs[1..]);
      ParseEncoding(fs[0], rest);
      ParseEncodeAll(fs[1..]);
      var s := e + rest;
      assert ParseStream(s) == Stream([fs[0]] + ParseStream(s[|e|..]).frames, ParseStream(s[|e|..]).tail);
      assert fs == [fs[0]] + fs[1..];
    }
  }

  /** Re-encoding the frame at the front of a string gives back the very bytes it
      was read from, and those frames are exactly the encodable ones. */
  lemma EncodeParsed(s: Bytes)
    requires ParseOne(s).Parsed?
    ensures var p := ParseOne(s);
            Encodable(p.frame) && Encoding(p.frame) == s[..p.used]
  {
    hide Crc32.Crc, Be16, Be32, Load16, Load32, MsgTypeValid;
    var p := ParseOne(s);
    var h := s[..HEADER_SIZE];
    var f := p.frame;
    Restore16(h[6..8]);
    Restore32(h[8..12]);
    Restore32(h[12..16]);
    Restore32(h[16..20]);
    assert |f.payload| == PayloadNeed(h);
    assert h[..16] == h[..4] + [h[4], h[5]] + h[6..8] + h[8..12] + h[12..16];
    assert h == h[..16] + h[16..20];
    assert s[..p.used] == h + f.payload;
  }

  lemma EncodeAllCons(f: Frame, fs: seq<Frame>)
    requires Encodable(f) && forall g :: g in fs ==> Encodable(g)
    ensures forall g :: g in [f] + fs ==> Encodable(g)
    ensures EncodeAll([f] + fs) == Encoding(f) + EncodeAll(fs)
  {
    hide Encodable, Encoding;
    assert ([f] + fs)[1..] == fs;
  }

  /** What remains of a stream once its frames are split off. */
  function Leftover(s: Bytes): Bytes
    decreases |s|
  {
    var p := ParseOne(s);
    if p.Parsed? then Leftover(s[p.used..]) else s
  }

  /** Conversely every stream is the encoding of its frames, which are all
      encodable, plus its leftover. */
  lemma {:induction false} EncodeParseStream(s: Bytes)
    ensures forall f :: f in ParseStream(s).frames ==> Encodable(f)
    ensures s == EncodeAll(ParseStream(s).frames) + Leftover(s)
    ensures ParseStream(s).tail.Residual? ==> ParseStream(s).tail.rest == Leftover(s)
    decreases |s|
  {
    assert EncodeAll([]) == [];
    hide ParseOne, Encoding, Encodable, EncodeAll;
    var p := ParseOne(s);
    if p.Parsed? {
      EncodeParsed(s);
      var t := s[p.used..];
      var later := ParseStream(t).frames;
      EncodeParseStream(t);
      EncodeAllCons(p.frame, later);
      Cut(s, p.used);
      Assoc(Encoding(p.frame), EncodeAll(later), Leftover(t));
    }
  }

  /** No encoding is a proper prefix of another. */
  lemma PrefixFree(f: Frame, g: Frame)
    requires Encodable(f) && Encodable(g)
    requires Encoding(f) <= Encoding(g)
    ensures f == g
  {
    hide ParseOne, Encoding, Encodable;
    var e := Encoding(g);
    ParseEncoding(f, e[|Encoding(f)|..]);
    ParseEncoding(g, []);
    assert e == Encoding(f) + e[|Encoding(f)|..];
    assert e == e + [];
  }

  // ---- Cutting the stream --------------------------------------------------------------

  /** A verdict on a prefix is the verdict on the whole. */
  lemma ParseOneExtends(s: Bytes, t: Bytes)
    requires !ParseOne(s).Incomplete?
    ensures ParseOne(s + t) == ParseOne(s)
  {
    hide HeaderOk, PayloadNeed, FrameOf;
    assert (s + t)[..HEADER_SIZE] == s[..HEADER_SIZE];
    if ParseOne(s).Parsed? {
      var n := ParseOne(s).used;
      assert (s + t)[HEADER_SIZE..n] == s[HEADER_SIZE..n];
    }
  }

  /** An unfinished prefix is shorter than the frame it begins. */
  lemma UnfinishedIsShort(s: Bytes, t: Bytes)
    requires ParseOne(s).Incomplete? && ParseOne(s + t).Parsed?
    ensures ParseOne(s + t).used > |s|
  {
    hide HeaderOk, PayloadNeed, FrameOf;
    if |s| >= HEADER_SIZE {
      assert (s + t)[..HEADER_SIZE] == s[..HEADER_SIZE];
    }
  }

  /** Parsing on from a cut: first the frames before it, then the rest of the
      stream read behind the residue of the first part. */
  lemma {:induction false} ParseStreamAppend(s: Bytes, t: Bytes)
    ensures var a := ParseStream(s);
            match a.tail
            case Broken => ParseStream(s + t) == a
            case Residual(r) =>
              var b := ParseStream(r + t);
              ParseStream(s + t) == Stream(a.frames + b.frames, b.tail)
    decreases |s|
  {
    hide ParseOne;
    var p := ParseOne(s);
    match p {
      case Incomplete =>
      case Malformed =>
        ParseOneExtends(s, t);
      case Parsed(f, n) =>
        ParseOneExtends(s, t);
        assert (s + t)[n..] == s[n..] + t;
        ParseStreamAppend(s[n..], t);
        var later := ParseStream(s[n..]);
        if later.tail.Residual? {
          var b := ParseStream(later.tail.rest + t);
          assert [f] + (later.frames + b.frames) == [f] + later.frames + b.frames;
        }
    }
  }

  lemma OneFrame(f: Frame)
    requires Encodable(f)
    ensures ParseStream(Encoding(f)) == Stream([f], Residual([]))
  {
    hide ParseStream, Encoding, Encodable;
    ParseEncodeAll([f]);
    EncodeAllCons(f, []);
    assert EncodeAll([]) == [] && [f] + [] == [f] && Encoding(f) + [] == Encoding(f);
  }

  // ---- Header corruption ------------------------------------------------------------------

  /** A valid header whose first 16 bytes are altered only inside a window of at
      most four consecutive bytes is rejected. */
  lemma CorruptedHeaderRejected(before: Bytes, u: Bytes, v: Bytes, after: Bytes, crc: Bytes)
    requires |before| + |u| + |after| == 16 && |crc| == 4
    requires |u| == |v| <= 4 && u != v
    requires HeaderOk(before + u + after + crc)
    ensures !HeaderOk(before + v + after + crc)
  {
    hide Crc32.Crc, Load16, Load32, MsgTypeValid;
    var h, k := before + u + after + crc, before + v + after + crc;
    assert h[..16] == before + u + after && k[..16] == before + v + after;
    assert h[16..20] == crc && k[16..20] == crc;
    Crc32.BurstDetected(before, u, v, after);
  }

  /** Any change confined to the CRC field is rejected. */
  lemma CorruptedCrcRejected(base: Bytes, crc: Bytes, other: Bytes)
    requires |base| == 16 && |crc| == |other| == 4 && crc != other
    requires HeaderOk(base + crc)
    ensures !HeaderOk(base + other)
  {
    hide Crc32.Crc, Load16, Load32, Be32, MsgTypeValid;
    var h, k := base + crc, base + other;
    assert h[..16] == base && k[..16] == base && h[16..20] == crc && k[16..20] == other;
    Restore32(crc);
    Restore32(other);
  }

  // ---- The encoder --------------------------------------------------------------------------

  /** fr_frame_encode's verdict on its arguments. */
  function EncodeStatus(f: Frame): Status {
    if !MsgTypeValid(f.msgType) || f.flags != 0 || f.reqId == 0 then E_ARG
    else if |f.payload| > MAX_PAYLOAD then E_RANGE
    else OK
  }

  /** fr_frame_encode into a buffer with room below 2^63 and memory available. */
  method Encode(out: FrBuf, f: Frame) returns (st: Status)
    requires out.Valid() && out.len + HEADER_SIZE + MAX_PAYLOAD <= 0x8000_0000_0000_0000
    modifies out, out.data
    ensures out.Valid() && (out.data == old(out.data) || fresh(out.data))
    ensures st == EncodeStatus(f)
    ensures out.Contents() == old(out.Contents()) + if st == OK then Encoding(f) else []
  {
    hide MsgTypeValid, Header, IsCapacity;
    if !MsgTypeValid(f.msgType) {
      return E_ARG;
    }
    if f.flags != 0 {
      return E_ARG;
    }
    if f.reqId == 0 {
      return E_ARG;
    }
    if |f.payload| > MAX_PAYLOAD {
      return E_RANGE;
    }
    var header := EncodeHeader(f);
    st := out.Reserve(HEADER_SIZE + |f.payload|, true);
    if st != OK {
      return st;
    }
    st := out.Append(header, true);
    if st != OK {
      return st;
    }
    st := out.Append(f.payload, true);
  }

  /** The header array is filled field by field, the CRC last. */
  method EncodeHeader(f: Frame) returns (bytes: Bytes)
    requires Encodable(f)
    ensures bytes == Header(f)
  {
    var header := new Byte[HEADER_SIZE](_ => 0);
    forall i | 0 <= i < 4 {
      header[i] := MAGIC[i];
    }
    header[4] := VERSION;
    header[5] := f.msgType;
    assert header[..6] == MAGIC + [VERSION, f.msgType];
    StoreBe16(header, 6, f.flags);
    assert header[..8] == MAGIC + [VERSION, f.msgType] + Be16(f.flags);
    StoreBe32(header, 8, f.reqId);
    assert header[..12] == MAGIC + [VERSION, f.msgType] + Be16(f.flags) + Be32(f.reqId);
    StoreBe32(header, 12, |f.payload|);
    assert header[..16] == HeaderBase(f);
    var crc := Crc32.ComputeCrc(header[..16]);
    StoreBe32(header, 16, crc);
    assert header[..] == Header(f);
    bytes := header[..];
  }

  lemma PayloadWithin(h: Bytes, had: Bytes, data: Bytes, start: nat, off: nat)
    requires start <= off <= |data|
    ensures (h + had + data[start..])[|h|..|h| + |had| + off - start] == had + data[start..off]
  {
  }

  // ---- The incremental parser ------------------------------------------------------------------

  class Parser {
    const header: array<Byte>
    const payload: FrBuf
    var headerHave: nat
    var headerDone: bool
    var msgType: Byte
    var flags: U16
    var reqId: U32
    var payloadNeed: U32

    ghost function Repr(): set<object>
      reads this, payload
    {
      {this, header, payload, payload.data}
    }

    /** After a protocol error the header is full but was never accepted. */
    predicate Failed()
      reads this
    {
      headerHave == HEADER_SIZE && !headerDone
    }

    /** The fields agree with an accepted header. */
    ghost predicate Accepted()
      requires header.Length == HEADER_SIZE
      reads this, header
    {
      && headerHave == HEADER_SIZE
      && HeaderOk(header[..])
      && msgType == header[5]
      && flags == Load16(header[6..8])
      && reqId == Load32(header[8..12])
      && payloadNeed == PayloadNeed(header[..])
    }

    /** Holds throughout a call of Feed. */
    ghost predicate Consistent()
      reads Repr()
    {
      && header != payload.data
      && header.Length == HEADER_SIZE
      && payload.Valid()
      && headerHave <= HEADER_SIZE
      && (!headerDone ==> payload.len == 0)
      && (headerDone ==> Accepted() && payload.len <= payloadNeed)
    }

    /** Between calls the frame in progress is unfinished. */
    ghost predicate Valid()
      reads Repr()
      ensures Valid() ==> Consistent()
    {
      Consistent() && (headerDone ==> payload.len < payloadNeed)
    }

    /** The bytes of the current frame absorbed so far. */
    ghost function Pending(): Bytes
      requires Consistent()
      reads Repr()
    {
      header[..headerHave] + payload.Contents()
    }

    constructor ()
      ensures Valid() && !Failed() && Pending() == []
      ensures fresh(Repr())
    {
      header := new Byte[HEADER_SIZE](_ => 0);
      payload := new FrBuf();
      headerHave, headerDone := 0, false;
      msgType, flags, reqId, payloadNeed := 0, 0, 0, 0;
    }

    /** The residue of an unfailed parser is never a whole frame. */
    lemma PendingIncomplete()
      requires Valid() && !Failed()
      ensures ParseOne(Pending()).Incomplete?
    {
      if headerDone {
        assert Pending()[..HEADER_SIZE] == header[..];
      }
    }

    method ValidateHeader() returns (st: Status)
      requires header.Length == HEADER_SIZE && headerHave == HEADER_SIZE
      modifies this`msgType, this`flags, this`reqId, this`payloadNeed
      ensures st == if HeaderOk(header[..]) then OK else E_PROTOCOL
      ensures st == OK ==> msgType == header[5] && flags == Load16(header[6..8])
                           && reqId == Load32(header[8..12]) && payloadNeed == PayloadNeed(header[..])
    {
      assert header[..][..4] == header[..4] && header[..][6..8] == header[6..8];
      assert header[..][8..12] == header[8..12] && header[..][12..16] == header[12..16];
      assert header[..][16..20] == header[16..20] && header[..][..16] == header[..16];
      if header[..4] != MAGIC {
        return E_PROTOCOL;
      }
      if header[4] != VERSION {
        return E_PROTOCOL;
      }
      msgType := header[5];
      flags := Load16(header[6..8]);
      reqId := Load32(header[8..12]);
      payloadNeed := Load32(header[12..16]);
      if flags != 0 {
        return E_PROTOCOL;
      }
      if reqId == 0 {
        return E_PROTOCOL;
      }
      if !MsgTypeValid(msgType) {
        return E_PROTOCOL;
      }
      if payloadNeed > MAX_PAYLOAD {
        return E_PROTOCOL;
      }
      var storedCrc := Load32(header[16..20]);
      var crc := Crc32.ComputeCrc(header[..16]);
      if storedCrc != crc {
        return E_PROTOCOL;
      }
      return OK;
    }

    /** Stage one of feed: accumulate the header. */
    method FeedHeader(data: Bytes) returns (st: Status, off: nat)
      requires Consistent() && !headerDone
      modifies this, header
      ensures Consistent() && payload.len == 0
      ensures off == Min(HEADER_SIZE - old(headerHave), |data|)
      ensures headerHave == old(headerHave) + off
      ensures header[..headerHave] == old(header[..headerHave]) + data[..off]
      ensures st == if old(headerHave) < headerHave == HEADER_SIZE && !HeaderOk(header[..])
                    then E_PROTOCOL else OK
      ensures headerDone <==> old(headerHave) < headerHave == HEADER_SIZE && HeaderOk(header[..])
    {
      hide HeaderOk, PayloadNeed, Load16, Load32;
      off := 0;
      st := OK;
      while !headerDone && headerHave < HEADER_SIZE && off < |data|
        modifies this, header
        invariant st == OK && Consistent() && payload.len == 0
        invariant off == 0 || off == Min(HEADER_SIZE - old(headerHave), |data|)
        invariant headerHave == old(headerHave) + off
        invariant header[..headerHave] == old(header[..headerHave]) + data[..off]
        invariant headerDone <==> old(headerHave) < headerHave == HEADER_SIZE
        decreases |data| - off
      {
        var want := HEADER_SIZE - headerHave;
        var take := if |data| - off < want then |data| - off else want;
        CopyIn(data, off, take);
        off := off + take;
        if headerHave == HEADER_SIZE {
          assert header[..] == header[..headerHave];
          st := ValidateHeader();
          if st != OK {
            return;
          }
          headerDone := true;
        }
      }
    }

    /** The memcpy of header bytes. */
    method CopyIn(data: Bytes, off: nat, take: nat)
      requires header.Length == HEADER_SIZE && headerHave + take <= HEADER_SIZE && off + take <= |data|
      modifies this`headerHave, header
      ensures headerHave == old(headerHave) + take
      ensures header[..headerHave] == old(header[..headerHave]) + data[off..off + take]
    {
      forall i | 0 <= i < take {
        header[headerHave + i] := data[off + i];
      }
      headerHave := headerHave + take;
    }

    /** Stage two: accumulate the payload. */
    method FeedPayload(data: Bytes, start: nat) returns (off: nat)
      requires Consistent() && headerDone && start <= |data|
      modifies Repr()
      ensures Consistent() && headerDone && fresh(Repr() - old(Repr()))
      ensures header[..] == old(header[..]) && payloadNeed == old(payloadNeed)
      ensures off == start + Min(payloadNeed - |old(payload.Contents())|, |data| - start)
      ensures payload.Contents() == old(payload.Contents()) + data[start..off]
    {
      hide HeaderOk, PayloadNeed, Load16, Load32, IsCapacity;
      off := start;
      var need := payloadNeed - payload.len;
      var take := if |data| - off < need then |data| - off else need;
      if take != 0 {
        var st := payload.Append(data[off..off + take], true);
        off := off + take;
      }
      assert header[..] == old(header[..]);
    }

    /** The frame is whole: produce it and reset for the next one. */
    method TakeFrame() returns (frame: Frame)
      requires Consistent() && headerDone && payload.len == payloadNeed
      modifies this, payload
      ensures Valid() && !Failed() && Pending() == [] && payload.data == old(payload.data)
      ensures frame == FrameOf(old(header[..]), old(payload.Contents()))
    {
      hide HeaderOk, PayloadNeed, Load16, Load32, IsCapacity;
      assert header[..][6..8] == header[6..8] && header[..][8..12] == header[8..12];
      frame := Frame(msgType, flags, reqId, payload.data[..payload.len]);
      headerHave, headerDone := 0, false;
      msgType, flags, reqId, payloadNeed := 0, 0, 0, 0;
      payload.Clear();
    }

    /** fr_frame_parser_feed. The verdict on everything absorbed so far decides
        what happens; a failed parser absorbs nothing more. */
    method Feed(data: Bytes) returns (st: Status, consumed: nat, frame: Option<Frame>)
      requires Valid()
      modifies Repr()
      ensures Valid() && fresh(Repr() - old(Repr()))
      ensures consumed <= |data|
      ensures old(Failed()) ==> st == OK && consumed == 0 && frame == None && Failed()
      ensures !old(Failed()) ==>
                match ParseOne(old(Pending()) + data)
                case Malformed => st == E_PROTOCOL && frame == None && Failed()
                case Incomplete =>
                  st == OK && frame == None && consumed == |data| && !Failed()
                  && Pending() == old(Pending()) + data
                case Parsed(f, n) =>
                  st == OK && frame == Some(f) && |old(Pending())| + consumed == n && !Failed()
                  && Pending() == []
    {
      hide HeaderOk, PayloadNeed, Load16, Load32, FrameOf;
      ghost var whole := Pending() + data;
      var off := 0;
      frame := None;
      consumed := 0;
      st := OK;
      if !headerDone {
        st, off := FeedHeader(data);
        assert header[..headerHave] == whole[..headerHave];
        assert headerHave == HEADER_SIZE ==> header[..] == header[..headerHave];
        if st != OK {
          return;
        }
      }
      if !headerDone {
        consumed := off;
        assert payload.Contents() == [];
        return;
      }
      ghost var h, had := header[..], payload.Contents();
      assert h == header[..headerHave];
      assert Pending() + data[off..] == whole;
      assert whole[..HEADER_SIZE] == h;
      ghost var start := off;
      off := FeedPayload(data, off);
      consumed := off;
      if payload.len != payloadNeed {
        assert off == |data|;
        assert data[start..off] == data[start..];
        Assoc(h, had, data[start..]);
        return;
      }
      PayloadWithin(h, had, data, start, off);
      var f := TakeFrame();
      frame := Some(f);
    }
  }
}
