/** Fixed points of the formats: whole encodings and limits written out as numbers, as
    the protocol document gives them, against the definitions of the other modules. */
module KnownAnswers {
  import opened Bytes
  import opened ByteOrder
  import opened ByteBits
  import opened Crc32
  import ChunkFiles
  import Dispatch
  import Frame
  import Log
  import Store
  import Wire

  // ---- A frame ----------------------------------------------------------------------------

  /** The first sixteen bytes of PING with request id 1. */
  const PING: Bytes := [0x46, 0x52, 0x4C, 0x59, 0x01, 0x03, 0x00, 0x00, 0x00, 0x00, 0x00, 0x01, 0x00, 0x00, 0x00, 0x00]

  lemma PingBytes()
    ensures |PING| == 16
    ensures PING[0] == 0x46 && PING[1] == 0x52 && PING[2] == 0x4C && PING[3] == 0x59
    ensures PING[4] == 0x01 && PING[5] == 0x03 && PING[6] == 0x00 && PING[7] == 0x00
    ensures PING[8] == 0x00 && PING[9] == 0x00 && PING[10] == 0x00 && PING[11] == 0x01
    ensures PING[12] == 0x00 && PING[13] == 0x00 && PING[14] == 0x00 && PING[15] == 0x00
    ensures Value(0x00) == 0x00 && Value(0x01) == 0x01 && Value(0x03) == 0x03 && Value(0x46) == 0x46
    ensures Value(0x4C) == 0x4C && Value(0x52) == 0x52 && Value(0x59) == 0x59
  {
  }

  lemma PingTurns0()
    ensures Turns(0xffffffff, 0x46) == 0xb242f4d7
    ensures Turns(0xb242f4d7, 0x52) == 0x9d60355b
    ensures Turns(0x9d60355b, 0x4C) == 0x834ee5f2
    ensures Turns(0x834ee5f2, 0x59) == 0x41873485
  {
  }

  lemma PingTurns1()
    ensures Turns(0x41873485, 0x01) == 0xea94c00d
    ensures Turns(0xea94c00d, 0x03) == 0xe752b9c7
    ensures Turns(0xe752b9c7, 0x00) == 0x5e705aa
    ensures Turns(0x5e705aa, 0x00) == 0x3606adf3
  {
  }

  lemma PingTurns2()
    ensures Turns(0x3606adf3, 0x00) == 0x2482a50b
    ensures Turns(0x2482a50b, 0x00) == 0x97f65b2d
    ensures Turns(0x97f65b2d, 0x00) == 0x4548aa2e
    ensures Turns(0x4548aa2e, 0x01) == 0xab9475f3
  {
  }

  lemma PingTurns3()
    ensures Turns(0xab9475f3, 0x00) == 0x241f37d3
    ensures Turns(0x241f37d3, 0x00) == 0x1ffe9c59
    ensures Turns(0x1ffe9c59, 0x00) == 0x12a817cc
    ensures Turns(0x12a817cc, 0x00) == 0x92c0268c
  {
  }

  lemma PingLast()
    ensures Xor(0x92c0268c, INIT) == 0x6D3FD973
  {
  }

  lemma Ping0()
    ensures Reg(INIT, BitsOf(PING)[..4]) == 0x41873485
  {
    PingBytes();
    PingTurns0();
    hide Reg, BitsOf, Value, Turns, PING;
    FirstFed(PING, 0x46, 0xb242f4d7);
    Fed(PING, 1, 0x52, 0xb242f4d7, 0x9d60355b);
    Fed(PING, 2, 0x4C, 0x9d60355b, 0x834ee5f2);
    Fed(PING, 3, 0x59, 0x834ee5f2, 0x41873485);
  }

  lemma Ping1()
    requires Reg(INIT, BitsOf(PING)[..4]) == 0x41873485
    ensures Reg(INIT, BitsOf(PING)[..8]) == 0x3606adf3
  {
    PingBytes();
    PingTurns1();
    hide Reg, BitsOf, Value, Turns, PING;
    Fed(PING, 4, 0x01, 0x41873485, 0xea94c00d);
    Fed(PING, 5, 0x03, 0xea94c00d, 0xe752b9c7);
    Fed(PING, 6, 0x00, 0xe752b9c7, 0x5e705aa);
    Fed(PING, 7, 0x00, 0x5e705aa, 0x3606adf3);
  }

  lemma Ping2()
    requires Reg(INIT, BitsOf(PING)[..8]) == 0x3606adf3
    ensures Reg(INIT, BitsOf(PING)[..12]) == 0xab9475f3
  {
    PingBytes();
    PingTurns2();
    hide Reg, BitsOf, Value, Turns, PING;
    Fed(PING, 8, 0x00, 0x3606adf3, 0x2482a50b);
    Fed(PING, 9, 0x00, 0x2482a50b, 0x97f65b2d);
    Fed(PING, 10, 0x00, 0x97f65b2d, 0x4548aa2e);
    Fed(PING, 11, 0x01, 0x4548aa2e, 0xab9475f3);
  }

  lemma Ping3()
    requires Reg(INIT, BitsOf(PING)[..12]) == 0xab9475f3
    ensures Reg(INIT, BitsOf(PING)[..16]) == 0x92c0268c
  {
    PingBytes();
    PingTurns3();
    hide Reg, BitsOf, Value, Turns, PING;
    Fed(PING, 12, 0x00, 0xab9475f3, 0x241f37d3);
    Fed(PING, 13, 0x00, 0x241f37d3, 0x1ffe9c59);
    Fed(PING, 14, 0x00, 0x1ffe9c59, 0x12a817cc);
    Fed(PING, 15, 0x00, 0x12a817cc, 0x92c0268c);
  }

  lemma PingCrc()
    ensures Crc(PING) == 0x6D3FD973
  {
    PingBytes();
    PingLast();
    Word();
    hide *;
    Ping0();
    Ping1();
    Ping2();
    Ping3();
    Ended(PING, 0x92c0268c, 0x6D3FD973);
  }

  lemma Word()
    ensures AsU32(0x6D3FD973) == 0x6D3FD973
  {
  }

  lemma Small32(n: nat)
    requires n < 256
    ensures Be32(n) == [0, 0, 0, n] && Be16(n) == [0, n]
  {
    assert Be(0, 0) == [];
    assert Be(0, 1) == [0];
    assert Be(0, 2) == [0, 0];
    assert Be(0, 3) == [0, 0, 0];
    assert n / 256 == 0;
  }

  lemma CrcWord()
    ensures Be32(0x6D3FD973) == [0x6D, 0x3F, 0xD9, 0x73]
  {
    assert Be(0, 0) == [];
    assert Be(0x6D, 1) == [0x6D];
    assert Be(0x6D3F, 2) == [0x6D, 0x3F];
    assert Be(0x6D3FD9, 3) == [0x6D, 0x3F, 0xD9];
  }

  /** PING, byte by byte. */
  lemma KnownFrame()
    ensures var f := Frame.Frame(3, 0, 1, []);
            Frame.Encodable(f)
            && Frame.Encoding(f) == [0x46, 0x52, 0x4C, 0x59, 0x01, 0x03, 0x00, 0x00, 0x00, 0x00,
                                     0x00, 0x01, 0x00, 0x00, 0x00, 0x00, 0x6D, 0x3F, 0xD9, 0x73]
  {
    PingCrc();
    PingBase();
    PingWhole();
    CrcWord();
    Whole20();
    hide *;
  }

  lemma Whole20()
    ensures PING + [0x6D, 0x3F, 0xD9, 0x73] ==
            [0x46, 0x52, 0x4C, 0x59, 0x01, 0x03, 0x00, 0x00, 0x00, 0x00,
             0x00, 0x01, 0x00, 0x00, 0x00, 0x00, 0x6D, 0x3F, 0xD9, 0x73]
  {
  }

  lemma PingBase()
    ensures Frame.Encodable(Frame.Frame(3, 0, 1, []))
    ensures Frame.HeaderBase(Frame.Frame(3, 0, 1, [])) == PING
  {
    hide *;
    Small32(0);
    Small32(1);
    BaseIs();
    Base16();
  }

  lemma BaseIs()
    ensures Frame.Encodable(Frame.Frame(3, 0, 1, []))
    ensures Frame.HeaderBase(Frame.Frame(3, 0, 1, [])) ==
            [0x46, 0x52, 0x4C, 0x59] + [1, 3] + Be16(0) + Be32(1) + Be32(0)
  {
    hide Be32, Be16;
  }

  lemma Base16()
    ensures [0x46, 0x52, 0x4C, 0x59] + [1, 3] + [0, 0] + [0, 0, 0, 1] + [0, 0, 0, 0] == PING
  {
  }

  lemma PingWhole()
    ensures Frame.Encodable(Frame.Frame(3, 0, 1, []))
    ensures var f := Frame.Frame(3, 0, 1, []);
            Frame.Encoding(f) == Frame.HeaderBase(f) + Be32(Crc(Frame.HeaderBase(f)))
  {
    hide Crc, Be32, Be16;
  }

  /** The frames there are: the types of the protocol, no flags, a request id, at most
      8388608 bytes. */
  lemma FrameLimits(f: Frame.Frame)
    ensures Frame.Encodable(f) <==>
            && (1 <= f.msgType <= 4 || 16 <= f.msgType <= 20 || 32 <= f.msgType <= 33 || 48 <= f.msgType <= 50
                || 64 <= f.msgType <= 68 || 80 <= f.msgType <= 82 || 96 <= f.msgType <= 97
                || 200 <= f.msgType <= 201)
            && f.flags == 0 && f.reqId != 0 && |f.payload| <= 8388608
    ensures Frame.EncodeStatus(f) ==
            if Frame.Encodable(f) then OK
            else if |f.payload| > 8388608 && Frame.Encodable(f.(payload := [])) then E_RANGE
            else E_ARG
  {
  }

  // ---- A chunk file -----------------------------------------------------------------------

  /** The header of the chunk "123456789". */
  lemma KnownHeader()
    ensures ChunkFiles.ChunkHeader(|CHECK|, Crc(CHECK)) ==
            [0x46, 0x52, 0x43, 0x48, 1, 0, 0, 0, 0, 0, 0, 0, 0, 9, 0, 0, 0, 0, 0, 0, 0, 9,
             0xCB, 0xF4, 0x39, 0x26, 0, 0, 0, 0, 0, 0]
  {
    hide *;
    CheckValue();
    CheckLength();
    Nine();
    CheckWord();
    Small32(0);
    ChunkHeaderIs(9, 0xCBF43926);
  }

  lemma ChunkHeaderIs(rawLen: U64, crc: U32)
    ensures ChunkFiles.ChunkHeader(rawLen, crc) ==
            [0x46, 0x52, 0x43, 0x48, 1, 0] + Be64(rawLen) + Be64(rawLen) + Be32(crc) + Be32(0) + [0, 0]
  {
    hide Be64, Be32;
  }

  lemma Nine()
    ensures Be64(9) == [0, 0, 0, 0, 0, 0, 0, 9]
  {
    assert Be(0, 0) == [];
    assert Be(0, 1) == [0];
    assert Be(0, 2) == [0, 0];
    assert Be(0, 3) == [0, 0, 0];
    assert Be(0, 4) == [0, 0, 0, 0];
    assert Be(0, 5) == [0, 0, 0, 0, 0];
    assert Be(0, 6) == [0, 0, 0, 0, 0, 0];
    assert Be(0, 7) == [0, 0, 0, 0, 0, 0, 0];
  }

  lemma CheckWord()
    ensures Be32(0xCBF43926) == [0xCB, 0xF4, 0x39, 0x26]
  {
    assert Be(0, 0) == [];
    assert Be(0xCB, 1) == [0xCB];
    assert Be(0xCBF4, 2) == [0xCB, 0xF4];
    assert Be(0xCBF439, 3) == [0xCB, 0xF4, 0x39];
  }

  // ---- Flags ----------------------------------------------------------------------------------

  /** A flag or presence byte other than zero means yes, whatever it is. */
  lemma NonzeroIsTrue(b: Byte, rest: Bytes)
    ensures Wire.Dec(Wire.Flag, [b] + rest) == Wire.Got(Wire.Bool(b > 0), rest)
    ensures b == 0 ==> Wire.Dec(Wire.Optional(Wire.Text), [b] + rest) == Wire.Got(Wire.Absent, rest)
    ensures b > 0 ==> Wire.Dec(Wire.Optional(Wire.Text), [b] + rest) == Wire.Dec(Wire.Optional(Wire.Text), [1] + rest)
  {
    OneByte(b, rest);
    OneByte(1, rest);
    hide Load, Wire.DecNumber, Wire.DecPrefixed;
  }

  lemma OneByte(b: Byte, rest: Bytes)
    ensures Wire.DecNumber(1, [b] + rest) == Wire.Got(Wire.Num(b), rest)
  {
    assert ([b] + rest)[..1] == [b] && ([b] + rest)[1..] == rest;
    assert Load([]) == 0;
    assert [b][..0] == [];
  }

  // ---- Numbers of the protocol ----------------------------------------------------------------

  /** The status codes of an ERROR payload, as signed numbers. */
  lemma StatusNumbers()
    ensures Wire.ToSigned(Dispatch.StatusWord(OK), 4) == 0
    ensures Wire.ToSigned(Dispatch.StatusWord(E_ARG), 4) == -1
    ensures Wire.ToSigned(Dispatch.StatusWord(E_RANGE), 4) == -2
    ensures Wire.ToSigned(Dispatch.StatusWord(E_OVERFLOW), 4) == -3
    ensures Wire.ToSigned(Dispatch.StatusWord(E_NOMEM), 4) == -4
    ensures Wire.ToSigned(Dispatch.StatusWord(E_IO), 4) == -5
    ensures Wire.ToSigned(Dispatch.StatusWord(E_EOF), 4) == -6
    ensures Wire.ToSigned(Dispatch.StatusWord(E_PROTOCOL), 4) == -7
    ensures Wire.ToSigned(Dispatch.StatusWord(E_STATE), 4) == -9
    ensures Wire.ToSigned(Dispatch.StatusWord(E_NOTFOUND), 4) == -10
    ensures Wire.ToSigned(Dispatch.StatusWord(E_EXISTS), 4) == -11
    ensures Wire.ToSigned(Dispatch.StatusWord(E_LIMIT), 4) == -12
    ensures Wire.ToSigned(Dispatch.StatusWord(E_BUSY), 4) == -13
    ensures Wire.ToSigned(Dispatch.StatusWord(E_INTERNAL), 4) == -14
    ensures Wire.ToSigned(Dispatch.StatusWord(E_CONFLICT), 4) == -15
    ensures Wire.ToSigned(Dispatch.StatusWord(E_EXPIRED), 4) == -16
  {
    Widths();
  }

  /** The replies of a download: a DATA frame is its bytes, the OK carries their number in
      eight bytes, an ERROR the signed code and an empty text. */
  lemma ReplyFrames(reqId: U32, piece: Bytes, sent: U64, code: Status)
    ensures Dispatch.DataFrame(reqId, piece) == Frame.Frame(33, 0, reqId, piece)
    ensures Dispatch.OkFrame(reqId, sent) == Frame.Frame(200, 0, reqId, Be(sent, 8))
    ensures Load(Dispatch.OkFrame(reqId, sent).payload) == sent
    ensures var f := Dispatch.ErrorFrame(reqId, code);
            && f.msgType == 201 && f.flags == 0 && f.reqId == reqId && |f.payload| == 6
            && f.payload[4..] == [0, 0] && Load(f.payload[..4]) == Dispatch.StatusWord(code)
  {
    Widths();
    LoadBe(sent, 8);
    LoadBe(Dispatch.StatusWord(code), 4);
    Small32(0);
    ErrorIs(reqId, code);
    hide Be, Load, Dispatch.StatusWord, Be16;
  }

  lemma ErrorIs(reqId: U32, code: Status)
    ensures Dispatch.ErrorFrame(reqId, code) == Frame.Frame(201, 0, reqId, Be(Dispatch.StatusWord(code), 4) + Be16(0))
  {
    hide Be, Be16, Dispatch.StatusWord;
  }

  /** One call of the download handler sends at most a mebibyte, and that much if there is
      that much left. */
  lemma SliceLimit(content: Bytes, st: Dispatch.GetState)
    requires st.offset <= |content|
    ensures var n := Dispatch.SliceSize(content, st);
            && n <= 1024 * 1024 && n <= st.remaining && n <= |content| - st.offset
            && (n == 1024 * 1024 || n == st.remaining || n == |content| - st.offset)
  {
  }

  // ---- A log line ---------------------------------------------------------------------------

  function Ascii(s: string): (b: Bytes)
    ensures |b| == |s|
  {
    seq(|s|, i requires 0 <= i < |s| => s[i] as int % 256)
  }

  /** The seven cases of the escape, as the text they are. */
  lemma EscapeText(b: Byte)
    ensures Log.EscapeByte(b) ==
            if b == 0x22 then Ascii("\\\"") else if b == 0x5C then Ascii("\\\\")
            else if b == 0x0A then Ascii("\\n") else if b == 0x0D then Ascii("\\r")
            else if b == 0x09 then Ascii("\\t")
            else if b < 0x10 then Ascii("\\u000") + [Ascii("0123456789abcdef")[b]]
            else if b < 0x20 then Ascii("\\u001") + [Ascii("0123456789abcdef")[b - 16]]
            else [b]
  {
    Digits();
    Escapes();
    hide Ascii;
  }

  lemma Escapes()
    ensures Ascii("\\\"") == [0x5C, 0x22] && Ascii("\\\\") == [0x5C, 0x5C] && Ascii("\\n") == [0x5C, 0x6E]
    ensures Ascii("\\r") == [0x5C, 0x72] && Ascii("\\t") == [0x5C, 0x74]
    ensures Ascii("\\u000") == [0x5C, 0x75, 0x30, 0x30, 0x30] && Ascii("\\u001") == [0x5C, 0x75, 0x30, 0x30, 0x31]
  {
  }

  lemma Digits()
    ensures Ascii("0123456789abcdef") ==
            [0x30, 0x31, 0x32, 0x33, 0x34, 0x35, 0x36, 0x37, 0x38, 0x39, 0x61, 0x62, 0x63, 0x64, 0x65, 0x66]
  {
  }

  /** The keys of the line as the text they are, and eight pairs at most. */
  lemma LineText(e: Log.Entry)
    ensures Log.Line(e) ==
            Ascii("{\"ts\":") + e.ts + Ascii(",\"level\":\"") + e.level + Ascii("\",\"msg\":")
            + Log.Quoted(e.message)
            + (if e.requestId == [] then [] else Ascii(",\"req_id\":") + Log.Quoted(e.requestId))
            + Log.Pairs(if |e.kvs| > 8 then e.kvs[..8] else e.kvs) + Ascii("}\n")
    ensures forall text :: Log.Quoted(text) == Ascii("\"") + Log.Escape(text) + Ascii("\"")
  {
    hide Log.Quoted, Log.Pairs;
    Labels();
    hide Ascii;
    QuotedText();
  }

  lemma Labels()
    ensures Ascii("{\"ts\":") == Log.TS && Ascii(",\"level\":\"") == Log.LEVEL
    ensures Ascii("\",\"msg\":") == Log.MSG && Ascii(",\"req_id\":") == Log.REQ
    ensures Ascii("}\n") == [0x7D, Log.NEWLINE]
  {
  }

  lemma QuotedText()
    ensures forall text :: Log.Quoted(text) == Ascii("\"") + Log.Escape(text) + Ascii("\"")
  {
    assert Ascii("\"") == [Log.QUOTE];
    hide Log.Escape, Ascii;
  }
}
