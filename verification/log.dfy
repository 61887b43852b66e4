/** The structured log of `fr_log.cpp`: one JSON object per line, in files that
    rotate by size. */
module Log {
  import opened Bytes

  const QUOTE: Byte := 0x22
  const BACKSLASH: Byte := 0x5C
  const NEWLINE: Byte := 0x0A

  // ---- Escaping ------------------------------------------------------------------------

  /** A lower-case hexadecimal digit. */
  function HexDigit(n: nat): (d: Byte)
    requires n < 16
    ensures d >= 0x20
  {
    if n < 10 then 0x30 + n else 0x61 + n - 10
  }

  function HexValue(d: Byte): Option<nat> {
    if 0x30 <= d <= 0x39 then Some(d - 0x30)
    else if 0x61 <= d <= 0x66 then Some(d - 0x61 + 10)
    else if 0x41 <= d <= 0x46 then Some(d - 0x41 + 10)
    else None
  }

  function EscapeByte(b: Byte): Bytes {
    if b == QUOTE then [BACKSLASH, QUOTE]
    else if b == BACKSLASH then [BACKSLASH, BACKSLASH]
    else if b == NEWLINE then [BACKSLASH, 0x6E]
    else if b == 0x0D then [BACKSLASH, 0x72]
    else if b == 0x09 then [BACKSLASH, 0x74]
    else if b < 0x20 then [BACKSLASH, 0x75, 0x30, 0x30, HexDigit(b / 16), HexDigit(b % 16)]
    else [b]
  }

  function Escape(s: Bytes): Bytes {
    if s == [] then [] else EscapeByte(s[0]) + Escape(s[1..])
  }

  lemma {:induction false} EscapeSnoc(s: Bytes, b: Byte)
    ensures Escape(s + [b]) == Escape(s) + EscapeByte(b)
  {
    hide EscapeByte;
    if s == [] {
      assert [] + [b] == [b] && [b][1..] == [];
    } else {
      assert (s + [b])[1..] == s[1..] + [b];
      EscapeSnoc(s[1..], b);
      Assoc(EscapeByte(s[0]), Escape(s[1..]), EscapeByte(b));
    }
  }

  /** json_escape. */
  method JsonEscape(s: Bytes) returns (out: Bytes)
    ensures out == Escape(s)
  {
    hide EscapeByte;
    out := [];
    for i := 0 to |s|
      invariant out == Escape(s[..i])
    {
      assert s[..i + 1] == s[..i] + [s[i]];
      EscapeSnoc(s[..i], s[i]);
      var e := EscapeByte(s[i]);
      out := out + e;
    }
    assert s[..|s|] == s;
  }

  // ---- Reading a string back, after section 7 of RFC 8259 ---------------------------------

  /** One character of a string body and what follows it. `None` at a quote, a bare
      control character or a malformed escape; code points above 255 are outside
      what the writer produces. */
  function ReadChar(s: Bytes): Option<(Byte, Bytes)> {
    if s == [] || s[0] == QUOTE || s[0] < 0x20 then None
    else if s[0] != BACKSLASH then Some((s[0], s[1..]))
    else if |s| < 2 then None
    else if s[1] in {QUOTE, BACKSLASH, 0x2F} then Some((s[1], s[2..]))
    else if s[1] == 0x62 then Some((0x08, s[2..]))
    else if s[1] == 0x66 then Some((0x0C, s[2..]))
    else if s[1] == 0x6E then Some((NEWLINE, s[2..]))
    else if s[1] == 0x72 then Some((0x0D, s[2..]))
    else if s[1] == 0x74 then Some((0x09, s[2..]))
    else if s[1] == 0x75 && |s| >= 6 && s[2] == 0x30 && s[3] == 0x30 then
      match (HexValue(s[4]), HexValue(s[5]))
      case (Some(h), Some(l)) => Some((16 * h + l, s[6..]))
      case _ => None
    else None
  }

  /** A string body up to its closing quote, and what follows the quote. */
  function ReadString(s: Bytes): Option<(Bytes, Bytes)>
    decreases |s|
  {
    if s != [] && s[0] == QUOTE then Some(([], s[1..]))
    else
      match ReadChar(s)
      case None => None
      case Some((b, rest)) =>
        if |rest| >= |s| then None
        else
          match ReadString(rest)
          case None => None
          case Some((text, after)) => Some(([b] + text, after))
  }

  lemma HexBack(n: nat)
    requires n < 16
    ensures HexValue(HexDigit(n)) == Some(n)
  {
  }

  lemma ReadEscaped(b: Byte, rest: Bytes)
    ensures var s := EscapeByte(b) + rest;
            s != [] && s[0] != QUOTE && ReadChar(s) == Some((b, rest)) && |rest| < |s|
  {
    var e := EscapeByte(b);
    var s := e + rest;
    assert s[|e|..] == rest && s[0] == e[0];
    if |e| == 2 {
      assert s[1] == e[1];
    }
    if |e| == 6 {
      HexBack(b / 16);
      HexBack(b % 16);
      assert s[1] == e[1] && s[2] == e[2] && s[3] == e[3] && s[4] == e[4] && s[5] == e[5];
    }
  }

  /** Main result: a JSON reader gets back exactly the text that was escaped. */
  lemma {:induction false} EscapeRoundTrip(s: Bytes, rest: Bytes)
    ensures ReadString(Escape(s) + [QUOTE] + rest) == Some((s, rest))
  {
    hide EscapeByte, ReadChar;
    if s == [] {
      assert Escape(s) + [QUOTE] + rest == [QUOTE] + rest;
      assert ([QUOTE] + rest)[1..] == rest;
    } else {
      var tail := Escape(s[1..]) + [QUOTE] + rest;
      assert Escape(s) + [QUOTE] + rest == EscapeByte(s[0]) + tail;
      ReadEscaped(s[0], tail);
      EscapeRoundTrip(s[1..], rest);
      assert [s[0]] + s[1..] == s;
    }
  }

  // ---- One line ------------------------------------------------------------------------------

  /** No control byte, so in particular no line break. */
  predicate Printable(s: Bytes) {
    forall i :: 0 <= i < |s| ==> s[i] >= 0x20
  }

  lemma {:induction false} EscapePrintable(s: Bytes)
    ensures Printable(Escape(s))
  {
    if s != [] {
      EscapePrintable(s[1..]);
      assert Printable(EscapeByte(s[0]));
      hide EscapeByte;
    }
  }

  /** A line: printable bytes and then one line break. */
  predicate IsLine(s: Bytes) {
    s != [] && s[|s| - 1] == NEWLINE && Printable(s[..|s| - 1])
  }

  lemma PrintableAppend(a: Bytes, b: Bytes)
    requires Printable(a) && Printable(b)
    ensures Printable(a + b)
  {
  }

  /** key ":" "value" with the value escaped and quoted. */
  function Quoted(value: Bytes): Bytes { [QUOTE] + Escape(value) + [QUOTE] }

  lemma QuotedPrintable(value: Bytes)
    ensures Printable(Quoted(value))
  {
    EscapePrintable(value);
  }

  const MAX_PAIRS: nat := 8

  /** What Logger::log writes; at most eight of the key-value pairs. */
  function Pairs(kvs: seq<(Bytes, Bytes)>): Bytes {
    if kvs == [] then [] else [0x2C] + Quoted(kvs[0].0) + [0x3A] + Quoted(kvs[0].1) + Pairs(kvs[1..])
  }

  lemma {:induction false} PairsSnoc(kvs: seq<(Bytes, Bytes)>, kv: (Bytes, Bytes))
    ensures Pairs(kvs + [kv]) == Pairs(kvs) + ([0x2C] + Quoted(kv.0) + [0x3A] + Quoted(kv.1))
  {
    hide Quoted;
    if kvs == [] {
      assert [] + [kv] == [kv] && [kv][1..] == [];
    } else {
      assert (kvs + [kv])[1..] == kvs[1..] + [kv];
      PairsSnoc(kvs[1..], kv);
      Assoc([0x2C] + Quoted(kvs[0].0) + [0x3A] + Quoted(kvs[0].1), Pairs(kvs[1..]),
            [0x2C] + Quoted(kv.0) + [0x3A] + Quoted(kv.1));
    }
  }

  lemma {:induction false} PairsPrintable(kvs: seq<(Bytes, Bytes)>)
    ensures Printable(Pairs(kvs))
  {
    hide Quoted;
    if kvs != [] {
      QuotedPrintable(kvs[0].0);
      QuotedPrintable(kvs[0].1);
      PairsPrintable(kvs[1..]);
    }
  }

  datatype Entry = Entry(ts: Bytes, level: Bytes, message: Bytes, requestId: Bytes, kvs: seq<(Bytes, Bytes)>)

  const TS: Bytes := [0x7B, 0x22, 0x74, 0x73, 0x22, 0x3A]                              // {"ts":
  const LEVEL: Bytes := [0x2C, 0x22, 0x6C, 0x65, 0x76, 0x65, 0x6C, 0x22, 0x3A, 0x22]  // ,"level":"
  const MSG: Bytes := [0x22, 0x2C, 0x22, 0x6D, 0x73, 0x67, 0x22, 0x3A]                // ","msg":
  const REQ: Bytes := [0x2C, 0x22, 0x72, 0x65, 0x71, 0x5F, 0x69, 0x64, 0x22, 0x3A]    // ,"req_id":

  function Body(e: Entry): Bytes {
    TS + e.ts + LEVEL + e.level + MSG + Quoted(e.message)
    + (if e.requestId == [] then [] else REQ + Quoted(e.requestId))
    + Pairs(if |e.kvs| > MAX_PAIRS then e.kvs[..MAX_PAIRS] else e.kvs)
  }

  function Line(e: Entry): Bytes { Body(e) + [0x7D, NEWLINE] }

  /** Main result: whatever the texts are, an entry is exactly one line. The clock
      and the level name are digits and letters. */
  lemma EntryIsLine(e: Entry)
    requires Printable(e.ts) && Printable(e.level)
    ensures IsLine(Line(e))
  {
    BodyPrintable(e);
    hide Body;
    var l := Line(e);
    assert l[..|l| - 1] == Body(e) + [0x7D];
  }

  lemma BodyPrintable(e: Entry)
    requires Printable(e.ts) && Printable(e.level)
    ensures Printable(Body(e))
  {
    var id := if e.requestId == [] then [] else REQ + Quoted(e.requestId);
    var pairs := Pairs(if |e.kvs| > MAX_PAIRS then e.kvs[..MAX_PAIRS] else e.kvs);
    QuotedPrintable(e.message);
    QuotedPrintable(e.requestId);
    PairsPrintable(if |e.kvs| > MAX_PAIRS then e.kvs[..MAX_PAIRS] else e.kvs);
    LabelsPrintable();
    hide Printable, Quoted, Pairs;
    PrintableAppend(REQ, Quoted(e.requestId));
    var a := TS + e.ts;
    PrintableAppend(TS, e.ts);
    var b := a + LEVEL;
    PrintableAppend(a, LEVEL);
    var c := b + e.level;
    PrintableAppend(b, e.level);
    var d := c + MSG;
    PrintableAppend(c, MSG);
    PrintableAppend(d, Quoted(e.message));
    PrintableAppend(d + Quoted(e.message), id);
    PrintableAppend(d + Quoted(e.message) + id, pairs);
  }

  lemma LabelsPrintable()
    ensures Printable([]) && Printable(TS) && Printable(LEVEL) && Printable(MSG) && Printable(REQ)
  {
  }

  /** The assembly of the line in Logger::log. */
  method BuildLine(e: Entry) returns (line: Bytes)
    ensures line == Line(e)
  {
    hide Escape;
    line := TS + e.ts + LEVEL + e.level + MSG;
    var message := JsonEscape(e.message);
    line := line + ([QUOTE] + message + [QUOTE]);
    if e.requestId != [] {
      var id := JsonEscape(e.requestId);
      line := line + (REQ + ([QUOTE] + id + [QUOTE]));
    } else {
      line := line + [];
    }
    ghost var head := line;
    var n := if |e.kvs| > MAX_PAIRS then MAX_PAIRS else |e.kvs|;
    assert e.kvs[..0] == [];
    for i := 0 to n
      invariant line == head + Pairs(e.kvs[..i])
    {
      var key := JsonEscape(e.kvs[i].0);
      var value := JsonEscape(e.kvs[i].1);
      assert e.kvs[..i + 1] == e.kvs[..i] + [e.kvs[i]];
      PairsSnoc(e.kvs[..i], e.kvs[i]);
      Assoc(head, Pairs(e.kvs[..i]), [0x2C] + Quoted(e.kvs[i].0) + [0x3A] + Quoted(e.kvs[i].1));
      line := line + ([0x2C] + ([QUOTE] + key + [QUOTE]) + [0x3A] + ([QUOTE] + value + [QUOTE]));
    }
    assert e.kvs[..n] == if |e.kvs| > MAX_PAIRS then e.kvs[..MAX_PAIRS] else e.kvs;
    line := line + [0x7D, NEWLINE];
  }

  // ---- Rotation ---------------------------------------------------------------------------------

  /** The lines of the retained files, newest file first, oldest line first. */
  function Joined(kept: seq<seq<Bytes>>): seq<Bytes> {
    if kept == [] then [] else Joined(kept[1..]) + kept[0]
  }

  lemma {:induction false} JoinedLast(kept: seq<seq<Bytes>>)
    requires kept != []
    ensures Joined(kept) == kept[|kept| - 1] + Joined(kept[..|kept| - 1])
  {
    if |kept| > 1 {
      JoinedLast(kept[1..]);
      assert kept[1..][..|kept| - 2] == kept[..|kept| - 1][1..];
      Assoc(kept[|kept| - 1], Joined(kept[..|kept| - 1][1..]), kept[0]);
    } else {
      assert Joined(kept) == Joined([]) + kept[0] == kept[0];
      assert kept[0] + [] == kept[0];
    }
  }

  lemma JoinedEmpty(kept: seq<seq<Bytes>>)
    ensures Joined([[]] + kept) == Joined(kept)
  {
    assert ([[]] + kept)[1..] == kept && Joined(kept) + [] == Joined(kept);
  }

  lemma NoLines()
    ensures Joined([[]]) == Joined([]) == []
  {
    var none: seq<seq<Bytes>> := [];
    JoinedEmpty(none);
    assert [[]] + none == [[]];
  }

  lemma JoinedWrite(kept: seq<seq<Bytes>>, line: Bytes)
    requires kept != []
    ensures Joined(kept[0 := kept[0] + [line]]) == Joined(kept) + [line]
  {
    assert kept[0 := kept[0] + [line]][1..] == kept[1..];
    Assoc(Joined(kept[1..]), kept[0], [line]);
  }

  /** The limit on one file, by how much older it is than the log that was there when
      logging began, which held the lines `found`. */
  ghost predicate SizeKept(file: Bytes, lines: seq<Bytes>, older: int, found: seq<Bytes>, limit: nat) {
    |file| < limit || |lines| <= 1 || older > 0 || (older == 0 && lines == found)
  }

  /** The files hold these lines, newest file first, each within its limit. */
  ghost predicate FilesKept(files: map<nat, Bytes>, kept: seq<seq<Bytes>>, rotations: nat, found: seq<Bytes>,
                            limit: nat)
  {
    && kept != [] && Contiguous(files, |kept|)
    && forall i :: 0 <= i < |kept| ==>
         files[i] == Flatten(kept[i]) && SizeKept(files[i], kept[i], i - rotations, found, limit)
  }

  lemma RotatedFiles(before: map<nat, Bytes>, after: map<nat, Bytes>, lines: seq<seq<Bytes>>, n: nat, rotations: nat,
                     found: seq<Bytes>, limit: nat)
    requires FilesKept(before, lines, rotations, found, limit) && n <= |lines|
    requires Contiguous(after, n + 1) && after[0] == []
    requires forall j: nat :: 1 <= j <= n ==> after[j] == before[j - 1]
    ensures FilesKept(after, [[]] + lines[..n], rotations + 1, found, limit)
  {
    var kept := [[]] + lines[..n];
    FlattenNil();
    forall i | 0 <= i < |kept|
      ensures after[i] == Flatten(kept[i]) && SizeKept(after[i], kept[i], i - (rotations + 1), found, limit)
    {
      if i > 0 {
        assert kept[i] == lines[i - 1] && after[i] == before[i - 1];
      }
    }
  }

  lemma WrittenFiles(files: map<nat, Bytes>, kept: seq<seq<Bytes>>, line: Bytes, rotations: nat, found: seq<Bytes>,
                     limit: nat)
    requires FilesKept(files, kept, rotations, found, limit)
    requires |files[0]| + |line| < limit || kept[0] == []
    ensures FilesKept(files[0 := files[0] + line], kept[0 := kept[0] + [line]], rotations, found, limit)
  {
    FlattenSnoc(kept[0], line);
    hide Flatten;
  }

  lemma RetainedSizes(files: map<nat, Bytes>, kept: seq<seq<Bytes>>, rotations: nat, found: seq<Bytes>, limit: nat)
    requires FilesKept(files, kept, rotations, found, limit)
    ensures forall i :: 0 <= i < |kept| ==> i in files && files[i] == Flatten(kept[i])
    ensures forall i :: 0 <= i < |kept| && i < rotations ==> |files[i]| < limit || |kept[i]| <= 1
    ensures rotations < |kept| ==>
              |files[rotations]| < limit || |kept[rotations]| <= 1 || kept[rotations] == found
  {
    forall i | 0 <= i < |kept| && i <= rotations
      ensures |files[i]| < limit || |kept[i]| <= 1 || (i == rotations && kept[i] == found)
    {
      assert SizeKept(files[i], kept[i], i - rotations, found, limit);
    }
  }

  /** What a logger keeps: the lines of each file, the newest first; the lines of files
      that are gone; and how often the files have moved. */
  datatype Retained = Retained(kept: seq<seq<Bytes>>, dropped: seq<Bytes>, rotations: nat)

  /** The log would reach its limit with this line. */
  predicate Due(r: Retained, line: Bytes, limit: nat)
    requires r.kept != []
  {
    |Flatten(r.kept[0])| + |line| >= limit
  }

  /** A fresh log in front of at most `top` old ones. */
  function Turned(r: Retained, top: nat): Retained {
    if |r.kept| > top then Retained([[]] + r.kept[..top], r.dropped + r.kept[top], r.rotations + 1)
    else Retained([[]] + r.kept, r.dropped, r.rotations + 1)
  }

  lemma TurnedIs(r: Retained, top: nat)
    requires |r.kept| <= top + 1
    ensures Turned(r, top) == Retained([[]] + r.kept[..Min(|r.kept|, top)],
                                       r.dropped + (if |r.kept| == top + 1 then r.kept[top] else []),
                                       r.rotations + 1)
  {
    if |r.kept| <= top {
      assert r.kept[..|r.kept|] == r.kept && r.dropped + [] == r.dropped;
    }
  }

  function Written(r: Retained, line: Bytes, limit: nat, top: nat): (w: Retained)
    requires r.kept != []
    ensures w.kept != []
  {
    var s := if Due(r, line, limit) then Turned(r, top) else r;
    s.(kept := s.kept[0 := s.kept[0] + [line]])
  }

  /** After these lines, one after the other. */
  function AfterLines(r: Retained, lines: seq<Bytes>, limit: nat, top: nat): (w: Retained)
    requires r.kept != []
    ensures w.kept != []
  {
    if lines == [] then r
    else Written(AfterLines(r, lines[..|lines| - 1], limit, top), lines[|lines| - 1], limit, top)
  }

  /** What was the newest file is number d now, grown if it is still the newest, with the
      same lines as before in the files older than it and in those gone. */
  ghost predicate AtPlace(r: Retained, w: Retained, d: nat)
    requires r.kept != []
  {
    && d < |w.kept| && r.kept[0] <= w.kept[d]
    && w.dropped + Joined(w.kept[d + 1..]) == r.dropped + Joined(r.kept[1..])
  }

  ghost predicate Gone(r: Retained, w: Retained) { r.dropped + Joined(r.kept) <= w.dropped }

  /** Either, by how often the files have moved since. */
  ghost predicate Placed(r: Retained, w: Retained, top: nat)
    requires r.kept != []
  {
    && r.rotations <= w.rotations && 1 <= |w.kept| <= top + 1
    && if w.rotations - r.rotations <= top then AtPlace(r, w, w.rotations - r.rotations) else Gone(r, w)
  }

  lemma PlacedTurned(r: Retained, w: Retained, top: nat)
    requires r.kept != [] && Placed(r, w, top)
    ensures Placed(r, Turned(w, top), top)
  {
    var d, t := w.rotations - r.rotations, Turned(w, top);
    if d <= top {
      if |w.kept| > top {
        if d == top {
          assert w.kept[d + 1..] == [] && w.dropped + [] == w.dropped;
          assert t.dropped == r.dropped + Joined(r.kept[1..]) + w.kept[top];
          Assoc(r.dropped, Joined(r.kept[1..]), r.kept[0]);
          assert r.dropped + Joined(r.kept) <= t.dropped;
        } else {
          assert t.kept[d + 2..] == w.kept[d + 1..top];
          JoinedLast(w.kept[d + 1..]);
          assert w.kept[d + 1..][..|w.kept[d + 1..]| - 1] == w.kept[d + 1..top];
          Assoc(w.dropped, w.kept[top], Joined(w.kept[d + 1..top]));
        }
      } else {
        assert t.kept[d + 2..] == w.kept[d + 1..];
      }
    }
  }

  lemma PlacedAppended(r: Retained, w: Retained, line: Bytes, top: nat)
    requires r.kept != [] && Placed(r, w, top)
    ensures Placed(r, w.(kept := w.kept[0 := w.kept[0] + [line]]), top)
  {
    var d, t := w.rotations - r.rotations, w.(kept := w.kept[0 := w.kept[0] + [line]]);
    if d <= top {
      assert t.kept[d + 1..] == w.kept[d + 1..];
    }
  }

  /** Main result: a line leaves the retained files exactly with the one rotation too many
      since it was written: until then the file it went to is still there, `d` places on. */
  lemma {:induction false} LostIff(r: Retained, lines: seq<Bytes>, limit: nat, top: nat)
    requires 1 <= |r.kept| <= top + 1
    ensures Placed(r, AfterLines(r, lines, limit, top), top)
  {
    hide Due, Placed, Joined;
    if lines == [] {
      Here(r, top);
    } else {
      var n := |lines| - 1;
      var w := AfterLines(r, lines[..n], limit, top);
      LostIff(r, lines[..n], limit, top);
      if Due(w, lines[n], limit) {
        PlacedTurned(r, w, top);
        PlacedAppended(r, Turned(w, top), lines[n], top);
      } else {
        PlacedAppended(r, w, lines[n], top);
      }
    }
  }

  lemma Here(r: Retained, top: nat)
    requires 1 <= |r.kept| <= top + 1
    ensures Placed(r, r, top)
  {
  }

  /** The line that begins the newer file would have taken the older one to its limit. */
  predicate ClosedBy(older: seq<Bytes>, newer: seq<Bytes>, limit: nat) {
    newer != [] && |Flatten(older)| + |newer[0]| >= limit
  }

  /** So with each of the first d files past the log. */
  predicate Full(kept: seq<seq<Bytes>>, d: nat, limit: nat) {
    forall j :: 1 <= j < |kept| && j <= d ==> ClosedBy(kept[j], kept[j - 1], limit)
  }

  lemma FullAppended(kept: seq<seq<Bytes>>, line: Bytes, d: nat, limit: nat)
    requires kept != [] && Full(kept, d, limit)
    ensures Full(kept[0 := kept[0] + [line]], d, limit)
  {
    var t := kept[0 := kept[0] + [line]];
    forall j | 1 <= j < |t| && j <= d ensures ClosedBy(t[j], t[j - 1], limit) {
      assert ClosedBy(kept[j], kept[j - 1], limit);
    }
  }

  lemma FullTurned(w: Retained, line: Bytes, limit: nat, top: nat, d: nat)
    requires w.kept != [] && Full(w.kept, d, limit) && Due(w, line, limit)
    ensures Full(Turned(w, top).kept[0 := [line]], d + 1, limit)
  {
    var t := Turned(w, top).kept[0 := [line]];
    forall j | 1 <= j < |t| && j <= d + 1 ensures ClosedBy(t[j], t[j - 1], limit) {
      if j > 1 {
        assert t[j] == w.kept[j - 1] && t[j - 1] == w.kept[j - 2];
        assert ClosedBy(w.kept[j - 1], w.kept[j - 1 - 1], limit);
      }
    }
  }

  lemma FullWritten(w: Retained, line: Bytes, limit: nat, top: nat, d: nat)
    requires w.kept != [] && Full(w.kept, d, limit)
    ensures Full(Written(w, line, limit, top).kept, if Due(w, line, limit) then d + 1 else d, limit)
  {
    if Due(w, line, limit) {
      FullTurned(w, line, limit, top, d);
      assert [] + [line] == [line];
    } else {
      FullAppended(w.kept, line, d, limit);
    }
    hide Full, Due, Flatten;
  }

  /** Main result: no file is closed early. */
  lemma {:induction false} ClosedFull(r: Retained, lines: seq<Bytes>, limit: nat, top: nat)
    requires r.kept != []
    ensures var w := AfterLines(r, lines, limit, top);
            w.rotations >= r.rotations && Full(w.kept, w.rotations - r.rotations, limit)
  {
    hide Due, Full;
    if lines == [] {
      NoneClosed(r.kept, limit);
    } else {
      var n := |lines| - 1;
      var w := AfterLines(r, lines[..n], limit, top);
      ClosedFull(r, lines[..n], limit, top);
      FullWritten(w, lines[n], limit, top, w.rotations - r.rotations);
    }
  }

  lemma NoneClosed(kept: seq<seq<Bytes>>, limit: nat)
    ensures Full(kept, 0, limit)
  {
  }

  /** Each of the first n files is now the next one. */
  ghost predicate Moved(before: map<nat, Bytes>, after: map<nat, Bytes>, n: nat) {
    Contiguous(after, n + 1) && forall j: nat :: j < n ==> MovedUp(before, after, j)
  }

  ghost predicate MovedUp(before: map<nat, Bytes>, after: map<nat, Bytes>, j: nat) {
    j in before && j + 1 in after && after[j + 1] == before[j]
  }

  class Logger {
    const maxFileBytes: nat
    const keepFiles: int
    var files: map<nat, Bytes>   // 0 is the log itself, i its i-th rotation
    var currentBytes: nat
    ghost var kept: seq<seq<Bytes>>  // the lines of each file
    ghost var dropped: seq<Bytes>    // lines of files that were overwritten
    ghost var rotations: nat         // since the log was opened
    ghost const found: seq<Bytes>   // the lines it held then

    /** At least one rotated file is kept whatever the policy says. */
    function Slots(): nat {
      if keepFiles < 1 then 1 else keepFiles
    }

    ghost predicate Valid()
      reads this
    {
      && |kept| <= Slots() + 1 && FilesKept(files, kept, rotations, found, maxFileBytes)
      && currentBytes == |files[0]|
    }

    ghost function View(): Retained
      reads this
    {
      Retained(kept, dropped, rotations)
    }

    /** Everything ever logged. */
    ghost function Logged(): seq<Bytes>
      reads this
    {
      dropped + Joined(kept)
    }

    /** open: the log is appended to if it is there, created if not, and its present
        size taken over. The files are what a run with this policy leaves, of
        whatever sizes. */
    constructor (maxBytes: nat, keep: int, there: map<nat, Bytes>, ghost lines: seq<seq<Bytes>>)
      requires |lines| <= (if keep < 1 then 1 else keep) + 1 && Contiguous(there, |lines|)
      requires forall i :: 0 <= i < |lines| ==> there[i] == Flatten(lines[i])
      ensures Valid() && Logged() == Joined(lines) && maxFileBytes == maxBytes && keepFiles == keep
      ensures files == (if 0 in there then there else map[0 := []]) && rotations == 0
    {
      maxFileBytes, keepFiles := maxBytes, keep;
      files := if 0 in there then there else map[0 := []];
      currentBytes := if 0 in there then |there[0]| else 0;
      kept, dropped, rotations := if lines == [] then [[]] else lines, [], 0;
      found := if lines == [] then [] else lines[0];
      new;
      FlattenNil();
      NoLines();
    }

    /** The renames log.i -> log.(i+1), from the oldest down, then log -> log.1 and
        a fresh log. A rename of a missing file does nothing. */
    method ShiftFiles(ghost n: nat)
      requires Contiguous(files, n) && 1 <= n <= Slots() + 1
      modifies this`files
      ensures Contiguous(files, Min(n, Slots()) + 1) && files[0] == []
      ensures forall j: nat :: 1 <= j <= Min(n, Slots()) ==> files[j] == old(files)[j - 1]
    {
      ghost var before := files;
      var top := Slots();
      var i := keepFiles - 1;
      ShiftStart(before, top, n);
      while i >= 1
        modifies this`files
        invariant i < top && (i >= 0 || keepFiles < 1)
        invariant Shifted(before, files, if i < 0 then 0 else i, top)
      {
        ShiftOne(before, files, i, top, n);
        if i in files {
          files := files[i + 1 := files[i]] - {i};
        }
        i := i - 1;
      }
      ShiftEnd(before, files, top, n);
      files := files[1 := files[0]];
      files := files[0 := []];
    }

    /** Every file moves up by one; the oldest goes when the policy's number is reached. */
    method Rotate()
      requires Valid()
      modifies this
      ensures Valid() && Logged() == old(Logged())
      ensures Moved(old(files), files, Min(|old(kept)|, Slots())) && files[0] == [] && kept[0] == []
      ensures View() == Turned(old(View()), Slots())
    {
      ghost var was := View();
      ShiftFiles(|kept|);
      currentBytes := 0;
      hide Joined, FilesKept, Turned;
      RotatedAll(old(files), files, was, Slots(), found, maxFileBytes);
      kept, dropped, rotations :=
        Turned(was, Slots()).kept, Turned(was, Slots()).dropped, Turned(was, Slots()).rotations;
    }

    /** fputs and the count. */
    method Put(line: Bytes)
      requires Valid() && (currentBytes + |line| < maxFileBytes || kept[0] == [])
      modifies this
      ensures Valid() && Logged() == old(Logged()) + [line]
      ensures files == old(files)[0 := old(files)[0] + line]
      ensures kept == old(kept)[0 := old(kept)[0] + [line]] && dropped == old(dropped) && rotations == old(rotations)
    {
      WrittenAll(files, View(), line, found, maxFileBytes);
      hide *;
      files := files[0 := files[0] + line];
      currentBytes := currentBytes + |line|;
      kept := kept[0 := kept[0] + [line]];
    }

    /** rotate_if_needed_locked, then the write. While the log stays below its limit the
        line is appended and nothing else happens. Otherwise the line begins a new log,
        every file moves up by one, and only the oldest of a full set is lost. */
    method Write(line: Bytes)
      requires Valid()
      modifies this
      ensures Valid() && Logged() == old(Logged()) + [line]
      ensures View() == Written(old(View()), line, maxFileBytes, Slots())
      ensures old(currentBytes) + |line| < maxFileBytes ==> files == old(files)[0 := old(files)[0] + line]
      ensures old(currentBytes) + |line| >= maxFileBytes ==>
                Moved(old(files), files, Min(|old(kept)|, if keepFiles < 1 then 1 else keepFiles)) && files[0] == line
    {
      ghost var was := View();
      SizeIs(files, was, line, found, maxFileBytes);
      hide Joined, FilesKept, Turned, Due, Moved, Written;
      if currentBytes + |line| >= maxFileBytes {
        Rotate();
        MovedWritten(old(files), files, Min(|was.kept|, Slots()), line);
      }
      WrittenIs(was, View(), line, maxFileBytes, Slots());
      Put(line);
    }

    /** Main result: what the retained files hold, oldest first, is a suffix of
        everything ever logged, cut where a file began. Every file begun since the log
        was opened is below the size limit or holds at most one line; so is the log
        that was found then, or nothing was added to it. */
    lemma RetainedSuffix()
      requires Valid()
      ensures forall j: nat :: j < |kept| ==> j in files
      ensures Flatten(Logged()) == Flatten(dropped) + OldestFirst(files, |kept|)
      ensures forall i :: 0 <= i < |kept| && i < rotations ==> |files[i]| < maxFileBytes || |kept[i]| <= 1
      ensures rotations < |kept| ==>
                |files[rotations]| < maxFileBytes || |kept[rotations]| <= 1 || kept[rotations] == found
    {
      hide Flatten, Joined, SizeKept;
      RetainedSizes(files, kept, rotations, found, maxFileBytes);
      FilesAreLines(files, kept);
      FlattenAppend(dropped, Joined(kept));
    }

    /** Logger::log on an open file: the entry is appended as exactly one line. */
    method LogEntry(e: Entry) returns (ghost line: Bytes)
      requires Valid() && Printable(e.ts) && Printable(e.level)
      modifies this
      ensures Valid() && IsLine(line) && Logged() == old(Logged()) + [line]
      ensures line == Line(e)
      ensures View() == Written(old(View()), line, maxFileBytes, Slots())
      ensures old(currentBytes) + |line| < maxFileBytes ==> files == old(files)[0 := old(files)[0] + line]
      ensures old(currentBytes) + |line| >= maxFileBytes ==>
                Moved(old(files), files, Min(|old(kept)|, if keepFiles < 1 then 1 else keepFiles)) && files[0] == line
    {
      EntryIsLine(e);
      var text := BuildLine(e);
      line := text;
      hide Line, IsLine;
      Write(text);
    }
  }

  /** The contents of the first n files, oldest first. */
  function OldestFirst(files: map<nat, Bytes>, n: nat): Bytes
    requires forall j: nat :: j < n ==> j in files
  {
    if n == 0 then [] else files[n - 1] + OldestFirst(files, n - 1)
  }

  lemma {:induction false} FilesAreLines(files: map<nat, Bytes>, kept: seq<seq<Bytes>>)
    requires forall j: nat :: j < |kept| ==> j in files && files[j] == Flatten(kept[j])
    ensures OldestFirst(files, |kept|) == Flatten(Joined(kept))
    decreases |kept|
  {
    if kept == [] {
      FlattenNil();
    } else {
      var n := |kept| - 1;
      FilesAreLines(files, kept[..n]);
      JoinedLast(kept);
      FlattenAppend(kept[n], Joined(kept[..n]));
    }
  }

  /** The oldest file goes when all are taken; everything else is still there. */
  lemma RotatedLines(lines: seq<seq<Bytes>>, dropped: seq<Bytes>, top: nat)
    requires |lines| <= top + 1
    ensures var gone := if |lines| == top + 1 then lines[top] else [];
            dropped + gone + Joined([[]] + lines[..Min(|lines|, top)]) == dropped + Joined(lines)
  {
    if |lines| == top + 1 {
      JoinedLast(lines);
      JoinedEmpty(lines[..top]);
      Assoc(dropped, lines[top], Joined(lines[..top]));
    } else {
      assert lines[..|lines|] == lines && dropped + [] == dropped;
      JoinedEmpty(lines);
    }
  }

  lemma SizeIs(files: map<nat, Bytes>, r: Retained, line: Bytes, found: seq<Bytes>, limit: nat)
    requires FilesKept(files, r.kept, r.rotations, found, limit)
    ensures r.kept != [] && 0 in files && (Due(r, line, limit) <==> |files[0]| + |line| >= limit)
    ensures files[0 := [] + line] == files[0 := line]
  {
    assert [] + line == line;
  }

  lemma MovedWritten(before: map<nat, Bytes>, after: map<nat, Bytes>, n: nat, line: Bytes)
    requires Moved(before, after, n) && 0 in after && after[0] == []
    ensures Moved(before, after[0 := after[0] + line], n) && after[0] + line == line
  {
    var t := after[0 := after[0] + line];
    forall j: nat ensures j in t <==> j < n + 1 {
      assert j in after <==> j < n + 1;
    }
    forall j: nat | j < n ensures MovedUp(before, t, j) {
      assert MovedUp(before, after, j);
    }
    assert [] + line == line;
  }

  lemma WrittenIs(was: Retained, mid: Retained, line: Bytes, limit: nat, top: nat)
    requires was.kept != [] && mid == if Due(was, line, limit) then Turned(was, top) else was
    ensures mid.kept != []
    ensures Written(was, line, limit, top) ==
            Retained(mid.kept[0 := mid.kept[0] + [line]], mid.dropped, mid.rotations)
  {
  }

  /** A write, the files and their lines together. */
  lemma WrittenAll(files: map<nat, Bytes>, r: Retained, line: Bytes, found: seq<Bytes>, limit: nat)
    requires FilesKept(files, r.kept, r.rotations, found, limit) && 0 in files
    requires r.kept != [] && (|files[0]| + |line| < limit || r.kept[0] == [])
    ensures var kept := r.kept[0 := r.kept[0] + [line]];
            && FilesKept(files[0 := files[0] + line], kept, r.rotations, found, limit)
            && r.dropped + Joined(kept) == r.dropped + Joined(r.kept) + [line]
  {
    hide Flatten, SizeKept;
    WrittenFiles(files, r.kept, line, r.rotations, found, limit);
    JoinedWrite(r.kept, line);
    Assoc(r.dropped, Joined(r.kept), [line]);
  }

  lemma AllMoved(before: map<nat, Bytes>, after: map<nat, Bytes>, kept: seq<seq<Bytes>>, top: nat, rotations: nat,
                 found: seq<Bytes>, limit: nat)
    requires FilesKept(before, kept, rotations, found, limit) && Contiguous(after, Min(|kept|, top) + 1)
    requires forall j: nat :: 1 <= j <= Min(|kept|, top) ==> after[j] == before[j - 1]
    ensures kept != [] && 0 in after && Moved(before, after, Min(|kept|, top)) && 0 <= Min(|kept|, top) <= |kept|
    ensures |[[]] + kept[..Min(|kept|, top)]| <= top + 1
  {
    hide Flatten, SizeKept;
    assert Contiguous(before, |kept|);
    forall j: nat | j < Min(|kept|, top) ensures MovedUp(before, after, j) {
      assert after[j + 1] == before[j + 1 - 1];
    }
  }

  /** A rotation, the files and their lines together. */
  lemma RotatedAll(before: map<nat, Bytes>, after: map<nat, Bytes>, was: Retained, top: nat, found: seq<Bytes>,
                   limit: nat)
    requires |was.kept| <= top + 1 && FilesKept(before, was.kept, was.rotations, found, limit)
    requires Contiguous(after, Min(|was.kept|, top) + 1) && after[0] == []
    requires forall j: nat :: 1 <= j <= Min(|was.kept|, top) ==> after[j] == before[j - 1]
    ensures var w := Turned(was, top);
            && FilesKept(after, w.kept, w.rotations, found, limit) && |w.kept| <= top + 1
            && w.dropped + Joined(w.kept) == was.dropped + Joined(was.kept)
    ensures Moved(before, after, Min(|was.kept|, top))
  {
    hide *;
    TurnedIs(was, top);
    AllMoved(before, after, was.kept, top, was.rotations, found, limit);
    RotatedLines(was.kept, was.dropped, top);
    RotatedFiles(before, after, was.kept, Min(|was.kept|, top), was.rotations, found, limit);
  }

  lemma FlattenNil()
    ensures Flatten<Byte>([]) == []
  {
  }

  /** The file map while the renames are at file i: those above have moved up. */
  ghost predicate Shifted(before: map<nat, Bytes>, now: map<nat, Bytes>, i: nat, top: nat) {
    forall j: nat :: ShiftedAt(before, now, i, top, j)
  }

  ghost predicate ShiftedAt(before: map<nat, Bytes>, now: map<nat, Bytes>, i: nat, top: nat, j: nat) {
    if j <= i || j == i + 1 == top then Same(before, j, now, j)
    else if j == i + 1 || j > top then j !in now
    else Same(before, j - 1, now, j)
  }

  ghost predicate Same(a: map<nat, Bytes>, j: nat, b: map<nat, Bytes>, k: nat) {
    (j in a <==> k in b) && (j in a && k in b ==> a[j] == b[k])
  }

  ghost predicate Contiguous(files: map<nat, Bytes>, n: nat) {
    forall j: nat :: j in files <==> j < n
  }

  lemma ShiftStart(files: map<nat, Bytes>, top: nat, n: nat)
    requires Contiguous(files, n) && 1 <= n <= top + 1 && top >= 1
    ensures Shifted(files, files, top - 1, top)
  {
  }

  /** One rename. */
  lemma ShiftOne(before: map<nat, Bytes>, now: map<nat, Bytes>, i: nat, top: nat, n: nat)
    requires Contiguous(before, n) && 1 <= i < top && Shifted(before, now, i, top)
    ensures Shifted(before, if i in now then now[i + 1 := now[i]] - {i} else now, i - 1, top)
  {
    var after := if i in now then now[i + 1 := now[i]] - {i} else now;
    assert ShiftedAt(before, now, i, top, i) && ShiftedAt(before, now, i, top, i + 1);
    var k := i - 1;
    forall j: nat ensures ShiftedAt(before, after, k, top, j) {
      assert ShiftedAt(before, now, i, top, j);
    }
  }

  /** After the last rename and the reopening. */
  lemma ShiftEnd(before: map<nat, Bytes>, now: map<nat, Bytes>, top: nat, n: nat)
    requires Contiguous(before, n) && n >= 1 && top >= 1 && Shifted(before, now, 0, top)
    ensures 0 in now
    ensures var after := now[1 := now[0]][0 := []];
            && Contiguous(after, Min(n, top) + 1) && after[0] == []
            && forall j: nat :: 1 <= j <= Min(n, top) ==> after[j] == before[j - 1]
  {
    assert ShiftedAt(before, now, 0, top, 0) && ShiftedAt(before, now, 0, top, 1);
    var after := now[1 := now[0]][0 := []];
    forall j: nat
      ensures (j in after <==> j < Min(n, top) + 1) && (1 <= j <= Min(n, top) ==> after[j] == before[j - 1])
    {
      assert ShiftedAt(before, now, 0, top, j);
    }
  }
}
