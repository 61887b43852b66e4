/** The two loops that drive the parser: the server's, which feeds it one socket
    read at a time (`on_conn_event`), and the client's, which feeds it from a
    receive buffer with a cursor (`Client::read_frame`). Both deliver
    `ParseStream` of the bytes received, however the bytes were cut. */
module Streams {
  import opened Bytes
  import opened Buffer
  import opened Frame

  lemma StreamStep(s: Bytes)
    requires ParseOne(s).Parsed?
    ensures var p := ParseOne(s);
            var later := ParseStream(s[p.used..]);
            ParseStream(s) == Stream([p.frame] + later.frames, later.tail)
  {
  }

  lemma StreamStop(s: Bytes)
    ensures ParseOne(s).Incomplete? ==> ParseStream(s) == Stream([], Residual(s))
    ensures ParseOne(s).Malformed? ==> ParseStream(s) == Stream([], Broken)
  {
  }

  /** One more frame off the front of what is left to parse. */
  lemma FrameTaken(got: seq<Frame>, here: Bytes, data: Bytes, consumed: nat)
    requires ParseOne(here).Incomplete? && consumed <= |data|
    requires ParseOne(here + data).Parsed? && ParseOne(here + data).used == |here| + consumed
    ensures consumed > 0
    ensures var later := ParseStream(data[consumed..]);
            var whole := ParseStream(here + data);
            Stream(got + whole.frames, whole.tail)
            == Stream(got + [ParseOne(here + data).frame] + later.frames, later.tail)
  {
    hide ParseOne;
    UnfinishedIsShort(here, data);
    StreamStep(here + data);
    assert (here + data)[|here| + consumed..] == data[consumed..];
    Assoc(got, [ParseOne(here + data).frame], ParseStream(data[consumed..]).frames);
  }

  /** Flatten up to and past one element. */
  lemma FlattenCut<T>(recvs: seq<seq<T>>, i: nat)
    requires i < |recvs|
    ensures Flatten(recvs[..i + 1]) == Flatten(recvs[..i]) + recvs[i]
    ensures |Flatten(recvs[..i + 1])| <= |Flatten(recvs)|
  {
    assert recvs[..i + 1] == recvs[..i] + [recvs[i]];
    FlattenSnoc(recvs[..i], recvs[i]);
    assert recvs == recvs[..i + 1] + recvs[i + 1..];
    FlattenAppend(recvs[..i + 1], recvs[i + 1..]);
  }

  lemma FlattenNone<T>(recvs: seq<seq<T>>)
    ensures Flatten(recvs[..0]) == [] && Flatten(recvs[|recvs|..]) == []
    ensures recvs[..|recvs|] == recvs && recvs[0..] == recvs
  {
  }

  /** Bytes delivered in pieces of the given sizes, the rest in one last piece. */
  function CutUp(bytes: Bytes, cuts: seq<nat>): (recvs: seq<Bytes>)
    ensures Flatten(recvs) == bytes
    decreases |cuts|
  {
    if cuts == [] then
      assert Flatten([bytes]) == bytes + Flatten<Byte>([]) == bytes;
      [bytes]
    else
      var n := if cuts[0] < |bytes| then cuts[0] else |bytes|;
      [bytes[..n]] + CutUp(bytes[n..], cuts[1..])
  }

  // ---- Server ---------------------------------------------------------------------

  /** The frames found in one read buffer. A protocol error ends the pass; on a
      parser that has failed before, feed absorbs nothing and reports nothing. */
  method ConsumeRead(parser: Parser, buf: Bytes) returns (frames: seq<Frame>, failed: bool)
    requires parser.Valid()
    modifies parser.Repr()
    ensures parser.Valid() && fresh(parser.Repr() - old(parser.Repr()))
    ensures old(parser.Failed()) ==> frames == [] && !failed && parser.Failed()
    ensures !old(parser.Failed()) ==>
              var r := ParseStream(old(parser.Pending()) + buf);
              && frames == r.frames
              && failed == r.tail.Broken? == parser.Failed()
              && (!failed ==> parser.Pending() == r.tail.rest)
  {
    hide ParseOne, ParseStream, Parser.Consistent, Parser.Valid, Parser.Pending;
    ghost var goal := ParseStream(parser.Pending() + buf);
    ghost var wasFailed := parser.Failed();
    frames, failed := [], false;
    var cursor := 0;
    while cursor != |buf|
      modifies parser.Repr()
      invariant parser.Valid() && fresh(parser.Repr() - old(parser.Repr()))
      invariant cursor <= |buf| && !failed
      invariant parser.Failed() == wasFailed
      invariant wasFailed ==> cursor == 0 && frames == []
      invariant !wasFailed ==>
                  var r := ParseStream(parser.Pending() + buf[cursor..]);
                  goal == Stream(frames + r.frames, r.tail)
      decreases |buf| - cursor
    {
      ghost var here := parser.Pending();
      var data := buf[cursor..];
      if !wasFailed { parser.PendingIncomplete(); }
      StreamStop(here + data);
      var st, consumed, frame := parser.Feed(data);
      if st != OK {
        failed := true;
        return;
      }
      cursor := cursor + consumed;
      if frame.None? {
        assert !wasFailed ==> buf[cursor..] == [] && parser.Pending() + [] == parser.Pending();
        return;
      }
      FrameTaken(frames, here, data, consumed);
      assert [] + buf[cursor..] == data[consumed..];
      frames := frames + [frame.value];
    }
    if !wasFailed {
      parser.PendingIncomplete();
      assert parser.Pending() + buf[cursor..] == parser.Pending();
      StreamStop(parser.Pending());
    }
  }

  /** A whole connection: every read in turn. `errors` counts the ERROR replies
      for protocol violations. */
  method ServerRun(parser: Parser, recvs: seq<Bytes>) returns (frames: seq<Frame>, errors: nat)
    requires parser.Valid() && !parser.Failed() && parser.Pending() == []
    modifies parser.Repr()
    ensures parser.Valid()
    ensures var r := ParseStream(Flatten(recvs));
            && frames == r.frames
            && errors == (if r.tail.Broken? then 1 else 0)
            && parser.Failed() == r.tail.Broken?
            && (r.tail.Residual? ==> parser.Pending() == r.tail.rest)
  {
    StreamStop([]);
    assert ParseOne([]).Incomplete?;
    FlattenNone(recvs);
    hide ParseOne, ParseStream, Flatten, Parser.Consistent, Parser.Valid, Parser.Pending;
    frames, errors := [], 0;
    var i := 0;
    while i < |recvs|
      modifies parser.Repr()
      invariant 0 <= i <= |recvs|
      invariant parser.Valid() && fresh(parser.Repr() - old(parser.Repr()))
      invariant errors == if parser.Failed() then 1 else 0
      invariant ParseStream(Flatten(recvs[..i])) ==
                Stream(frames, if parser.Failed() then Broken else Residual(parser.Pending()))
    {
      ParseStreamAppend(Flatten(recvs[..i]), recvs[i]);
      FlattenCut(recvs, i);
      var more, failed := ConsumeRead(parser, recvs[i]);
      frames := frames + more;
      if failed {
        errors := errors + 1;
      }
      i := i + 1;
    }
  }

  // ---- Client ---------------------------------------------------------------------

  class FrameReader {
    const parser: Parser
    const inbuf: FrBuf
    var inpos: nat

    ghost function Repr(): set<object>
      reads this, inbuf, parser, parser.payload
    {
      {this, inbuf, inbuf.data} + parser.Repr()
    }

    ghost predicate Valid()
      reads Repr()
    {
      && parser.Valid()
      && inbuf.Valid()
      && inbuf != parser.payload
      && inbuf.data !in {parser.header, parser.payload.data}
      && inpos <= inbuf.len
    }

    /** Received and not yet fed. */
    ghost function Unread(): Bytes
      requires Valid()
      reads Repr()
    {
      inbuf.Contents()[inpos..]
    }

    /** Received and not yet delivered in a frame. */
    ghost function Available(): Bytes
      requires Valid()
      reads Repr()
    {
      parser.Pending() + Unread()
    }

    constructor ()
      ensures Valid() && !parser.Failed() && Available() == [] && inbuf.len == 0 && fresh(Repr())
    {
      parser := new Parser();
      inbuf := new FrBuf();
      inpos := 0;
    }

    /** A buffer read to its end is emptied. */
    method Compact()
      requires Valid()
      modifies this`inpos, inbuf, inbuf.data
      ensures Valid() && Repr() == old(Repr())
      ensures Unread() == old(Unread()) && inbuf.len <= old(inbuf.len)
      ensures parser.Pending() == old(parser.Pending()) && parser.Failed() == old(parser.Failed())
    {
      hide IsCapacity, Parser.Accepted;
      if inpos == inbuf.len {
        inpos := 0;
        inbuf.Clear();
      }
    }

    /** The first half of read_frame's loop: digest what is already buffered. */
    method TakeBuffered() returns (r: Result<Option<Frame>>)
      requires Valid() && !parser.Failed()
      modifies Repr()
      ensures Valid() && fresh(Repr() - old(Repr()))
      ensures inbuf.len <= old(inbuf.len) && parser.Failed() == r.Err?
      ensures var seen := old(Available());
              match r
              case Err(code) => code == E_PROTOCOL && ParseOne(seen).Malformed?
              case Ok(None) => ParseOne(seen).Incomplete? && parser.Pending() == seen && Unread() == []
              case Ok(Some(f)) =>
                ParseOne(seen).Parsed? && ParseOne(seen).frame == f
                && Available() == seen[ParseOne(seen).used..]
    {
      hide ParseOne, IsCapacity, Parser.Consistent, Parser.Valid, Parser.Pending;
      ghost var seen := Available();
      ghost var here, data := parser.Pending(), Unread();
      parser.PendingIncomplete();
      if inpos < inbuf.len {
        assert inbuf.data[inpos..inbuf.len] == data;
        var st, consumed, frame := parser.Feed(inbuf.data[inpos..inbuf.len]);
        if st != OK {
          return Err(E_PROTOCOL);
        }
        inpos := inpos + consumed;
        assert Unread() == data[consumed..];
        if frame.Some? {
          DropInto(here, data, consumed);
          Compact();
          assert Available() == Unread() == data[consumed..];
          return Ok(frame);
        }
      }
      assert Unread() == [] && parser.Pending() == seen;
      return Ok(None);
    }

    /** The second half: append what one recv delivered. */
    method Receive(bytes: Bytes)
      requires Valid() && Unread() == [] && inbuf.len + |bytes| <= 0x8000_0000_0000_0000
      modifies inbuf, inbuf.data
      ensures Valid() && fresh(Repr() - old(Repr()))
      ensures parser.Pending() == old(parser.Pending()) && parser.Failed() == old(parser.Failed())
      ensures Unread() == bytes && inbuf.len == old(inbuf.len) + |bytes|
    {
      hide IsCapacity, Parser.Accepted;
      var st := inbuf.Append(bytes, true);
      assert inbuf.Contents()[inpos..] == bytes;
    }

    /** Client::read_frame. `recvs` is what the socket will still deliver, one
        recv after another; past its end recv fails. `used` counts the recvs. */
    method ReadFrame(recvs: seq<Bytes>) returns (r: Result<Frame>, used: nat)
      requires Valid() && !parser.Failed()
      requires inbuf.len + |Flatten(recvs)| <= 0x8000_0000_0000_0000
      modifies Repr()
      ensures Valid() && fresh(Repr() - old(Repr()))
      ensures used <= |recvs|
      ensures inbuf.len <= old(inbuf.len) + |Flatten(recvs[..used])|
      ensures var seen := old(Available()) + Flatten(recvs[..used]);
              match r
              case Ok(f) =>
                !parser.Failed() && ParseOne(seen).Parsed? && ParseOne(seen).frame == f
                && Available() == seen[ParseOne(seen).used..]
              case Err(code) =>
                if code == E_PROTOCOL then ParseOne(seen).Malformed? && parser.Failed()
                else code == E_IO && used == |recvs| && ParseOne(seen).Incomplete?
                     && !parser.Failed() && parser.Pending() == seen && Unread() == []
    {
      FlattenNone(recvs);
      hide ParseOne, IsCapacity, Flatten, Parser.Consistent, Parser.Valid, Parser.Pending;
      used := 0;
      while true
        modifies Repr()
        invariant Valid() && !parser.Failed() && fresh(Repr() - old(Repr()))
        invariant used <= |recvs|
        invariant inbuf.len <= old(inbuf.len) + |Flatten(recvs[..used])|
        invariant Available() == old(Available()) + Flatten(recvs[..used])
        decreases |recvs| - used
      {
        var got := TakeBuffered();
        if got.Err? {
          return Err(got.code), used;
        }
        if got.value.Some? {
          return Ok(got.value.value), used;
        }
        if used == |recvs| {
          return Err(E_IO), used;
        }
        FlattenCut(recvs, used);
        Assoc(old(Available()), Flatten(recvs[..used]), recvs[used]);
        Receive(recvs[used]);
        used := used + 1;
      }
    }
  }

  lemma DropInto(a: Bytes, b: Bytes, n: nat)
    requires n <= |b|
    ensures (a + b)[|a| + n..] == b[n..]
  {
  }

  lemma ClientStep(got: seq<Frame>, avail: Bytes, chunk: Bytes, later: Bytes)
    requires ParseOne(avail + chunk).Parsed?
    ensures var p := ParseOne(avail + chunk);
            var todo, left := avail + (chunk + later), (avail + chunk)[p.used..] + later;
            && |left| < |todo|
            && Stream(got + ParseStream(todo).frames, ParseStream(todo).tail)
               == Stream(got + [p.frame] + ParseStream(left).frames, ParseStream(left).tail)
  {
    hide ParseOne;
    var p := ParseOne(avail + chunk);
    Assoc(avail, chunk, later);
    ParseOneExtends(avail + chunk, later);
    StreamStep(avail + chunk + later);
    assert (avail + chunk + later)[p.used..] == (avail + chunk)[p.used..] + later;
    Assoc(got, [p.frame], ParseStream((avail + chunk)[p.used..] + later).frames);
  }

  lemma ClientStop(avail: Bytes, chunk: Bytes, later: Bytes)
    ensures var p := ParseOne(avail + chunk);
            var todo := avail + (chunk + later);
            && (p.Malformed? ==> ParseStream(todo) == Stream([], Broken))
            && (p.Incomplete? && later == [] ==> ParseStream(todo) == Stream([], Residual(avail + chunk)))
  {
    hide ParseOne;
    Assoc(avail, chunk, later);
    if ParseOne(avail + chunk).Malformed? {
      ParseOneExtends(avail + chunk, later);
    } else if later == [] {
      assert avail + chunk + later == avail + chunk;
    }
  }

  lemma FlattenSplit<T>(recvs: seq<seq<T>>, next: nat, used: nat)
    requires next + used <= |recvs|
    ensures Flatten(recvs[next..]) == Flatten(recvs[next..][..used]) + Flatten(recvs[next + used..])
  {
    assert recvs[next..] == recvs[next..][..used] + recvs[next + used..];
    FlattenAppend(recvs[next..][..used], recvs[next + used..]);
  }

  /** Reading frames until recv or the parser fails. */
  method ClientRun(reader: FrameReader, recvs: seq<Bytes>) returns (frames: seq<Frame>, code: Status)
    requires reader.Valid() && !reader.parser.Failed() && reader.Available() == []
    requires reader.inbuf.len + |Flatten(recvs)| <= 0x8000_0000_0000_0000
    modifies reader.Repr()
    ensures reader.Valid()
    ensures var r := ParseStream(Flatten(recvs));
            && frames == r.frames
            && code == (if r.tail.Broken? then E_PROTOCOL else E_IO)
            && reader.parser.Failed() == r.tail.Broken?
            && (r.tail.Residual? ==> reader.parser.Pending() == r.tail.rest && reader.Unread() == [])
  {
    FlattenNone(recvs);
    hide ParseOne, ParseStream, IsCapacity, Flatten, Parser.Consistent, Parser.Valid, Parser.Pending;
    frames := [];
    var next := 0;
    ghost var goal := ParseStream(Flatten(recvs));
    assert [] + Flatten(recvs) == Flatten(recvs);
    while true
      modifies reader.Repr()
      invariant reader.Valid() && !reader.parser.Failed() && fresh(reader.Repr() - old(reader.Repr()))
      invariant next <= |recvs|
      invariant reader.inbuf.len + |Flatten(recvs[next..])| <= 0x8000_0000_0000_0000
      invariant var r := ParseStream(reader.Available() + Flatten(recvs[next..]));
                goal == Stream(frames + r.frames, r.tail)
      decreases |reader.Available() + Flatten(recvs[next..])|
    {
      ghost var avail := reader.Available();
      var r, used := reader.ReadFrame(recvs[next..]);
      FlattenSplit(recvs, next, used);
      ghost var chunk, later := Flatten(recvs[next..][..used]), Flatten(recvs[next + used..]);
      if r.Err? {
        ClientStop(avail, chunk, later);
        FlattenNone(recvs);
        return frames, r.code;
      }
      ClientStep(frames, avail, chunk, later);
      frames := frames + [r.value];
      next := next + used;
    }
  }
}
