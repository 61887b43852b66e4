/** A download through the whole server: the dispatcher's slices as the replies of a
    single worker, by way of the completion queue and the connection's outbox to a client
    that waits for each of its requests to be answered before it sends the next. */
module QueueDownload {
  import opened Bytes
  import opened ServerQueue
  import opened ReplyOrder
  import Dispatch
  import Download
  import Frame

  // ---- The connection's replies ------------------------------------------------------------

  /** Replies only go to requests that were parsed. */
  ghost predicate ToParsed(s: Server) {
    forall c :: c in s.conns && !s.conns[c].closing ==>
      forall x :: x in s.conns[c].replies ==> x.req < s.conns[c].parsed
  }

  lemma StepToParsed(s: Server, st: Step)
    requires Enabled(s, st) && Numbered(s) && ToParsed(s)
    ensures ToParsed(Apply(s, st))
  {
    if st.Deliver? { assert s.batch[0] in s.batch; }
  }

  lemma {:induction false} RunToParsed(s: Server, steps: seq<Step>)
    requires Known(s) && Numbered(s) && ToParsed(s) && Runs(s, steps)
    ensures ToParsed(After(s, steps))
    decreases |steps|
  {
    hide Enabled, Apply, Known, Numbered, ToParsed;
    if steps != [] {
      StepKnown(s, steps[0]);
      StepNumbered(s, steps[0]);
      StepToParsed(s, steps[0]);
      RunToParsed(Apply(s, steps[0]), steps[1..]);
    }
  }

  /** A connection's replies only grow, and a connection that is gone stays gone. */
  ghost predicate Grown(s: Server, t: Server, c: nat) {
    (c in t.conns ==> c in s.conns && s.conns[c].replies <= t.conns[c].replies) && c < t.nextConn
  }

  lemma {:induction false} RunGrown(s: Server, steps: seq<Step>, c: nat)
    requires Runs(s, steps) && c < s.nextConn
    ensures Grown(s, After(s, steps), c)
    decreases |steps|
  {
    if steps != [] {
      var t := Apply(s, steps[0]);
      assert Grown(s, t, c);
      hide Enabled, Apply;
      RunGrown(t, steps[1..], c);
    }
  }

  lemma {:induction false} RequestConcat(a: seq<Reply>, b: seq<Reply>, r: nat)
    ensures OfRequest(a + b, r) == OfRequest(a, r) + OfRequest(b, r)
    decreases |b|
  {
    if b == [] {
      assert a + b == a;
    } else {
      var n := |b| - 1;
      assert (a + b)[..|a| + n] == a + b[..n];
      RequestConcat(a, b[..n], r);
      Assoc(OfRequest(a, r), OfRequest(b[..n], r), if b[n].req == r then [b[n]] else []);
    }
  }

  lemma {:induction false} RequestAll(rs: seq<Reply>, r: nat)
    requires forall x :: x in rs ==> x.req == r
    ensures OfRequest(rs, r) == rs
  {
    if rs != [] {
      RequestAll(rs[..|rs| - 1], r);
    }
  }

  lemma {:induction false} RequestNone(rs: seq<Reply>, r: nat)
    requires forall x :: x in rs ==> x.req != r
    ensures OfRequest(rs, r) == []
  {
    if rs != [] {
      RequestNone(rs[..|rs| - 1], r);
    }
  }

  lemma {:induction false} RequestHas(rs: seq<Reply>, r: nat)
    ensures forall x :: x in OfRequest(rs, r) <==> x in rs && x.req == r
  {
    if rs != [] {
      var n := |rs| - 1;
      RequestHas(rs[..n], r);
      assert rs == rs[..n] + [rs[n]];
    }
  }

  lemma {:induction false} BytesConcat(a: seq<Reply>, b: seq<Reply>)
    ensures BytesOf(a + b) == BytesOf(a) + BytesOf(b)
    decreases |b|
  {
    if b == [] {
      assert a + b == a;
    } else {
      var n := |b| - 1;
      assert (a + b)[..|a| + n] == a + b[..n];
      BytesConcat(a, b[..n]);
      Assoc(BytesOf(a), BytesOf(b[..n]), b[n].bytes);
    }
  }

  // ---- The slices as replies --------------------------------------------------------------------

  predicate AllEncodable(slices: seq<seq<Frame.Frame>>) {
    forall i :: 0 <= i < |slices| ==> forall f :: f in slices[i] ==> Frame.Encodable(f)
  }

  /** What the worker makes of the dispatcher's results. */
  function RepliesOf(slices: seq<seq<Frame.Frame>>, r: nat): (rs: seq<Reply>)
    requires AllEncodable(slices)
    ensures |rs| == |slices|
  {
    seq(|slices|, i requires 0 <= i < |slices| => Reply(r, i == |slices| - 1, Frame.EncodeAll(slices[i])))
  }

  lemma {:induction false} EncodeAllAppend(a: seq<Frame.Frame>, b: seq<Frame.Frame>)
    requires (forall f :: f in a ==> Frame.Encodable(f)) && forall f :: f in b ==> Frame.Encodable(f)
    ensures forall f :: f in a + b ==> Frame.Encodable(f)
    ensures Frame.EncodeAll(a + b) == Frame.EncodeAll(a) + Frame.EncodeAll(b)
    decreases |a|
  {
    hide Frame.Encodable, Frame.Encoding;
    if a == [] {
      assert a + b == b;
    } else {
      assert (a + b)[0] == a[0] && (a + b)[1..] == a[1..] + b;
      EncodeAllAppend(a[1..], b);
      Assoc(Frame.Encoding(a[0]), Frame.EncodeAll(a[1..]), Frame.EncodeAll(b));
    }
  }

  lemma {:induction false} BytesOfSlices(rs: seq<Reply>, slices: seq<seq<Frame.Frame>>)
    requires AllEncodable(slices) && |rs| == |slices|
    requires forall i :: 0 <= i < |rs| ==> rs[i].bytes == Frame.EncodeAll(slices[i])
    ensures forall f :: f in Flatten(slices) ==> Frame.Encodable(f)
    ensures BytesOf(rs) == Frame.EncodeAll(Flatten(slices))
    decreases |rs|
  {
    hide Frame.Encodable, Frame.Encoding;
    if rs != [] {
      var n := |rs| - 1;
      BytesOfSlices(rs[..n], slices[..n]);
      assert slices == slices[..n] + [slices[n]];
      FlattenSnoc(slices[..n], slices[n]);
      EncodeAllAppend(Flatten(slices[..n]), slices[n]);
    }
  }

  lemma {:induction false} SlicesEncodable(slices: seq<seq<Frame.Frame>>)
    requires forall f :: f in Flatten(slices) ==> Frame.Encodable(f)
    ensures AllEncodable(slices)
  {
    hide Frame.Encodable;
    if slices != [] {
      SlicesEncodable(slices[1..]);
    }
  }

  // ---- A client that waits -------------------------------------------------------------------------

  /** Request r has had its final reply. */
  ghost predicate Done(rs: seq<Reply>, r: nat) { exists x :: x in rs && x.req == r && x.final }

  /** A run of a server with one worker, cut where the client sends request r: all its
      earlier requests are answered by then, and it sends no more until r is. */
  ghost predicate Waits(s: Server, sent: seq<Step>, rest: seq<Step>, c: nat, r: nat) {
    && Initial(s) && |s.workers| == 1
    && Runs(s, sent) && Runs(After(s, sent), rest) && Runs(s, sent + rest)
    && c in After(s, sent).conns && !After(s, sent).conns[c].closing
    && r == After(s, sent).conns[c].parsed
    && (forall i: nat :: i < r ==> Done(After(s, sent).conns[c].replies, i))
    && var t := After(s, sent + rest);
       c in t.conns && !t.conns[c].closing && t.conns[c].parsed == r + 1 && Done(t.conns[c].replies, r)
  }

  /** What reaches the connection after request r is sent. */
  ghost function Received(s: Server, sent: seq<Step>, rest: seq<Step>, c: nat, r: nat): seq<Reply>
    requires Waits(s, sent, rest, c, r)
  {
    var had, more := After(s, sent).conns[c].replies, After(s, sent + rest).conns[c].replies;
    if |had| <= |more| then more[|had|..] else []
  }

  /** After the final reply to a request there is nothing more for it. */
  lemma NothingAfter(a: seq<Reply>, b: seq<Reply>, r: nat)
    requires Done(a, r) && FinalLast(OfRequest(a + b, r))
    ensures forall x :: x in b ==> x.req != r
  {
    RequestConcat(a, b, r);
    RequestHas(a, r);
    RequestHas(b, r);
    var rs, x :| rs == OfRequest(a, r) && x in rs && x.final;
    var k :| 0 <= k < |rs| && rs[k] == x;
    var all := OfRequest(a + b, r);
    assert all[k] == x && k == |all| - 1;
    assert OfRequest(b, r) == [];
  }

  lemma PrefixDone(a: seq<Reply>, b: seq<Reply>)
    requires a <= b && (exists x :: x in a && x.final) && FinalLast(b)
    ensures a == b
  {
    var x :| x in a && x.final;
    var k :| 0 <= k < |a| && a[k] == x;
    assert b[k] == x && k == |b| - 1;
  }

  /** The new replies are the request's, all of them. */
  lemma OnlyMine(had: seq<Reply>, more: seq<Reply>, r: nat)
    requires forall x :: x in had ==> x.req < r
    requires forall x :: x in more ==> x.req < r + 1
    requires forall i: nat :: i < r ==> Done(had, i) && FinalLast(OfRequest(had + more, i))
    ensures OfRequest(had + more, r) == more
  {
    forall x | x in more ensures x.req == r {
      if x.req < r {
        NothingAfter(had, more, x.req);
      }
    }
    RequestAll(more, r);
    RequestConcat(had, more, r);
    RequestNone(had, r);
    assert [] + more == more;
  }

  lemma AtParsed(s: Server, steps: seq<Step>, c: nat)
    requires Initial(s) && |s.workers| == 1 && Runs(s, steps)
    requires c in After(s, steps).conns && !After(s, steps).conns[c].closing
    ensures forall x :: x in After(s, steps).conns[c].replies ==> x.req < After(s, steps).conns[c].parsed
    ensures Known(After(s, steps))
  {
    assert ToParsed(s);
    InitialInv(s);
    InvKnown(s);
    StartChain(s, 0, 0);
    hide Runs, After, Inv, Known, Numbered;
    RunToParsed(s, steps);
    RunInv(s, steps);
    InvKnown(After(s, steps));
  }

  lemma AfterBoth(s: Server, sent: seq<Step>, rest: seq<Step>, c: nat, r: nat)
    requires Waits(s, sent, rest, c, r)
    ensures var a, b := After(s, sent).conns[c].replies, After(s, sent + rest).conns[c].replies;
            && b == a + Received(s, sent, rest, c, r)
            && (forall x :: x in a ==> x.req < r) && forall x :: x in b ==> x.req < r + 1
  {
    hide Runs, After, Done, Known, Initial;
    var p := After(s, sent);
    AtParsed(s, sent, c);
    AtParsed(s, sent + rest, c);
    RunConcat(s, sent, rest, c, r);
    KnownConn(p, c);
    RunGrown(p, rest, c);
  }

  lemma KnownConn(s: Server, c: nat)
    requires Known(s) && c in s.conns
    ensures c < s.nextConn
  {
  }

  /** The replies that arrive are exactly those made for the request, in order. */
  lemma ReceivedIs(s: Server, sent: seq<Step>, rest: seq<Step>, c: nat, r: nat)
    requires Waits(s, sent, rest, c, r)
    ensures Received(s, sent, rest, c, r) <= Made(s, sent + rest, c, r)
    ensures exists x :: x in Received(s, sent, rest, c, r) && x.final
  {
    AfterBoth(s, sent, rest, c, r);
    var a, b := After(s, sent).conns[c].replies, After(s, sent + rest).conns[c].replies;
    var more := Received(s, sent, rest, c, r);
    hide Runs, After, Made, OfRequest, Received, FinalLast;
    forall i: nat | i < r ensures Done(a, i) && FinalLast(OfRequest(b, i)) {
      OneWorkerInOrder(s, sent + rest, c, i);
    }
    OneWorkerInOrder(s, sent + rest, c, r);
    assert forall x :: x in more ==> x in b;
    OnlyMine(a, more, r);
    assert Done(b, r);
    RequestHas(b, r);
  }

  lemma RepliesFinal(slices: seq<seq<Frame.Frame>>, r: nat)
    requires AllEncodable(slices)
    ensures FinalLast(RepliesOf(slices, r))
    ensures BytesOf(RepliesOf(slices, r)) == (FramesEncodable(slices); Frame.EncodeAll(Flatten(slices)))
  {
    FramesEncodable(slices);
    BytesOfSlices(RepliesOf(slices, r), slices);
  }

  lemma FramesEncodable(slices: seq<seq<Frame.Frame>>)
    requires AllEncodable(slices)
    ensures forall f :: f in Flatten(slices) ==> Frame.Encodable(f)
  {
    var rs := seq(|slices|, i requires 0 <= i < |slices| => Reply(0, false, Frame.EncodeAll(slices[i])));
    BytesOfSlices(rs, slices);
  }

  /** A run in which the worker's replies to request r are these slices. */
  ghost predicate Carried(slices: seq<seq<Frame.Frame>>, s: Server, sent: seq<Step>, rest: seq<Step>, c: nat, r: nat)
  {
    AllEncodable(slices) && Waits(s, sent, rest, c, r) && Made(s, sent + rest, c, r) <= RepliesOf(slices, r)
  }

  /** Main result: when the only worker makes of a download the dispatcher's slices, what
      a waiting client receives between sending its request and the final reply is their
      encoding, whole and in order, and it ends up with the range it asked for. */
  lemma WholeDownload(content: Bytes, q: Dispatch.Request, pieces: seq<Bytes>, slices: seq<seq<Frame.Frame>>,
                      s: Server, sent: seq<Step>, rest: seq<Step>, c: nat, r: nat)
    requires Dispatch.Answered(content, q, pieces, Flatten(slices)) && q.reqId != 0
    requires Carried(slices, s, sent, rest, c, r)
    ensures Received(s, sent, rest, c, r) == RepliesOf(slices, r)
    ensures q.offset <= |content|
    ensures var range := Slice(content, q.offset, q.length);
            Download.Outcome(Frame.ParseStream(BytesOf(Received(s, sent, rest, c, r))).frames, 0)
            == (range, Download.Finished(|range|))
  {
    hide Waits, Made, RepliesOf, AllEncodable, Runs, After, Received, Dispatch.Answered, Download.Outcome, BytesOf,
         Frame.ParseStream, Flatten, FinalLast;
    ReceivedIs(s, sent, rest, c, r);
    RepliesFinal(slices, r);
    FramesEncodable(slices);
    PrefixDone(Received(s, sent, rest, c, r), RepliesOf(slices, r));
    Frame.ParseEncodeAll(Flatten(slices));
    Download.AnsweredOutcome(content, q, pieces, Flatten(slices));
  }
}
