/** The client's download loop (`Client::download`), and the whole way of a file:
    uploaded in any order, published, served slice by slice, cut up by the network,
    reassembled. */
module Download {
  import opened Bytes
  import opened ByteOrder
  import opened Frame
  import opened Store
  import opened Upload
  import opened Dispatch

  datatype Ending = Finished(total: nat) | Refused(payload: Bytes) | Unexpected | Disconnected

  /** What a sequence of reply frames means to a downloading client: the bytes that
      reach the sink, and how the call ends. */
  function Outcome(frames: seq<Frame>, total: nat): (Bytes, Ending)
    decreases |frames|
  {
    if frames == [] then ([], Disconnected)
    else if frames[0].msgType == MSG_ERROR then ([], Refused(frames[0].payload))
    else if frames[0].msgType == MSG_OK then ([], Finished(total))
    else if frames[0].msgType == MSG_DATA then
      var later := Outcome(frames[1..], total + |frames[0].payload|);
      (frames[0].payload + later.0, later.1)
    else ([], Unexpected)
  }

  lemma OutcomeData(f: Frame, rest: seq<Frame>, total: nat)
    requires f.msgType == MSG_DATA
    ensures Outcome([f] + rest, total) ==
            (f.payload + Outcome(rest, total + |f.payload|).0, Outcome(rest, total + |f.payload|).1)
  {
    assert ([f] + rest)[1..] == rest;
  }

  /** Main result: the payloads before the first frame of another kind reach the sink, and
      that frame ends the call: the final OK with their length, an ERROR with its payload,
      any other as a violation; without one the connection was lost. */
  lemma {:induction false} OutcomeIs(frames: seq<Frame>, n: nat, total: nat)
    requires n <= |frames| && forall i :: 0 <= i < n ==> frames[i].msgType == 33
    requires n < |frames| ==> frames[n].msgType != 33
    ensures var sunk := Flatten(seq(n, i requires 0 <= i < n => frames[i].payload));
            Outcome(frames, total) ==
            (sunk, if n == |frames| then Disconnected
                   else if frames[n].msgType == 200 then Finished(total + |sunk|)
                   else if frames[n].msgType == 201 then Refused(frames[n].payload)
                   else Unexpected)
    decreases |frames|
  {
    var payloads := seq(n, i requires 0 <= i < n => frames[i].payload);
    if n == 0 {
      assert payloads == [];
    } else {
      var later := seq(n - 1, i requires 0 <= i < n - 1 => frames[1..][i].payload);
      OutcomeIs(frames[1..], n - 1, total + |frames[0].payload|);
      assert payloads[1..] == later;
    }
  }

  /** The loop: sink every DATA payload until some other frame arrives. */
  method RunDownload(frames: seq<Frame>) returns (sunk: Bytes, end: Ending)
    ensures (sunk, end) == Outcome(frames, 0)
  {
    sunk := [];
    var total: nat := 0;
    var i := 0;
    assert frames[0..] == frames && [] + Outcome(frames, 0).0 == Outcome(frames, 0).0;
    while i < |frames| && frames[i].msgType == MSG_DATA
      invariant i <= |frames| && total == |sunk|
      invariant var later := Outcome(frames[i..], total);
                Outcome(frames, 0) == (sunk + later.0, later.1)
    {
      assert frames[i..] == [frames[i]] + frames[i + 1..];
      OutcomeData(frames[i], frames[i + 1..], total);
      Assoc(sunk, frames[i].payload, Outcome(frames[i + 1..], total + |frames[i].payload|).0);
      sunk := sunk + frames[i].payload;
      total := total + |frames[i].payload|;
      i := i + 1;
    }
    assert i < |frames| ==> frames[i..][0] == frames[i];
    assert sunk + [] == sunk;
    if i == |frames| {
      return sunk, Disconnected;
    }
    if frames[i].msgType == MSG_ERROR {
      return sunk, Refused(frames[i].payload);
    }
    if frames[i].msgType != MSG_OK {
      return sunk, Unexpected;
    }
    return sunk, Finished(total);
  }

  /** DATA frames and the OK deliver their payloads, and the right total. */
  lemma {:induction false} Delivers(reqId: U32, pieces: seq<Bytes>, n: nat, total: nat)
    ensures Outcome(DataFrames(reqId, pieces) + [OkFrame(reqId, n)], total) ==
            (Flatten(pieces), Finished(total + |Flatten(pieces)|))
    decreases |pieces|
  {
    var last := [OkFrame(reqId, n)];
    if pieces == [] {
      assert DataFrames(reqId, []) + last == last;
    } else {
      var p, rest := pieces[0], pieces[1..];
      assert pieces == [p] + rest;
      DataFramesAppend(reqId, [p], rest);
      assert DataFrames(reqId, [p]) == [DataFrame(reqId, p)];
      Assoc([DataFrame(reqId, p)], DataFrames(reqId, rest), last);
      OutcomeData(DataFrame(reqId, p), DataFrames(reqId, rest) + last, total);
      Delivers(reqId, rest, n, total + |p|);
    }
  }

  lemma RepliesEncodable(content: Bytes, q: Request, pieces: seq<Bytes>, out: seq<Frame>)
    requires Answered(content, q, pieces, out) && q.reqId != 0
    ensures forall f :: f in out ==> Encodable(f)
  {
    forall f | f in out ensures Encodable(f) {
      var i :| 0 <= i < |out| && out[i] == f;
      if i < |pieces| {
        assert f == DataFrame(q.reqId, pieces[i]) && pieces[i] in pieces;
      }
    }
  }

  /** Main result: however the network cuts the bytes of a completed download, the
      client reads exactly its frames, sinks the clipped slice of the content, and
      counts it right. */
  lemma DownloadEndToEnd(content: Bytes, q: Request, pieces: seq<Bytes>, out: seq<Frame>, recvs: seq<Bytes>)
    requires Answered(content, q, pieces, out) && q.reqId != 0
    ensures forall f :: f in out ==> Encodable(f)
    ensures Flatten(recvs) == EncodeAll(out) ==> ParseStream(Flatten(recvs)) == Stream(out, Residual([]))
    ensures Outcome(out, 0) == (Slice(content, q.offset, q.length), Finished(Min(q.length, |content| - q.offset)))
  {
    hide *;
    RepliesEncodable(content, q, pieces, out);
    AnsweredParts(content, q, pieces, out);
    ParseEncodeAll(out);
    Delivers(q.reqId, pieces, Min(q.length, |content| - q.offset), 0);
  }

  lemma {:induction false} EncodedLength(fs: seq<Frame>)
    requires forall f :: f in fs ==> Encodable(f)
    ensures |EncodeAll(fs)| == |fs| * HEADER_SIZE + PayloadBytes(fs)
  {
    if fs != [] {
      EncodedLength(fs[1..]);
      assert |fs| * HEADER_SIZE == HEADER_SIZE + |fs[1..]| * HEADER_SIZE;
      hide Encoding, Encodable;
    }
  }

  function PayloadBytes(fs: seq<Frame>): nat {
    if fs == [] then 0 else |fs[0].payload| + PayloadBytes(fs[1..])
  }

  lemma {:induction false} PayloadOfData(reqId: U32, pieces: seq<Bytes>, n: nat)
    ensures PayloadBytes(DataFrames(reqId, pieces) + [OkFrame(reqId, n)]) == |Flatten(pieces)| + 8
    decreases |pieces|
  {
    var last := [OkFrame(reqId, n)];
    if pieces == [] {
      assert DataFrames(reqId, []) + last == last && PayloadBytes(last[1..]) == 0;
    } else {
      var all := DataFrames(reqId, pieces) + last;
      assert all[1..] == DataFrames(reqId, pieces[1..]) + last;
      PayloadOfData(reqId, pieces[1..], n);
    }
  }

  lemma {:induction false} FewPieces(pieces: seq<Bytes>)
    requires forall p :: p in pieces ==> 0 < |p|
    ensures |pieces| <= |Flatten(pieces)|
  {
    if pieces != [] {
      FewPieces(pieces[1..]);
    }
  }

  /** What a download takes on the wire, at most. */
  lemma WireLength(content: Bytes, q: Request, pieces: seq<Bytes>, out: seq<Frame>)
    requires Answered(content, q, pieces, out) && (forall f :: f in out ==> Encodable(f))
    ensures |EncodeAll(out)| <= (HEADER_SIZE + 1) * Min(q.length, |content| - q.offset) + HEADER_SIZE + 8
  {
    var n := Min(q.length, |content| - q.offset);
    AnsweredParts(content, q, pieces, out);
    FewPieces(pieces);
    PayloadOfData(q.reqId, pieces, n);
    EncodedLength(out);
    hide Answered, DataFrames, EncodeAll, PayloadBytes, Flatten, Slice;
    assert |out| == |pieces| + 1 && |pieces| <= n;
  }

  lemma AnsweredOutcome(content: Bytes, q: Request, pieces: seq<Bytes>, out: seq<Frame>)
    requires Answered(content, q, pieces, out)
    ensures q.offset <= |content|
    ensures Outcome(out, 0) ==
            (Slice(content, q.offset, q.length), Finished(|Slice(content, q.offset, q.length)|))
  {
    hide *;
    AnsweredParts(content, q, pieces, out);
    Delivers(q.reqId, pieces, Min(q.length, |content| - q.offset), 0);
  }

  /** And so a full download of what an upload published returns the uploaded file. */
  lemma FileComesBack(cfg: Config, t: State, x: Session, a: Artifact, file: Bytes,
                      q: Request, pieces: seq<Bytes>, out: seq<Frame>, recvs: seq<Bytes>)
    requires Publishes(cfg, t, x, a, file)
    requires Answered(Content(t.files, a.manifest), q, pieces, out) && q.reqId != 0
    requires q.offset == 0 && q.length >= |file|
    ensures forall f :: f in out ==> Encodable(f)
    ensures Flatten(recvs) == EncodeAll(out) ==>
              Outcome(ParseStream(Flatten(recvs)).frames, 0) == (file, Finished(|file|))
  {
    hide *;
    PublishedContent(cfg, t, x, a, file);
    DownloadEndToEnd(file, q, pieces, out, recvs);
    WholeSlice(file, q.length);
  }

  lemma PublishedContent(cfg: Config, t: State, x: Session, a: Artifact, file: Bytes)
    requires Publishes(cfg, t, x, a, file)
    ensures Content(t.files, a.manifest) == file
  {
  }

  lemma WholeSlice(file: Bytes, n: nat)
    requires n >= |file|
    ensures Slice(file, 0, n) == file && Min(n, |file|) == |file|
  {
  }

  lemma AnsweredParts(content: Bytes, q: Request, pieces: seq<Bytes>, out: seq<Frame>)
    requires Answered(content, q, pieces, out)
    ensures q.offset <= |content|
    ensures Flatten(pieces) == Slice(content, q.offset, q.length)
    ensures |Slice(content, q.offset, q.length)| == Min(q.length, |content| - q.offset)
    ensures out == DataFrames(q.reqId, pieces) + [OkFrame(q.reqId, Min(q.length, |content| - q.offset))]
  {
    hide DataFrames, Flatten;
  }
}
