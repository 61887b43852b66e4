/** In which order the replies to one request reach its connection. With one worker
    it is the order in which they were made, the final one last; with two or more a
    worker may be overtaken by the one that took its continuation. */
module ReplyOrder {
  import opened Bytes
  import opened ServerQueue

  // ---- The replies of one request on their way ---------------------------------------

  ghost function OfRequest(rs: seq<Reply>, r: nat): seq<Reply> {
    if rs == [] then [] else OfRequest(rs[..|rs| - 1], r) + if rs[|rs| - 1].req == r then [rs[|rs| - 1]] else []
  }

  predicate Mine(d: Completion, c: nat, r: nat) { d.conn == c && d.reply.req == r }

  ghost function Held(ds: seq<Completion>, c: nat, r: nat): seq<Reply> {
    if ds == [] then []
    else Held(ds[..|ds| - 1], c, r) + if Mine(ds[|ds| - 1], c, r) then [ds[|ds| - 1].reply] else []
  }

  ghost function HeldBy(w: Worker, c: nat, r: nat): seq<Reply> {
    match w
    case Resuming(_, d) => if Mine(d, c, r) then [d.reply] else []
    case Finished(d) => if Mine(d, c, r) then [d.reply] else []
    case _ => []
  }

  ghost function Delivered(s: Server, c: nat, r: nat): seq<Reply> {
    if c in s.conns then OfRequest(s.conns[c].replies, r) else []
  }

  /** From the outbox back to the worker. */
  ghost function Chain(s: Server, c: nat, r: nat): seq<Reply>
    requires |s.workers| == 1
  {
    Delivered(s, c, r) + (Held(s.batch, c, r) + (Held(s.done, c, r) + HeldBy(s.workers[0], c, r)))
  }

  /** The reply a step makes for a request. */
  ghost function MadeBy(s: Server, st: Step, c: nat, r: nat): seq<Reply>
    requires Enabled(s, st)
  {
    match st
    case Parse(d, busy) =>
      if d == c && r == s.conns[d].parsed && |s.queue| >= QUEUE_CAPACITY then [Reply(r, true, busy)] else []
    case Violation(d, error) => if d == c && r == s.conns[d].parsed then [Reply(r, false, error)] else []
    case Handle(w, hasMore, bytes, _) =>
      if s.workers[w].task.conn == c && s.workers[w].task.req == r then [Reply(r, !hasMore, bytes)] else []
    case _ => []
  }

  /** All replies a run makes for a request, in order. */
  ghost function Made(s: Server, steps: seq<Step>, c: nat, r: nat): seq<Reply>
    requires ServerQueue.Runs(s, steps)
    decreases |steps|
  {
    if steps == [] then [] else MadeBy(s, steps[0], c, r) + Made(Apply(s, steps[0]), steps[1..], c, r)
  }

  lemma RequestSnoc(rs: seq<Reply>, x: Reply, r: nat)
    ensures OfRequest(rs + [x], r) == OfRequest(rs, r) + if x.req == r then [x] else []
  {
    assert (rs + [x])[..|rs|] == rs;
  }

  lemma HeldSnoc(ds: seq<Completion>, d: Completion, c: nat, r: nat)
    ensures Held(ds + [d], c, r) == Held(ds, c, r) + if Mine(d, c, r) then [d.reply] else []
  {
    assert (ds + [d])[..|ds|] == ds;
  }

  lemma {:induction false} HeldFirst(ds: seq<Completion>, c: nat, r: nat)
    requires ds != []
    ensures Held(ds, c, r) == (if Mine(ds[0], c, r) then [ds[0].reply] else []) + Held(ds[1..], c, r)
  {
    if |ds| == 1 {
      assert ds[..0] == [] && ds[1..] == [];
    } else {
      var n := |ds| - 1;
      HeldFirst(ds[..n], c, r);
      assert ds[..n][1..] == ds[1..][..n - 1] && ds[..n][0] == ds[0];
      Assoc(if Mine(ds[0], c, r) then [ds[0].reply] else [], Held(ds[1..][..n - 1], c, r),
            if Mine(ds[n], c, r) then [ds[n].reply] else []);
    }
  }

  lemma {:induction false} HeldNone(ds: seq<Completion>, c: nat, r: nat)
    requires forall d :: d in ds ==> !Mine(d, c, r)
    ensures Held(ds, c, r) == []
  {
    if ds != [] {
      HeldNone(ds[..|ds| - 1], c, r);
    }
  }

  // ---- Request numbers ---------------------------------------------------------------------

  /** The connection is gone, or has parsed this request. */
  predicate Parsed(s: Server, c: nat, r: nat) { c in s.conns ==> r < s.conns[c].parsed }

  predicate WorkerParsed(s: Server, w: Worker) {
    match w
    case Idle => true
    case Handling(t) => Parsed(s, t.conn, t.req)
    case Resuming(t, d) => Parsed(s, t.conn, t.req) && d.conn == t.conn && d.reply.req == t.req
    case Finished(d) => Parsed(s, d.conn, d.reply.req)
  }

  ghost predicate Numbered(s: Server) {
    && (forall t :: t in s.queue ==> Parsed(s, t.conn, t.req))
    && (forall w :: w in s.workers ==> WorkerParsed(s, w))
    && (forall d :: d in s.done ==> Parsed(s, d.conn, d.reply.req))
    && (forall d :: d in s.batch ==> Parsed(s, d.conn, d.reply.req))
  }

  /** Numbers parsed stay parsed; new connections have nothing yet. */
  ghost predicate Later(s: Server, t: Server) {
    forall c :: c in t.conns && c in s.conns ==> s.conns[c].parsed <= t.conns[c].parsed
  }

  lemma StepLater(s: Server, st: Step)
    requires Enabled(s, st) && Known(s)
    ensures Later(s, Apply(s, st))
    ensures forall c :: c in Apply(s, st).conns && c !in s.conns ==> c == s.nextConn
  {
  }

  lemma StillParsed(s: Server, t: Server, c: nat, r: nat)
    requires Later(s, t) && Parsed(s, c, r) && c < s.nextConn
    requires forall d :: d in t.conns && d !in s.conns ==> d == s.nextConn
    ensures Parsed(t, c, r)
  {
  }

  lemma StepNumbered(s: Server, st: Step)
    requires Enabled(s, st) && Known(s) && Numbered(s)
    ensures Numbered(Apply(s, st))
  {
    var t := Apply(s, st);
    StepLater(s, st);
    hide Later;
    forall c: nat, r: nat | Parsed(s, c, r) && c < s.nextConn ensures Parsed(t, c, r) {
      StillParsed(s, t, c, r);
    }
    forall w | w in t.workers ensures WorkerParsed(t, w) {
      StepWorker(s, st, w);
    }
    if st.Enqueue? || st.Push? {
      assert s.workers[st.worker] in s.workers;
      assert WorkerParsed(s, s.workers[st.worker]) && WorkerKnown(s.workers[st.worker], s.nextConn);
    }
  }

  lemma StepWorker(s: Server, st: Step, w: Worker)
    requires Enabled(s, st) && Known(s) && Numbered(s) && w in Apply(s, st).workers
    requires forall c: nat, r: nat :: Parsed(s, c, r) && c < s.nextConn ==> Parsed(Apply(s, st), c, r)
    ensures WorkerParsed(Apply(s, st), w)
  {
    if w in s.workers {
      assert WorkerParsed(s, w) && WorkerKnown(w, s.nextConn);
    } else {
      assert s.workers[st.worker] in s.workers;
      assert WorkerParsed(s, s.workers[st.worker]) && WorkerKnown(s.workers[st.worker], s.nextConn);
    }
  }

  // ---- One worker -----------------------------------------------------------------------------

  lemma NoneHeld(s: Server, c: nat, r: nat)
    requires |s.workers| == 1 && Numbered(s) && Known(s)
    requires (c in s.conns && s.conns[c].parsed <= r) || c >= s.nextConn
    ensures Held(s.batch, c, r) == [] && Held(s.done, c, r) == [] && HeldBy(s.workers[0], c, r) == []
  {
    assert s.workers[0] in s.workers;
    assert WorkerParsed(s, s.workers[0]) && WorkerKnown(s.workers[0], s.nextConn);
    HeldNone(s.batch, c, r);
    HeldNone(s.done, c, r);
  }

  lemma AcceptChain(s: Server, c: nat, r: nat)
    requires Known(s) && Numbered(s) && |s.workers| == 1 && (c in s.conns || c == s.nextConn)
    ensures Chain(Apply(s, Accept), c, r) == Chain(s, c, r)
  {
    hide Held, HeldBy;
    if c == s.nextConn {
      NoneHeld(s, c, r);
    }
  }

  lemma ParseChain(s: Server, d: nat, busy: Bytes, c: nat, r: nat)
    requires Known(s) && Numbered(s) && |s.workers| == 1 && c in s.conns && d in s.conns
    ensures Chain(Apply(s, Parse(d, busy)), c, r) == Chain(s, c, r) + MadeBy(s, Parse(d, busy), c, r)
  {
    hide Held, HeldBy, OfRequest;
    if d == c && r == s.conns[c].parsed {
      NoneHeld(s, c, r);
    }
    RequestSnoc(s.conns[d].replies, Reply(s.conns[d].parsed, true, busy), r);
  }

  lemma DeliverChain(s: Server, c: nat, r: nat)
    requires |s.workers| == 1 && s.batch != [] && c in s.conns && !s.conns[c].closing
    ensures Chain(Apply(s, Deliver), c, r) == Chain(s, c, r)
  {
    hide Held, HeldBy, OfRequest;
    var d := s.batch[0];
    var first := if Mine(d, c, r) then [d.reply] else [];
    var rest := Held(s.done, c, r) + HeldBy(s.workers[0], c, r);
    HeldFirst(s.batch, c, r);
    RequestSnoc(s.conns[c].replies, d.reply, r);
    Assoc(Delivered(s, c, r), first, Held(s.batch[1..], c, r) + rest);
    Assoc(first, Held(s.batch[1..], c, r), rest);
  }

  /** A step of the I/O thread puts what it makes at the end of the request's chain. */
  lemma IoChain(s: Server, st: Step, c: nat, r: nat)
    requires Enabled(s, st) && Known(s) && Numbered(s) && |s.workers| == 1 && !ByWorker(st)
    requires c in Apply(s, st).conns && !Apply(s, st).conns[c].closing
    ensures Chain(Apply(s, st), c, r) == Chain(s, c, r) + MadeBy(s, st, c, r)
  {
    hide Held, HeldBy, OfRequest, Known, Numbered;
    match st {
      case Accept => AcceptChain(s, c, r);
      case Parse(d, busy) => ParseChain(s, d, busy, c, r);
      case Violation(d, error) => assert d != c;
      case Swap => SwapChain(s, c, r);
      case Deliver => DeliverChain(s, c, r);
      case Flush(_, _) =>
      case Close(_) =>
    }
  }

  lemma SwapChain(s: Server, c: nat, r: nat)
    requires |s.workers| == 1 && s.batch == []
    ensures Chain(Apply(s, Swap), c, r) == Chain(s, c, r)
  {
    hide HeldBy, OfRequest;
    assert Held([], c, r) == [];
  }

  /** And so does the only worker. */
  lemma WorkerChain(s: Server, st: Step, c: nat, r: nat)
    requires Enabled(s, st) && |s.workers| == 1 && ByWorker(st) && c in s.conns
    ensures Chain(Apply(s, st), c, r) == Chain(s, c, r) + MadeBy(s, st, c, r)
  {
    hide Held, OfRequest;
    assert st.worker == 0;
    match st {
      case Push(_) => HeldSnoc(s.done, s.workers[0].completion, c, r);
      case _ =>
    }
  }

  /** The connection is open and not to be closed, or does not exist yet. */
  predicate Good(s: Server, c: nat) {
    if c in s.conns then !s.conns[c].closing else c >= s.nextConn
  }

  lemma StepChain(s: Server, st: Step, c: nat, r: nat)
    requires Enabled(s, st) && Known(s) && Numbered(s) && |s.workers| == 1 && Good(Apply(s, st), c)
    ensures Good(s, c) && |Apply(s, st).workers| == 1
    ensures Chain(Apply(s, st), c, r) == Chain(s, c, r) + MadeBy(s, st, c, r)
  {
    hide Held, HeldBy, OfRequest, Chain, MadeBy;
    var t := Apply(s, st);
    StepGood(s, st, c);
    if c in t.conns {
      if ByWorker(st) {
        WorkerChain(s, st, c, r);
      } else {
        IoChain(s, st, c, r);
      }
    } else {
      StepKnown(s, st);
      StepNumbered(s, st);
      NothingYet(s, c, r);
      NothingYet(t, c, r);
      NothingMade(s, st, c, r);
    }
  }

  lemma StepGood(s: Server, st: Step, c: nat)
    requires Enabled(s, st) && Known(s) && Good(Apply(s, st), c)
    ensures Good(s, c) && |Apply(s, st).workers| == |s.workers|
  {
  }

  lemma NothingYet(s: Server, c: nat, r: nat)
    requires Known(s) && Numbered(s) && |s.workers| == 1 && c >= s.nextConn
    ensures Chain(s, c, r) == []
  {
    NoneHeld(s, c, r);
    hide Held, HeldBy;
  }

  lemma NothingMade(s: Server, st: Step, c: nat, r: nat)
    requires Enabled(s, st) && Known(s) && c !in s.conns && c >= s.nextConn
    ensures MadeBy(s, st, c, r) == []
  {
    if st.Handle? {
      assert s.workers[st.worker] in s.workers;
      assert WorkerKnown(s.workers[st.worker], s.nextConn);
    }
  }

  lemma {:induction false} RunGood(s: Server, steps: seq<Step>, c: nat)
    requires Known(s) && Runs(s, steps) && Good(After(s, steps), c)
    ensures Good(s, c)
    decreases |steps|
  {
    hide Enabled, Apply, Good, Known;
    if steps != [] {
      StepKnown(s, steps[0]);
      RunGood(Apply(s, steps[0]), steps[1..], c);
      StepGood(s, steps[0], c);
    }
  }

  // ---- The final reply comes last -------------------------------------------------------------

  ghost predicate NoFinal(rs: seq<Reply>) { forall i :: 0 <= i < |rs| ==> !rs[i].final }

  ghost predicate FinalLast(rs: seq<Reply>) { forall i :: 0 <= i < |rs| - 1 ==> !rs[i].final }

  lemma {:induction false} NoFinalReply(rs: seq<Reply>, r: nat)
    requires Count(rs, OfReply(Only(r))) == 0
    ensures NoFinal(OfRequest(rs, r))
  {
    if rs != [] {
      NoFinalReply(rs[..|rs| - 1], r);
    }
  }

  lemma {:induction false} NoFinalHeld(ds: seq<Completion>, c: nat, r: nat)
    requires Count(ds, OfDone(c, Only(r))) == 0
    ensures NoFinal(Held(ds, c, r))
  {
    if ds != [] {
      NoFinalHeld(ds[..|ds| - 1], c, r);
    }
  }

  lemma WorkerCount(w: Worker, p: Worker -> bool)
    ensures Count([w], p) == if p(w) then 1 else 0
  {
    assert [w][..0] == [];
  }

  /** Only a request that has no final reply yet gets another reply. */
  lemma MadeBeforeFinal(s: Server, st: Step, c: nat, r: nat)
    requires Enabled(s, st) && Inv(s) && Numbered(s) && |s.workers| == 1 && c in s.conns
    requires MadeBy(s, st, c, r) != []
    ensures NoFinal(Chain(s, c, r))
  {
    assert Conserved(s, c, Only(r));
    IssuedOne(s.conns[c].parsed, r);
    assert s.workers == [s.workers[0]];
    WorkerCount(s.workers[0], OfWorker(c, Only(r)));
    assert s.workers[0] in s.workers;
    assert WorkerParsed(s, s.workers[0]);
    hide Count, Issued, AllConserved, BytesKept, Held, OfRequest;
    if Count(s.batch, OfDone(c, Only(r))) == 0 { NoFinalHeld(s.batch, c, r); }
    if Count(s.done, OfDone(c, Only(r))) == 0 { NoFinalHeld(s.done, c, r); }
    if Count(s.conns[c].replies, OfReply(Only(r))) == 0 { NoFinalReply(s.conns[c].replies, r); }
  }

  lemma FinalAppended(a: seq<Reply>, b: seq<Reply>)
    requires FinalLast(a) && |b| <= 1 && (b != [] ==> NoFinal(a))
    ensures FinalLast(a + b)
  {
    assert a + [] == a;
  }

  lemma OneMade(s: Server, st: Step, c: nat, r: nat)
    requires Enabled(s, st)
    ensures |MadeBy(s, st, c, r)| <= 1
  {
  }

  lemma StepFinal(s: Server, st: Step, c: nat, r: nat)
    requires Enabled(s, st) && Inv(s) && Numbered(s) && |s.workers| == 1 && Good(Apply(s, st), c)
    requires FinalLast(Chain(s, c, r))
    ensures |Apply(s, st).workers| == 1 && FinalLast(Chain(Apply(s, st), c, r))
  {
    hide Enabled, Apply, AllConserved, BytesKept, Chain, MadeBy, FinalLast;
    StepChain(s, st, c, r);
    if MadeBy(s, st, c, r) != [] {
      if c in s.conns {
        MadeBeforeFinal(s, st, c, r);
      } else {
        NothingMade(s, st, c, r);
      }
    }
    OneMade(s, st, c, r);
    FinalAppended(Chain(s, c, r), MadeBy(s, st, c, r));
  }

  // ---- Runs ------------------------------------------------------------------------------------

  lemma {:induction false} RunChain(s: Server, steps: seq<Step>, c: nat, r: nat)
    requires Inv(s) && Numbered(s) && |s.workers| == 1 && Runs(s, steps) && Good(After(s, steps), c)
    requires FinalLast(Chain(s, c, r))
    ensures |After(s, steps).workers| == 1
    ensures Chain(After(s, steps), c, r) == Chain(s, c, r) + Made(s, steps, c, r)
    ensures FinalLast(Chain(After(s, steps), c, r))
    decreases |steps|
  {
    InvKnown(s);
    hide Enabled, Apply, Inv, Numbered, Known, Good, Chain, MadeBy, FinalLast;
    if steps == [] {
      assert Chain(s, c, r) + [] == Chain(s, c, r);
    } else {
      var st, rest := steps[0], steps[1..];
      var t := Apply(s, st);
      StepInv(s, st);
      InvKnown(t);
      StepNumbered(s, st);
      RunGood(t, rest, c);
      StepChain(s, st, c, r);
      StepFinal(s, st, c, r);
      RunChain(t, rest, c, r);
      Assoc(Chain(s, c, r), MadeBy(s, st, c, r), Made(t, rest, c, r));
    }
  }

  lemma InvKnown(s: Server)
    requires Inv(s)
    ensures Known(s)
  {
  }

  lemma StartChain(s: Server, c: nat, r: nat)
    requires Initial(s) && |s.workers| == 1
    ensures Numbered(s) && Chain(s, c, r) == []
  {
    assert s.workers[0] in s.workers;
  }

  lemma DeliveredPrefix(s: Server, c: nat, r: nat)
    requires |s.workers| == 1 && c in s.conns
    ensures OfRequest(s.conns[c].replies, r) <= Chain(s, c, r)
  {
    hide Held, HeldBy, OfRequest;
  }

  /** Main result: with one worker the replies to a request reach its connection in
      the order they were made, and the final one is the last. */
  lemma OneWorkerInOrder(s: Server, steps: seq<Step>, c: nat, r: nat)
    requires Initial(s) && |s.workers| == 1 && Runs(s, steps)
    requires c in After(s, steps).conns && !After(s, steps).conns[c].closing
    ensures OfRequest(After(s, steps).conns[c].replies, r) <= Made(s, steps, c, r)
    ensures FinalLast(OfRequest(After(s, steps).conns[c].replies, r))
  {
    var t := After(s, steps);
    InitialInv(s);
    StartChain(s, c, r);
    assert FinalLast([]);
    hide Runs, After, Inv, Numbered, OfRequest, Chain, Made;
    RunChain(s, steps, c, r);
    DeliveredPrefix(t, c, r);
    assert Chain(t, c, r) == [] + Made(s, steps, c, r) == Made(s, steps, c, r);
    PrefixLast(OfRequest(t.conns[c].replies, r), Chain(t, c, r));
  }

  lemma PrefixLast(a: seq<Reply>, b: seq<Reply>)
    requires a <= b && FinalLast(b)
    ensures FinalLast(a)
  {
    forall i | 0 <= i < |a| - 1 ensures !a[i].final {
      assert a[i] == b[i];
    }
  }

  // ---- Two workers ----------------------------------------------------------------------------------

  lemma {:induction false} RunConcat(s: Server, p: seq<Step>, q: seq<Step>, c: nat, r: nat)
    requires Runs(s, p) && Runs(After(s, p), q)
    ensures Runs(s, p + q) && After(s, p + q) == After(After(s, p), q)
    ensures Made(s, p + q, c, r) == Made(s, p, c, r) + Made(After(s, p), q, c, r)
    decreases |p|
  {
    hide Enabled, Apply, MadeBy;
    if p == [] {
      assert p + q == q && [] + Made(s, q, c, r) == Made(s, q, c, r);
    } else {
      assert (p + q)[0] == p[0] && (p + q)[1..] == p[1..] + q;
      RunConcat(Apply(s, p[0]), p[1..], q, c, r);
      Assoc(MadeBy(s, p[0], c, r), Made(Apply(s, p[0]), p[1..], c, r), Made(After(s, p), q, c, r));
    }
  }

  /** Three given steps through given states, the last two making no reply. */
  lemma ThreeSteps(s: Server, steps: seq<Step>, s1: Server, s2: Server, s3: Server, c: nat, r: nat)
    requires |steps| == 3 && Enabled(s, steps[0]) && Apply(s, steps[0]) == s1
    requires Enabled(s1, steps[1]) && Apply(s1, steps[1]) == s2
    requires Enabled(s2, steps[2]) && Apply(s2, steps[2]) == s3
    requires MadeBy(s1, steps[1], c, r) == [] == MadeBy(s2, steps[2], c, r)
    ensures Runs(s, steps) && After(s, steps) == s3
    ensures Made(s, steps, c, r) == MadeBy(s, steps[0], c, r)
  {
    hide Enabled, Apply, MadeBy;
    var q, p := steps[1..], steps[2..];
    assert q[0] == steps[1] && q[1..] == p && p[0] == steps[2] && p[1..] == [];
    assert Runs(s3, []) && After(s3, []) == s3 && Made(s3, [], c, r) == [];
    assert Runs(s2, p) && After(s2, p) == s3 && Made(s2, p, c, r) == [];
    assert Runs(s1, q) && After(s1, q) == s3 && Made(s1, q, c, r) == [];
  }

  /** A server with n idle workers and no connection. */
  function Start(n: nat): Server { Server(map[], 0, [], seq(n, _ => Idle), [], []) }

  /** One connection that has parsed one request; the first two of n workers. */
  function With(n: nat, replies: seq<Reply>, outbox: Bytes, queue: seq<Task>, w0: Worker, w1: Worker,
                done: seq<Completion>, batch: seq<Completion>): Server
    requires n >= 2
  {
    Server(map[0 := Conn(1, replies, outbox, [], false)], 1, queue, seq(n, _ => Idle)[0 := w0][1 := w1], done, batch)
  }

  const GET := Task(0, 0, false)
  const NEXT := Task(0, 0, true)
  const DATA := Reply(0, false, [1])
  const LAST := Reply(0, true, [2])

  const OPENING: seq<Step> := [Accept, Parse(0, []), Pop(0)]
  const SLICED: seq<Step> := [Handle(0, true, [1], false), Enqueue(0), Pop(1)]
  const OVERTAKEN: seq<Step> := [Handle(1, false, [2], false), Push(1), Push(0)]
  const SENT: seq<Step> := [Swap, Deliver, Deliver]

  lemma Opening(n: nat)
    requires n >= 2
    ensures var t := With(n, [], [], [], Handling(GET), Idle, [], []);
            Runs(Start(n), OPENING) && After(Start(n), OPENING) == t && Made(Start(n), OPENING, 0, 0) == []
  {
    var s1 := Start(n).(conns := map[0 := Conn(0, [], [], [], false)], nextConn := 1);
    var s2 := With(n, [], [], [GET], Idle, Idle, [], []);
    var s3 := With(n, [], [], [], Handling(GET), Idle, [], []);
    assert Start(n).workers[0 := Idle][1 := Idle] == Start(n).workers;
    hide Runs, After, Made;
    ThreeSteps(Start(n), OPENING, s1, s2, s3, 0, 0);
  }

  lemma Sliced(n: nat)
    requires n >= 2
    ensures var s := With(n, [], [], [], Handling(GET), Idle, [], []);
            var t := With(n, [], [], [], Finished(Completion(0, DATA, false)), Handling(NEXT), [], []);
            Runs(s, SLICED) && After(s, SLICED) == t && Made(s, SLICED, 0, 0) == [DATA]
  {
    var d := Completion(0, DATA, false);
    var s := With(n, [], [], [], Handling(GET), Idle, [], []);
    var s1 := With(n, [], [], [], Resuming(GET, d), Idle, [], []);
    var s2 := With(n, [], [], [NEXT], Finished(d), Idle, [], []);
    var s3 := With(n, [], [], [], Finished(d), Handling(NEXT), [], []);
    hide Runs, After, Made;
    assert s.workers[0 := Resuming(GET, d)] == s1.workers;
    ThreeSteps(s, SLICED, s1, s2, s3, 0, 0);
  }

  lemma Overtaken(n: nat)
    requires n >= 2
    ensures var s := With(n, [], [], [], Finished(Completion(0, DATA, false)), Handling(NEXT), [], []);
            var t := With(n, [], [], [], Idle, Idle, [Completion(0, LAST, false), Completion(0, DATA, false)], []);
            Runs(s, OVERTAKEN) && After(s, OVERTAKEN) == t && Made(s, OVERTAKEN, 0, 0) == [LAST]
  {
    var d, e := Completion(0, DATA, false), Completion(0, LAST, false);
    var s := With(n, [], [], [], Finished(d), Handling(NEXT), [], []);
    var s1 := With(n, [], [], [], Finished(d), Finished(e), [], []);
    var s2 := With(n, [], [], [], Finished(d), Idle, [e], []);
    var s3 := With(n, [], [], [], Idle, Idle, [e, d], []);
    hide Runs, After, Made;
    assert s2.workers[0 := Idle] == s3.workers;
    ThreeSteps(s, OVERTAKEN, s1, s2, s3, 0, 0);
  }

  lemma DeliverOne(s: Server, d: Completion, conn: Conn)
    requires s.batch != [] && s.batch[0] == d && d.conn == 0 && s.conns.Keys == {0} && !s.conns[0].closing && !d.close
    requires conn == Append(s.conns[0], d.reply)
    ensures Apply(s, Deliver) == s.(conns := map[0 := conn], batch := s.batch[1..])
  {
    assert s.conns[0 := conn] == map[0 := conn];
  }

  lemma Sent(n: nat)
    requires n >= 2
    ensures var s := With(n, [], [], [], Idle, Idle, [Completion(0, LAST, false), Completion(0, DATA, false)], []);
            var t := With(n, [LAST, DATA], [2, 1], [], Idle, Idle, [], []);
            Runs(s, SENT) && After(s, SENT) == t && Made(s, SENT, 0, 0) == []
  {
    var d, e := Completion(0, DATA, false), Completion(0, LAST, false);
    var s := With(n, [], [], [], Idle, Idle, [e, d], []);
    var s1 := With(n, [], [], [], Idle, Idle, [], [e, d]);
    var s2 := With(n, [LAST], [2], [], Idle, Idle, [], [d]);
    var s3 := With(n, [LAST, DATA], [2, 1], [], Idle, Idle, [], []);
    assert [e, d][1..] == [d] && [d][1..] == [];
    DeliverOne(s1, e, s2.conns[0]);
    DeliverOne(s2, d, s3.conns[0]);
    hide Runs, After, Made;
    ThreeSteps(s, SENT, s1, s2, s3, 0, 0);
  }

  lemma Ended(n: nat)
    requires n >= 2
    ensures var t := With(n, [LAST, DATA], [2, 1], [], Idle, Idle, [], []);
            0 in t.conns && !t.conns[0].closing && t.conns[0].replies == [LAST, DATA]
  {
  }

  /** The slice is made first and arrives second, behind the final OK. */
  lemma Overtaking(n: nat)
    requires n >= 2
    ensures var steps := OPENING + SLICED + OVERTAKEN + SENT;
            && Runs(Start(n), steps) && Made(Start(n), steps, 0, 0) == [DATA, LAST]
            && 0 in After(Start(n), steps).conns && !After(Start(n), steps).conns[0].closing
            && After(Start(n), steps).conns[0].replies == [LAST, DATA]
  {
    hide *;
    Opening(n);
    Sliced(n);
    Overtaken(n);
    Sent(n);
    Ended(n);
    assert [] + [DATA] + [LAST] + [] == [DATA, LAST];
    RunConcat(Start(n), OPENING, SLICED, 0, 0);
    RunConcat(Start(n), OPENING + SLICED, OVERTAKEN, 0, 0);
    RunConcat(Start(n), OPENING + SLICED + OVERTAKEN, SENT, 0, 0);
  }

  /** Every request's replies are delivered in the order they were made. */
  ghost predicate InOrder(s: Server, steps: seq<Step>)
    requires Runs(s, steps)
  {
    var t := After(s, steps);
    forall c, r: nat :: c in t.conns && !t.conns[c].closing ==>
      OfRequest(t.conns[c].replies, r) <= Made(s, steps, c, r)
  }

  /** Main result: of all the numbers of workers a server may be configured with, one
      alone keeps a download's slices in order. */
  lemma InOrderIff(n: nat)
    requires n >= 1
    ensures (forall steps :: Runs(Start(n), steps) ==> InOrder(Start(n), steps)) <==> n == 1
  {
    hide Runs, After, Made, OfRequest;
    if n == 1 {
      forall steps | Runs(Start(n), steps) ensures InOrder(Start(n), steps) {
        AlwaysInOrder(steps);
      }
    } else {
      var steps := OPENING + SLICED + OVERTAKEN + SENT;
      Overtaking(n);
      SwappedReplies();
      assert OfRequest(After(Start(n), steps).conns[0].replies, 0) == [LAST, DATA];
      assert !InOrder(Start(n), steps);
    }
  }

  lemma AlwaysInOrder(steps: seq<Step>)
    requires Runs(Start(1), steps)
    ensures InOrder(Start(1), steps)
  {
    var t := After(Start(1), steps);
    hide Runs, After, Made, OfRequest;
    forall c, r: nat | c in t.conns && !t.conns[c].closing
      ensures OfRequest(t.conns[c].replies, r) <= Made(Start(1), steps, c, r)
    {
      OneWorkerInOrder(Start(1), steps, c, r);
    }
  }

  lemma SwappedReplies()
    ensures OfRequest([LAST, DATA], 0) == [LAST, DATA] && !([LAST, DATA] <= [DATA, LAST])
  {
    RequestSnoc([], LAST, 0);
    RequestSnoc([LAST], DATA, 0);
    assert [] + [LAST] == [LAST] && [LAST] + [DATA] == [LAST, DATA];
  }
}
