/** The request path of `fr_server.cpp` as interleaved steps of the I/O thread and
    any number of workers: parse, queue, handle, complete, deliver, flush. Each step
    is one critical section of the source. Every parsed request is somewhere exactly
    once, and no reply byte is lost or reordered on its way to the socket. */
module ServerQueue {
  import opened Bytes

  const QUEUE_CAPACITY: nat := 256
  const DONE_HIGH_WATER: nat := 128

  /** `req` numbers the frames parsed on a connection; the source carries the same
      information in the task's payload or its continuation key. */
  datatype Task = Task(conn: nat, req: nat, continuation: bool)

  /** Reply bytes; `final` marks the OK, ERROR or BUSY that ends a request. */
  datatype Reply = Reply(req: nat, final: bool, bytes: Bytes)

  datatype Completion = Completion(conn: nat, reply: Reply, close: bool)

  datatype Worker =
    | Idle
    | Handling(task: Task)
    | Resuming(task: Task, completion: Completion)  // has_more: the continuation comes first
    | Finished(completion: Completion)

  datatype Conn = Conn(parsed: nat, replies: seq<Reply>, outbox: Bytes, written: Bytes, closing: bool)

  datatype Server = Server(
    conns: map<nat, Conn>,
    nextConn: nat,
    queue: seq<Task>,
    workers: seq<Worker>,
    done: seq<Completion>,
    batch: seq<Completion>)

  datatype Step =
    | Accept
    | Parse(conn: nat, busy: Bytes)
    | Violation(conn: nat, error: Bytes)
    | Pop(worker: nat)
    | Discard(worker: nat)
    | Handle(worker: nat, hasMore: bool, bytes: Bytes, close: bool)
    | Vanished(worker: nat)
    | Enqueue(worker: nat)
    | Push(worker: nat)
    | Swap
    | Deliver
    | Flush(conn: nat, n: nat)
    | Close(conn: nat)

  predicate WorkerIn(s: Server, w: nat) { w < |s.workers| }

  predicate Enabled(s: Server, st: Step) {
    match st
    case Accept => true
    case Parse(c, _) => c in s.conns
    case Violation(c, _) => c in s.conns
    case Pop(w) => WorkerIn(s, w) && s.workers[w].Idle? && s.queue != []
    case Discard(w) =>
      WorkerIn(s, w) && s.workers[w].Handling? && !s.workers[w].task.continuation
      && s.workers[w].task.conn !in s.conns
    case Handle(w, hasMore, _, close) =>
      WorkerIn(s, w) && s.workers[w].Handling? && (hasMore ==> !close)
    case Vanished(w) =>
      WorkerIn(s, w) && s.workers[w].Handling? && s.workers[w].task.continuation
      && s.workers[w].task.conn !in s.conns
    case Enqueue(w) => WorkerIn(s, w) && s.workers[w].Resuming? && |s.queue| < QUEUE_CAPACITY
    case Push(w) => WorkerIn(s, w) && s.workers[w].Finished? && |s.done| < DONE_HIGH_WATER
    case Swap => s.batch == []
    case Deliver => s.batch != []
    case Flush(c, n) => c in s.conns && n <= |s.conns[c].outbox|
    case Close(c) => c in s.conns
  }

  /** Append one reply to a connection's outbox. */
  function Append(conn: Conn, r: Reply): Conn {
    conn.(replies := conn.replies + [r], outbox := conn.outbox + r.bytes)
  }

  function AfterDelivery(conn: Conn, done: Completion): Conn {
    if conn.closing then conn
    else
      var more := Append(conn, done.reply);
      if done.close then more.(closing := true) else more
  }

  function Apply(s: Server, st: Step): Server
    requires Enabled(s, st)
  {
    match st
    case Accept =>
      s.(conns := s.conns[s.nextConn := Conn(0, [], [], [], false)], nextConn := s.nextConn + 1)
    case Parse(c, busy) =>
      var conn := s.conns[c];
      var counted := conn.(parsed := conn.parsed + 1);
      if |s.queue| < QUEUE_CAPACITY then
        s.(conns := s.conns[c := counted], queue := s.queue + [Task(c, conn.parsed, false)])
      else
        s.(conns := s.conns[c := Append(counted, Reply(conn.parsed, true, busy))])
    case Violation(c, error) =>
      s.(conns := s.conns[c := Append(s.conns[c], Reply(s.conns[c].parsed, false, error)).(closing := true)])
    case Pop(w) =>
      s.(queue := s.queue[1..], workers := s.workers[w := Handling(s.queue[0])])
    case Discard(w) => s.(workers := s.workers[w := Idle])
    case Handle(w, hasMore, bytes, close) =>
      var task := s.workers[w].task;
      var done := Completion(task.conn, Reply(task.req, !hasMore, bytes), close);
      s.(workers := s.workers[w := if hasMore then Resuming(task, done) else Finished(done)])
    case Vanished(w) =>
      var task := s.workers[w].task;
      s.(workers := s.workers[w := Finished(Completion(task.conn, Reply(task.req, false, []), false))])
    case Enqueue(w) =>
      var task := s.workers[w].task;
      s.(queue := s.queue + [task.(continuation := true)],
         workers := s.workers[w := Finished(s.workers[w].completion)])
    case Push(w) =>
      s.(done := s.done + [s.workers[w].completion], workers := s.workers[w := Idle])
    case Swap => s.(batch := s.done, done := [])
    case Deliver =>
      var done := s.batch[0];
      var rest := s.(batch := s.batch[1..]);
      if done.conn !in s.conns then rest
      else rest.(conns := s.conns[done.conn := AfterDelivery(s.conns[done.conn], done)])
    case Flush(c, n) =>
      var conn := s.conns[c];
      s.(conns := s.conns[c := conn.(outbox := conn.outbox[n..], written := conn.written + conn.outbox[..n])])
    case Close(c) => s.(conns := s.conns - {c})
  }

  // ---- Counting ----------------------------------------------------------------------

  ghost function Count<T>(xs: seq<T>, p: T -> bool): nat {
    if xs == [] then 0 else Count(xs[..|xs| - 1], p) + if p(xs[|xs| - 1]) then 1 else 0
  }

  lemma CountSnoc<T>(xs: seq<T>, x: T, p: T -> bool)
    ensures Count(xs + [x], p) == Count(xs, p) + if p(x) then 1 else 0
  {
    assert (xs + [x])[..|xs|] == xs;
  }

  lemma {:induction false} CountTail<T>(xs: seq<T>, p: T -> bool)
    requires xs != []
    ensures Count(xs, p) == Count(xs[1..], p) + if p(xs[0]) then 1 else 0
  {
    if |xs| > 1 {
      var ys := xs[..|xs| - 1];
      CountTail(ys, p);
      assert ys[1..] == xs[1..][..|xs| - 2];
    } else {
      assert xs[..0] == [] && xs[1..] == [];
    }
  }

  lemma {:induction false} CountUpdate<T>(xs: seq<T>, i: nat, x: T, p: T -> bool)
    requires i < |xs|
    ensures Count(xs[i := x], p) + (if p(xs[i]) then 1 else 0) == Count(xs, p) + if p(x) then 1 else 0
  {
    var n := |xs| - 1;
    if i < n {
      CountUpdate(xs[..n], i, x, p);
      assert xs[i := x][..n] == xs[..n][i := x];
    } else {
      assert xs[i := x][..n] == xs[..n];
    }
  }

  lemma {:induction false} CountZero<T>(xs: seq<T>, p: T -> bool)
    requires forall x :: x in xs ==> !p(x)
    ensures Count(xs, p) == 0
  {
    if xs != [] {
      CountZero(xs[..|xs| - 1], p);
    }
  }

  /** Requests are selected by number. */
  type Sel = nat -> bool

  ghost function Every(): Sel { (x: nat) => true }

  ghost function Only(r: nat): Sel { (x: nat) => x == r }

  ghost function OfTask(c: nat, sel: Sel): Task -> bool { (t: Task) => t.conn == c && sel(t.req) }

  ghost function OfWorker(c: nat, sel: Sel): Worker -> bool {
    (w: Worker) =>
      match w
      case Idle => false
      case Handling(t) => t.conn == c && sel(t.req)
      case Resuming(t, _) => t.conn == c && sel(t.req)
      case Finished(d) => d.conn == c && d.reply.final && sel(d.reply.req)
  }

  ghost function OfDone(c: nat, sel: Sel): Completion -> bool {
    (d: Completion) => d.conn == c && d.reply.final && sel(d.reply.req)
  }

  ghost function OfReply(sel: Sel): Reply -> bool { (r: Reply) => r.final && sel(r.req) }

  /** How many of the selected requests of a connection are held anywhere before
      its outbox: queued, with a worker, or completed and not yet delivered. */
  ghost function InFlight(s: Server, c: nat, sel: Sel): nat {
    Count(s.queue, OfTask(c, sel)) + Count(s.workers, OfWorker(c, sel))
    + Count(s.done, OfDone(c, sel)) + Count(s.batch, OfDone(c, sel))
  }

  /** How many have their final reply in the outbox or already written. */
  ghost function Answered(s: Server, c: nat, sel: Sel): nat
    requires c in s.conns
  {
    Count(s.conns[c].replies, OfReply(sel))
  }

  /** How many of the first n requests are selected. */
  ghost function Issued(n: nat, sel: Sel): nat {
    if n == 0 then 0 else Issued(n - 1, sel) + if sel(n - 1) then 1 else 0
  }

  function BytesOf(rs: seq<Reply>): Bytes {
    if rs == [] then [] else BytesOf(rs[..|rs| - 1]) + rs[|rs| - 1].bytes
  }

  lemma BytesSnoc(rs: seq<Reply>, r: Reply)
    ensures BytesOf(rs + [r]) == BytesOf(rs) + r.bytes
  {
    assert (rs + [r])[..|rs|] == rs;
  }

  // ---- The invariant -------------------------------------------------------------------

  /** Conservation: none of the requests is lost, none answered twice. Once the
      connection is to be closed replies may be dropped, never duplicated. */
  ghost predicate Conserved(s: Server, c: nat, sel: Sel)
    requires c in s.conns
  {
    if s.conns[c].closing then InFlight(s, c, sel) + Answered(s, c, sel) <= Issued(s.conns[c].parsed, sel)
    else InFlight(s, c, sel) + Answered(s, c, sel) == Issued(s.conns[c].parsed, sel)
  }

  ghost predicate AllConserved(s: Server) {
    forall c, sel :: c in s.conns ==> Conserved(s, c, sel)
  }

  ghost predicate BytesKept(s: Server) {
    forall c :: c in s.conns ==> s.conns[c].written + s.conns[c].outbox == BytesOf(s.conns[c].replies)
  }

  predicate Bounded(s: Server) {
    |s.queue| <= QUEUE_CAPACITY && |s.done| <= DONE_HIGH_WATER
  }

  predicate WorkerKnown(w: Worker, n: nat) {
    match w
    case Idle => true
    case Handling(t) => t.conn < n
    case Resuming(t, d) => t.conn < n && d.conn == t.conn && !d.reply.final
    case Finished(d) => d.conn < n
  }

  /** Connection numbers are never reused. */
  ghost predicate Known(s: Server) {
    && (forall c :: c in s.conns ==> c < s.nextConn)
    && (forall t :: t in s.queue ==> t.conn < s.nextConn)
    && (forall w :: w in s.workers ==> WorkerKnown(w, s.nextConn))
    && (forall d :: d in s.done ==> d.conn < s.nextConn)
    && (forall d :: d in s.batch ==> d.conn < s.nextConn)
  }

  ghost predicate Inv(s: Server) {
    Bounded(s) && Known(s) && AllConserved(s) && BytesKept(s)
  }

  predicate Initial(s: Server) {
    s.conns == map[] && s.queue == [] && s.done == [] && s.batch == [] && forall w :: w in s.workers ==> w.Idle?
  }

  lemma InitialInv(s: Server)
    requires Initial(s)
    ensures Inv(s)
  {
  }

  // ---- Steps ----------------------------------------------------------------------------

  lemma StepBounded(s: Server, st: Step)
    requires Enabled(s, st) && Bounded(s)
    ensures Bounded(Apply(s, st))
  {
  }

  lemma WorkersKnown(ws: seq<Worker>, w: nat, x: Worker, n: nat)
    requires w < |ws| && (forall y :: y in ws ==> WorkerKnown(y, n)) && WorkerKnown(x, n)
    ensures forall y :: y in ws[w := x] ==> WorkerKnown(y, n)
  {
  }

  predicate ByWorker(st: Step) {
    st.Pop? || st.Discard? || st.Handle? || st.Vanished? || st.Enqueue? || st.Push?
  }

  lemma WorkerKnowns(s: Server, st: Step)
    requires Enabled(s, st) && Known(s) && ByWorker(st)
    ensures Known(Apply(s, st))
  {
    var w := st.worker;
    assert WorkerKnown(s.workers[w], s.nextConn) by { assert s.workers[w] in s.workers; }
    WorkersKnown(s.workers, w, Apply(s, st).workers[w], s.nextConn);
  }

  lemma StepKnown(s: Server, st: Step)
    requires Enabled(s, st) && Known(s)
    ensures Known(Apply(s, st))
  {
    if ByWorker(st) {
      WorkerKnowns(s, st);
    } else if st.Accept? {
      forall w | w in s.workers ensures WorkerKnown(w, s.nextConn + 1) {
        assert WorkerKnown(w, s.nextConn);
      }
    }
  }

  /** A new connection has nothing in flight. */
  lemma FreshConn(s: Server, sel: Sel)
    requires Known(s)
    ensures InFlight(s, s.nextConn, sel) == 0
  {
    CountZero(s.queue, OfTask(s.nextConn, sel));
    CountZero(s.workers, OfWorker(s.nextConn, sel));
    CountZero(s.done, OfDone(s.nextConn, sel));
    CountZero(s.batch, OfDone(s.nextConn, sel));
  }

  /** Steps of a worker move a request along without losing or doubling it; for a
      connection that is gone it may be dropped. */
  lemma WorkerStep(s: Server, st: Step, c: nat, sel: Sel)
    requires Enabled(s, st) && Known(s) && ByWorker(st)
    ensures Apply(s, st).conns == s.conns
    ensures c in s.conns ==> InFlight(Apply(s, st), c, sel) == InFlight(s, c, sel)
  {
    var w := st.worker;
    var t := Apply(s, st);
    CountUpdate(s.workers, w, t.workers[w], OfWorker(c, sel));
    assert s.workers[w] in s.workers;
    match st {
      case Pop(_) => CountTail(s.queue, OfTask(c, sel));
      case Enqueue(_) => CountSnoc(s.queue, s.workers[w].task.(continuation := true), OfTask(c, sel));
      case Push(_) => CountSnoc(s.done, s.workers[w].completion, OfDone(c, sel));
      case _ =>
    }
  }

  lemma IssuedStep(n: nat, sel: Sel)
    ensures Issued(n + 1, sel) == Issued(n, sel) + if sel(n) then 1 else 0
  {
  }

  lemma ParseStep(s: Server, c: nat, busy: Bytes, d: nat, sel: Sel)
    requires c in s.conns && d in s.conns
    ensures var t := Apply(s, Parse(c, busy));
            var one := if c == d && sel(s.conns[c].parsed) then 1 else 0;
            && InFlight(t, d, sel) + Answered(t, d, sel) == InFlight(s, d, sel) + Answered(s, d, sel) + one
            && Issued(t.conns[d].parsed, sel) == Issued(s.conns[d].parsed, sel) + one
            && t.conns[d].closing == s.conns[d].closing
  {
    hide Issued, OfWorker, OfDone, Count;
    IssuedStep(s.conns[c].parsed, sel);
    CountSnoc(s.queue, Task(c, s.conns[c].parsed, false), OfTask(d, sel));
    CountSnoc(s.conns[c].replies, Reply(s.conns[c].parsed, true, busy), OfReply(sel));
  }

  lemma DeliverStep(s: Server, c: nat, sel: Sel)
    requires s.batch != [] && c in s.conns
    ensures var t := Apply(s, Deliver);
            && c in t.conns && t.conns[c].parsed == s.conns[c].parsed
            && (s.conns[c].closing ==>
                  t.conns[c].closing
                  && InFlight(t, c, sel) + Answered(t, c, sel) <= InFlight(s, c, sel) + Answered(s, c, sel))
            && (!s.conns[c].closing ==>
                  InFlight(t, c, sel) + Answered(t, c, sel) == InFlight(s, c, sel) + Answered(s, c, sel))
  {
    CountTail(s.batch, OfDone(c, sel));
    CountSnoc(s.conns[c].replies, s.batch[0].reply, OfReply(sel));
  }

  lemma ViolationStep(s: Server, c: nat, error: Bytes, d: nat, sel: Sel)
    requires c in s.conns && d in s.conns
    ensures var t := Apply(s, Violation(c, error));
            && InFlight(t, d, sel) == InFlight(s, d, sel) && Answered(t, d, sel) == Answered(s, d, sel)
            && t.conns[d].parsed == s.conns[d].parsed && (t.conns[d].closing == (c == d || s.conns[d].closing))
  {
    CountSnoc(s.conns[c].replies, Reply(s.conns[c].parsed, false, error), OfReply(sel));
  }

  lemma StepConserved(s: Server, st: Step, c: nat, sel: Sel)
    requires Enabled(s, st) && Known(s) && AllConserved(s) && c in Apply(s, st).conns
    ensures Conserved(Apply(s, st), c, sel)
  {
    var t := Apply(s, st);
    if st.Accept? && c == s.nextConn {
      FreshConn(s, sel);
      assert InFlight(t, c, sel) == InFlight(s, c, sel);
    } else {
      assert c in s.conns && Conserved(s, c, sel);
      hide Enabled, InFlight, Answered, Issued, Count, AllConserved;
      match st {
        case Accept => QuietStep(s, st, c, sel);
        case Parse(d, busy) => ParseStep(s, d, busy, c, sel);
        case Violation(d, error) => ViolationStep(s, d, error, c, sel);
        case Deliver => DeliverStep(s, c, sel);
        case Swap => QuietStep(s, st, c, sel);
        case Flush(_, _) => QuietStep(s, st, c, sel);
        case Close(_) => QuietStep(s, st, c, sel);
        case _ =>
          WorkerStep(s, st, c, sel);
          SameAnswers(s, t, c, sel);
      }
    }
  }

  lemma SameAnswers(s: Server, t: Server, c: nat, sel: Sel)
    requires c in s.conns && t.conns == s.conns
    ensures Answered(t, c, sel) == Answered(s, c, sel)
  {
  }

  lemma QuietStep(s: Server, st: Step, c: nat, sel: Sel)
    requires Enabled(s, st) && (st.Accept? || st.Swap? || st.Flush? || st.Close?)
    requires c in s.conns && c in Apply(s, st).conns && (st.Accept? ==> c != s.nextConn)
    ensures var t := Apply(s, st);
            && InFlight(t, c, sel) == InFlight(s, c, sel) && Answered(t, c, sel) == Answered(s, c, sel)
            && t.conns[c].parsed == s.conns[c].parsed && t.conns[c].closing == s.conns[c].closing
  {
  }

  lemma AppendBytes(conn: Conn, r: Reply)
    requires conn.written + conn.outbox == BytesOf(conn.replies)
    ensures Append(conn, r).written + Append(conn, r).outbox == BytesOf(Append(conn, r).replies)
  {
    BytesSnoc(conn.replies, r);
    Assoc(conn.written, conn.outbox, r.bytes);
  }

  lemma StepBytes(s: Server, st: Step)
    requires Enabled(s, st) && BytesKept(s)
    ensures BytesKept(Apply(s, st))
  {
    hide BytesOf;
    match st {
      case Accept => assert BytesOf([]) == [] by { NoBytes(); }
      case Parse(c, busy) =>
        AppendBytes(s.conns[c].(parsed := s.conns[c].parsed + 1), Reply(s.conns[c].parsed, true, busy));
      case Violation(c, error) => AppendBytes(s.conns[c], Reply(s.conns[c].parsed, false, error));
      case Deliver =>
        if s.batch[0].conn in s.conns {
          AppendBytes(s.conns[s.batch[0].conn], s.batch[0].reply);
        }
      case Flush(c, n) =>
        Cut(s.conns[c].outbox, n);
        Assoc(s.conns[c].written, s.conns[c].outbox[..n], s.conns[c].outbox[n..]);
      case _ =>
    }
  }

  lemma NoBytes()
    ensures BytesOf([]) == []
  {
  }

  /** Main result: every step of the I/O thread and of every worker, in any order,
      keeps the invariant. */
  lemma StepInv(s: Server, st: Step)
    requires Enabled(s, st) && Inv(s)
    ensures Inv(Apply(s, st))
  {
    StepBounded(s, st);
    StepKnown(s, st);
    StepBytes(s, st);
    var t := Apply(s, st);
    forall c, sel | c in t.conns ensures Conserved(t, c, sel) {
      hide Conserved, Enabled, Apply;
      StepConserved(s, st, c, sel);
    }
  }

  // ---- Runs ---------------------------------------------------------------------------------

  ghost predicate Runs(s: Server, steps: seq<Step>)
    decreases |steps|
  {
    steps == [] || (Enabled(s, steps[0]) && Runs(Apply(s, steps[0]), steps[1..]))
  }

  ghost function After(s: Server, steps: seq<Step>): Server
    requires Runs(s, steps)
    decreases |steps|
  {
    if steps == [] then s else After(Apply(s, steps[0]), steps[1..])
  }

  lemma {:induction false} RunInv(s: Server, steps: seq<Step>)
    requires Inv(s) && Runs(s, steps)
    ensures Inv(After(s, steps))
    decreases |steps|
  {
    hide Inv, Enabled, Apply;
    if steps != [] {
      StepInv(s, steps[0]);
      RunInv(Apply(s, steps[0]), steps[1..]);
    }
  }

  /** Steps by which the I/O thread itself answers on a connection. */
  predicate Reads(st: Step, c: nat) { (st.Parse? || st.Violation?) && st.conn == c }

  lemma StepClosing(s: Server, st: Step, c: nat)
    requires Enabled(s, st) && c < s.nextConn && !Reads(st, c)
    ensures c < Apply(s, st).nextConn
    ensures c !in s.conns ==> c !in Apply(s, st).conns
    ensures c in Apply(s, st).conns && s.conns[c].closing ==>
            Apply(s, st).conns[c].closing && Apply(s, st).conns[c].replies == s.conns[c].replies
  {
  }

  lemma {:induction false} GoneStays(s: Server, steps: seq<Step>, c: nat)
    requires Runs(s, steps) && c < s.nextConn && c !in s.conns
    requires forall i :: 0 <= i < |steps| ==> !Reads(steps[i], c)
    ensures c !in After(s, steps).conns
    decreases |steps|
  {
    if steps != [] {
      StepClosing(s, steps[0], c);
      GoneStays(Apply(s, steps[0]), steps[1..], c);
    }
  }

  /** Main result: a protocol violation is answered at once, and that answer is the last:
      whatever the workers still finish, over any run in which nothing more is read from
      the connection, nothing is added to it. */
  lemma {:induction false} NothingAfterClosing(s: Server, steps: seq<Step>, c: nat)
    requires Runs(s, steps) && c in s.conns && c < s.nextConn && s.conns[c].closing
    requires forall i :: 0 <= i < |steps| ==> !Reads(steps[i], c)
    ensures var t := After(s, steps);
            c in t.conns ==> t.conns[c].closing && t.conns[c].replies == s.conns[c].replies
    decreases |steps|
  {
    if steps != [] {
      StepClosing(s, steps[0], c);
      var u := Apply(s, steps[0]);
      if c in u.conns {
        NothingAfterClosing(u, steps[1..], c);
      } else {
        GoneStays(u, steps[1..], c);
      }
    }
  }

  lemma ViolationCloses(s: Server, c: nat, error: Bytes, steps: seq<Step>)
    requires c in s.conns && c < s.nextConn && Runs(Apply(s, Violation(c, error)), steps)
    requires forall i :: 0 <= i < |steps| ==> !Reads(steps[i], c)
    ensures var t := After(Apply(s, Violation(c, error)), steps);
            c in t.conns ==>
              t.conns[c].replies == s.conns[c].replies + [Reply(s.conns[c].parsed, false, error)]
  {
    hide Runs, After;
    NothingAfterClosing(Apply(s, Violation(c, error)), steps, c);
  }

  /** A reply that closes its connection is the last on it. */
  lemma CloseIsLast(s: Server, steps: seq<Step>)
    requires s.batch != [] && s.batch[0].close && s.batch[0].conn in s.conns && s.batch[0].conn < s.nextConn
    requires !s.conns[s.batch[0].conn].closing && Runs(Apply(s, Deliver), steps)
    requires forall i :: 0 <= i < |steps| ==> !Reads(steps[i], s.batch[0].conn)
    ensures var c, t := s.batch[0].conn, After(Apply(s, Deliver), steps);
            c in t.conns ==> t.conns[c].replies == s.conns[c].replies + [s.batch[0].reply]
  {
    hide Runs, After;
    NothingAfterClosing(Apply(s, Deliver), steps, s.batch[0].conn);
  }

  lemma {:induction false} IssuedAll(n: nat)
    ensures Issued(n, Every()) == n
  {
    if n != 0 {
      IssuedAll(n - 1);
    }
  }

  lemma {:induction false} IssuedOne(n: nat, r: nat)
    ensures Issued(n, Only(r)) == if r < n then 1 else 0
  {
    if n != 0 {
      IssuedOne(n - 1, r);
    }
  }

  /** Back-pressure: a request is answered BUSY exactly when 256 are queued, a completion
      waits exactly when 128 are undelivered. */
  lemma BusyIff(s: Server, c: nat, busy: Bytes, w: nat)
    requires c in s.conns && WorkerIn(s, w) && s.workers[w].Finished?
    ensures var t := Apply(s, Parse(c, busy));
            if |s.queue| >= 256 then
              t.queue == s.queue
              && t.conns[c].replies == s.conns[c].replies + [Reply(s.conns[c].parsed, true, busy)]
            else
              t.queue == s.queue + [Task(c, s.conns[c].parsed, false)]
              && t.conns[c].replies == s.conns[c].replies && t.conns[c].outbox == s.conns[c].outbox
    ensures Enabled(s, Push(w)) <==> |s.done| < 128
  {
  }

  /** What it means for one connection after any run: the frames parsed are exactly
      accounted for, and every single request is in exactly one place, or answered
      exactly once. */
  lemma Accounted(s: Server, steps: seq<Step>, c: nat)
    requires Initial(s) && Runs(s, steps)
    requires c in After(s, steps).conns && !After(s, steps).conns[c].closing
    ensures var t := After(s, steps);
            && t.conns[c].parsed == InFlight(t, c, Every()) + Answered(t, c, Every())
            && |t.queue| <= 256 && |t.done| <= 128
            && t.conns[c].written + t.conns[c].outbox == BytesOf(t.conns[c].replies)
            && forall r: nat :: InFlight(t, c, Only(r)) + Answered(t, c, Only(r)) ==
                                if r < t.conns[c].parsed then 1 else 0
  {
    InitialInv(s);
    RunInv(s, steps);
    var t := After(s, steps);
    IssuedAll(t.conns[c].parsed);
    assert Conserved(t, c, Every());
    forall r: nat
      ensures InFlight(t, c, Only(r)) + Answered(t, c, Only(r)) == if r < t.conns[c].parsed then 1 else 0
    {
      IssuedOne(t.conns[c].parsed, r);
      assert Conserved(t, c, Only(r));
    }
  }
}
