/** Runs of operations in which any call may be ended early: by an exception the
    process survives, or by a crash, whose recovery may crash in turn. What still
    holds between the steps, what becomes of the limit on sessions per owner, and
    exactly when a commit leaves its session stranded. */
module SessionLimit {
  import opened Bytes
  import opened Store
  import opened Safety
  import opened Operations
  import opened Exactness
  import opened History

  /** A recovery that did not get beyond k statements. */
  datatype Attempt = Attempt(now: int, k: nat)

  /** A completed operation; one ended after k statements by an exception, after
      which the process goes on; or one ended by a crash, followed by recoveries that
      crash themselves and one that completes. A k beyond the plan is all of it. */
  datatype Step =
    | Done(op: Op, now: int)
    | Abandoned(op: Op, now: int, k: nat)
    | Crash(op: Op, now: int, k: nat, attempts: seq<Attempt>, reopened: int)

  function Prefix<T>(p: seq<T>, k: nat): seq<T> {
    if k < |p| then p[..k] else p
  }

  /** The state an operation leaves when it is cut off after k statements. */
  ghost function Cut(cfg: Config, s: State, op: Op, now: int, k: nat): State {
    After(cfg, s, Prefix(Plan(cfg, s, op, now), k), now)
  }

  ghost function Attempted(cfg: Config, s: State, attempts: seq<Attempt>): State
    decreases |attempts|
  {
    if attempts == [] then s
    else Attempted(cfg, Cut(cfg, s, MaintainOp, attempts[0].now, attempts[0].k), attempts[1..])
  }

  ghost predicate StepOk(cfg: Config, s: State, st: Step) {
    Admissible(cfg, s, st.op)
  }

  ghost function StepState(cfg: Config, s: State, st: Step): State {
    match st
    case Done(op, now) => OpState(cfg, s, op, now)
    case Abandoned(op, now, k) => Cut(cfg, s, op, now, k)
    case Crash(op, now, k, attempts, reopened) =>
      RunMaintenance(Attempted(cfg, Cut(cfg, s, op, now, k), attempts), reopened).0
  }

  // ---- Cutting a plan -------------------------------------------------------------------

  lemma PrefixRuns(cfg: Config, s: State, op: Op, now: int, k: nat)
    requires ValidConfig(cfg) && Safe(cfg, s) && Admissible(cfg, s, op)
    ensures Runs(cfg, s, Prefix(Plan(cfg, s, op, now), k), now)
  {
    hide *;
    var p := Plan(cfg, s, op, now);
    PlanRuns(cfg, s, op, now);
    if k < |p| {
      RunsPrefix(cfg, s, p, k, now);
    }
    PrefixCases(p, k);
  }

  lemma PrefixCases<T>(p: seq<T>, k: nat)
    ensures Prefix(p, k) == if k < |p| then p[..k] else p
    ensures forall x :: x in Prefix(p, k) ==> x in p
    ensures |Prefix(p, k)| <= |p|
  {
  }

  lemma CutSafe(cfg: Config, s: State, op: Op, now: int, k: nat)
    requires ValidConfig(cfg) && Safe(cfg, s) && Admissible(cfg, s, op)
    ensures Safe(cfg, Cut(cfg, s, op, now, k))
  {
    hide Safe, ValidConfig, Runs, After, Plan, Admissible, Prefix;
    PrefixRuns(cfg, s, op, now, k);
    RunSafe(cfg, s, Prefix(Plan(cfg, s, op, now), k), now);
  }

  lemma {:induction false} AttemptedSafe(cfg: Config, s: State, attempts: seq<Attempt>)
    requires ValidConfig(cfg) && Safe(cfg, s)
    ensures Safe(cfg, Attempted(cfg, s, attempts))
    decreases |attempts|
  {
    hide Safe, ValidConfig, Cut;
    if attempts != [] {
      CutSafe(cfg, s, MaintainOp, attempts[0].now, attempts[0].k);
      AttemptedSafe(cfg, Cut(cfg, s, MaintainOp, attempts[0].now, attempts[0].k), attempts[1..]);
    }
  }

  // ---- Live sessions ---------------------------------------------------------------------

  function LiveOf(s: State, owner: string): set<SessionId> {
    set id | id in s.sessions && s.sessions[id].owner == owner && Live(s.sessions[id].state)
  }

  function CommittingOf(s: State, owner: string): set<SessionId> {
    set id | id in s.sessions && s.sessions[id].owner == owner && s.sessions[id].state == COMMITTING
  }

  /** No session is live that was not live before. */
  ghost predicate NoNewLive(s: State, t: State) {
    forall id :: id in t.sessions && Live(t.sessions[id].state) ==>
      id in s.sessions && Live(s.sessions[id].state) && s.sessions[id].owner == t.sessions[id].owner
  }

  lemma NoNewLiveTrans(s: State, t: State, u: State)
    requires NoNewLive(s, t) && NoNewLive(t, u)
    ensures NoNewLive(s, u)
  {
  }

  lemma FewerLive(s: State, t: State, o: string)
    requires NoNewLive(s, t)
    ensures LiveOf(t, o) <= LiveOf(s, o) && |LiveOf(t, o)| <= |LiveOf(s, o)|
  {
    assert LiveOf(t, o) <= LiveOf(s, o);
    SubsetSize(LiveOf(t, o), LiveOf(s, o));
  }

  lemma SubsetSize<T>(a: set<T>, b: set<T>)
    requires a <= b
    ensures |a| <= |b|
  {
    assert b == a + (b - a);
  }

  lemma ActionKeys(cfg: Config, s: State, a: Action, now: int)
    requires Enabled(cfg, s, a, now) && !a.Create?
    ensures Apply(cfg, s, a, now).sessions.Keys == s.sessions.Keys
  {
    hide Referenced, CheckUpload, Manifest, UsedBytes, OpenOf, Count, Ripe, MarkAll;
    if a.Delete? { MarkKeepsSessions(Unpublish(s, a.ident), ManifestDigests(s.artifacts[a.ident]), now); }
    if a.Mark? { MarkKeepsSessions(s, {a.digest}, now); }
    if a.Abort? { AbortSessions(s, a.id, now); }
  }

  lemma ActionLive(cfg: Config, s: State, a: Action, now: int)
    requires Enabled(cfg, s, a, now) && !a.Create?
    ensures NoNewLive(s, Apply(cfg, s, a, now))
  {
    ActionSessions(cfg, s, a, now);
    ActionKeys(cfg, s, a, now);
    hide Enabled, Apply;
    StepLive(s, Apply(cfg, s, a, now));
  }

  lemma StepLive(s: State, t: State)
    requires SessionsStep(s, t) && t.sessions.Keys == s.sessions.Keys
    ensures NoNewLive(s, t)
  {
    assert forall id :: id in t.sessions ==> id in s.sessions;
  }

  lemma {:induction false} RunLive(cfg: Config, s: State, p: seq<Action>, now: int)
    requires Runs(cfg, s, p, now) && forall a :: a in p ==> !a.Create?
    ensures NoNewLive(s, After(cfg, s, p, now))
    decreases |p|
  {
    hide Enabled, Apply, NoNewLive;
    if p == [] {
      NoNewLiveSame(s);
    } else {
      var t := Apply(cfg, s, p[0], now);
      ActionLive(cfg, s, p[0], now);
      RunLive(cfg, t, p[1..], now);
      NoNewLiveTrans(s, t, After(cfg, t, p[1..], now));
    }
  }

  lemma NoNewLiveSame(s: State)
    ensures NoNewLive(s, s)
  {
  }

  // ---- Which plans create, which begin --------------------------------------------------------

  /** A statement of a retirement, a sweep or a maintenance pass. */
  predicate Quiet(a: Action) { !a.Create? && !a.Begin? }

  lemma {:induction false} MarkListQuiet(s: State, ds: seq<Digest>)
    ensures forall a :: a in MarkList(s, ds) ==> Quiet(a)
  {
    if ds != [] {
      MarkListQuiet(s, ds[1..]);
    }
  }

  lemma RetireQuiet(s: State, id: SessionId)
    ensures forall a :: a in RetirePlan(s, id) ==> Quiet(a)
  {
    MarkListQuiet(DropParts(s, id), Listing(DigestsOf(s, id)));
    hide MarkList, DropParts, DigestsOf;
  }

  lemma ExpireQuiet(s: State, id: SessionId, now: int)
    requires id in s.sessions
    ensures forall a :: a in ExpirePlan(s, id, now) ==> Quiet(a)
  {
    RetireQuiet(WithState(s, id, EXPIRED), id);
    hide RetirePlan, WithState;
  }

  lemma {:induction false} RetireAllQuiet(s: State, ids: seq<SessionId>, now: int)
    ensures forall a :: a in RetireAllPlan(s, ids, now) ==> Quiet(a)
    decreases |ids|
  {
    if ids != [] {
      RetireQuiet(s, ids[0]);
      RetireAllQuiet(MarkParts(s, ids[0], now), ids[1..], now);
      hide MarkParts, RetirePlan;
    }
  }

  lemma {:induction false} SweepQuiet(ds: seq<Digest>)
    ensures forall a :: a in SweepPlan(ds) ==> Quiet(a)
  {
    if ds != [] {
      SweepQuiet(ds[1..]);
    }
  }

  lemma PlanQuiet(cfg: Config, s: State, op: Op, now: int)
    requires !op.CreateOp? && !op.CommitOp?
    ensures forall a :: a in Plan(cfg, s, op, now) ==> Quiet(a)
  {
    hide Referenced, UsedBytes, Count, ExpirePlan, RetireAllPlan, SweepPlan, Garbage, MarkAll;
    match op {
      case PutOp(id, _, _) =>
        if id in s.sessions { ExpireQuiet(s, id, now); }
      case FailOp(id, _, _) =>
        if id in s.sessions { ExpireQuiet(s, id, now); }
      case AbortOp(_) =>
      case DeleteOp(_) =>
      case GcOp(_) => SweepQuiet(Listing(Garbage(cfg, s, now)));
      case MaintainOp =>
        var s1 := ReopenAll(ExpireAllDue(s, now));
        RetireAllQuiet(s1, Listing(DeadIds(s1)), now);
    }
  }

  lemma PlanNoCreate(cfg: Config, s: State, op: Op, now: int)
    requires !op.CreateOp?
    ensures forall a :: a in Plan(cfg, s, op, now) ==> !a.Create?
  {
    hide CheckUpload, Count, ExpirePlan;
    if op.CommitOp? {
      if op.id in s.sessions { ExpireQuiet(s, op.id, now); }
    } else {
      hide Plan;
      PlanQuiet(cfg, s, op, now);
    }
  }

  lemma CutLive(cfg: Config, s: State, op: Op, now: int, k: nat)
    requires ValidConfig(cfg) && Safe(cfg, s) && Admissible(cfg, s, op) && !op.CreateOp?
    ensures NoNewLive(s, Cut(cfg, s, op, now, k))
  {
    hide Safe, ValidConfig, Runs, After, Plan, Admissible, Prefix, NoNewLive;
    var p := Plan(cfg, s, op, now);
    PrefixRuns(cfg, s, op, now, k);
    PlanNoCreate(cfg, s, op, now);
    PrefixCases(p, k);
    RunLive(cfg, s, Prefix(p, k), now);
  }

  lemma {:induction false} AttemptedLive(cfg: Config, s: State, attempts: seq<Attempt>)
    requires ValidConfig(cfg) && Safe(cfg, s)
    ensures NoNewLive(s, Attempted(cfg, s, attempts))
    decreases |attempts|
  {
    hide Safe, ValidConfig, Cut, NoNewLive;
    if attempts == [] {
      NoNewLiveSame(s);
    } else {
      var t := Cut(cfg, s, MaintainOp, attempts[0].now, attempts[0].k);
      CutSafe(cfg, s, MaintainOp, attempts[0].now, attempts[0].k);
      CutLive(cfg, s, MaintainOp, attempts[0].now, attempts[0].k);
      AttemptedLive(cfg, t, attempts[1..]);
      NoNewLiveTrans(s, t, Attempted(cfg, t, attempts[1..]));
    }
  }

  lemma MaintainLive(s: State, now: int)
    ensures NoNewLive(s, RunMaintenance(s, now).0)
  {
    hide Referenced, Markable;
  }

  // ---- Stranded commits --------------------------------------------------------------------------

  /** The step takes this session from OPEN to COMMITTING and leaves it there: the
      manifest allocation is refused, or an exception falls right after the change. */
  predicate Strands(s: State, st: Step, id: SessionId) {
    !st.Crash? && st.op.CommitOp? && st.op.id == id
    && id in s.sessions && s.sessions[id].state == OPEN && st.now < s.sessions[id].expiresAt
    && (Count(s.sessions[id]) > st.op.room || (st.Abandoned? && st.k < 2))
    && (st.Abandoned? ==> st.k > 0)
  }

  ghost predicate NewlyCommitting(s: State, t: State, id: SessionId) {
    HasState(t, id, COMMITTING) && !HasState(s, id, COMMITTING)
  }

  /** No session enters COMMITTING. */
  ghost predicate NoneBegun(s: State, t: State) {
    forall id :: HasState(t, id, COMMITTING) ==> HasState(s, id, COMMITTING)
  }

  lemma NoneBegunTrans(s: State, t: State, u: State)
    requires NoneBegun(s, t) && NoneBegun(t, u)
    ensures NoneBegun(s, u)
  {
  }

  lemma ActionBegun(cfg: Config, s: State, a: Action, now: int)
    requires Enabled(cfg, s, a, now) && !a.Begin?
    ensures NoneBegun(s, Apply(cfg, s, a, now))
  {
    hide Referenced, CheckUpload, Manifest, UsedBytes, OpenOf, Count, Ripe, MarkAll, Watermark;
    if a.Delete? { MarkKeepsSessions(Unpublish(s, a.ident), ManifestDigests(s.artifacts[a.ident]), now); }
    if a.Mark? { MarkKeepsSessions(s, {a.digest}, now); }
    if a.Abort? { AbortSessions(s, a.id, now); }
  }

  lemma {:induction false} RunBegun(cfg: Config, s: State, p: seq<Action>, now: int)
    requires Runs(cfg, s, p, now) && forall a :: a in p ==> !a.Begin?
    ensures NoneBegun(s, After(cfg, s, p, now))
    decreases |p|
  {
    hide Enabled, Apply, NoneBegun;
    if p == [] {
      NoneBegunSame(s);
    } else {
      var t := Apply(cfg, s, p[0], now);
      ActionBegun(cfg, s, p[0], now);
      RunBegun(cfg, t, p[1..], now);
      NoneBegunTrans(s, t, After(cfg, t, p[1..], now));
    }
  }

  lemma NoneBegunSame(s: State)
    ensures NoneBegun(s, s)
  {
  }

  lemma CreatePlanNoBegin(cfg: Config, s: State, op: Op, now: int)
    requires op.CreateOp?
    ensures forall a :: a in Plan(cfg, s, op, now) ==> !a.Begin?
  {
    hide UsedBytes, OpenOf, Watermark;
  }

  /** Cut anywhere, an operation other than commit begins nothing. */
  lemma CutBegun(cfg: Config, s: State, op: Op, now: int, k: nat)
    requires ValidConfig(cfg) && Safe(cfg, s) && Admissible(cfg, s, op) && !op.CommitOp?
    ensures NoneBegun(s, Cut(cfg, s, op, now, k))
  {
    hide Safe, ValidConfig, Runs, After, Plan, Admissible, Prefix, NoneBegun;
    var p := Plan(cfg, s, op, now);
    PrefixRuns(cfg, s, op, now, k);
    if op.CreateOp? {
      CreatePlanNoBegin(cfg, s, op, now);
    } else {
      PlanQuiet(cfg, s, op, now);
    }
    PrefixCases(p, k);
    RunBegun(cfg, s, Prefix(p, k), now);
  }

  /** A commit that is not due: begin, and one statement more unless the allocation
      is refused. */
  lemma CommitPlanIs(cfg: Config, s: State, id: SessionId, room: nat, now: int)
    requires HasState(s, id, OPEN) && now < s.sessions[id].expiresAt
    ensures var p := Plan(cfg, s, CommitOp(id, room), now);
            if Count(s.sessions[id]) > room then p == [Begin(id)]
            else |p| == 2 && p[0] == Begin(id) && !p[1].Begin?
                 && (p[1] == PublishTx(id) || p[1] == Rollback(id))
  {
    hide CheckUpload, Count;
    assert ExpirePlan(s, id, now) == [] && ExpireIfDue(s, id, now) == s;
    assert [] + CommitPlan(cfg, s, id, room) == CommitPlan(cfg, s, id, room);
  }

  /** Otherwise a commit begins nothing. */
  lemma CommitPlanQuiet(cfg: Config, s: State, id: SessionId, room: nat, now: int)
    requires !(HasState(s, id, OPEN) && now < s.sessions[id].expiresAt)
    ensures forall a :: a in Plan(cfg, s, CommitOp(id, room), now) ==> !a.Begin?
  {
    hide CheckUpload, Count, ExpirePlan;
    if id in s.sessions {
      ExpireQuiet(s, id, now);
    }
  }

  lemma CutCommit(cfg: Config, s: State, id: SessionId, room: nat, now: int, k: nat)
    requires ValidConfig(cfg) && Safe(cfg, s) && HasState(s, id, OPEN) && now < s.sessions[id].expiresAt
    ensures var t := Cut(cfg, s, CommitOp(id, room), now, k);
            if k == 0 then t == s
            else if k == 1 || Count(s.sessions[id]) > room then t == WithState(s, id, COMMITTING)
            else NoneBegun(s, t)
  {
    hide *;
    var op := CommitOp(id, room);
    var p := Plan(cfg, s, op, now);
    CommitPlanIs(cfg, s, id, room, now);
    CutIs(cfg, s, op, now, k);
    PrefixShort(p, k);
    if k == 0 {
      CutNothing(cfg, s, now);
    } else if |p| == 1 || k == 1 {
      CutBegin(cfg, s, id, now);
    } else {
      PlanRuns(cfg, s, CommitOp(id, room), now);
      CommitSettles(cfg, s, id, room, now);
    }
  }

  lemma CutIs(cfg: Config, s: State, op: Op, now: int, k: nat)
    ensures Cut(cfg, s, op, now, k) == After(cfg, s, Prefix(Plan(cfg, s, op, now), k), now)
  {
  }

  lemma PrefixShort<T>(p: seq<T>, k: nat)
    ensures k == 0 ==> Prefix(p, k) == []
    ensures k >= |p| ==> Prefix(p, k) == p
    ensures k == 1 <= |p| ==> Prefix(p, k) == [p[0]]
    ensures |p| == 1 <= k ==> Prefix(p, k) == [p[0]]
  {
  }

  lemma CutNothing(cfg: Config, s: State, now: int)
    ensures After(cfg, s, [], now) == s
  {
  }

  lemma CutBegin(cfg: Config, s: State, id: SessionId, now: int)
    requires HasState(s, id, OPEN) && now < s.sessions[id].expiresAt
    ensures After(cfg, s, [Begin(id)], now) == WithState(s, id, COMMITTING)
  {
    assert Enabled(cfg, s, Begin(id), now);
    RunOne(cfg, s, Begin(id), now);
  }

  /** A commit that runs to its end with its manifest allocated leaves no session
      COMMITTING that was not. */
  lemma CommitSettles(cfg: Config, s: State, id: SessionId, room: nat, now: int)
    requires HasState(s, id, OPEN) && now < s.sessions[id].expiresAt && Count(s.sessions[id]) <= room
    ensures NoneBegun(s, OpState(cfg, s, CommitOp(id, room), now))
  {
    hide CheckUpload, Count, NewArtifact, ReactivateAll, Contiguous;
  }

  /** A whole commit of a session that is not open, or due. */
  lemma CutOther(cfg: Config, s: State, id: SessionId, room: nat, now: int, k: nat)
    requires ValidConfig(cfg) && Safe(cfg, s) && !(HasState(s, id, OPEN) && now < s.sessions[id].expiresAt)
    ensures NoneBegun(s, Cut(cfg, s, CommitOp(id, room), now, k))
  {
    hide *;
    var p := Plan(cfg, s, CommitOp(id, room), now);
    CommitAdmissible(cfg, s, id, room);
    PrefixRuns(cfg, s, CommitOp(id, room), now, k);
    CommitPlanQuiet(cfg, s, id, room, now);
    PrefixCases(p, k);
    CutIs(cfg, s, CommitOp(id, room), now, k);
    RunBegun(cfg, s, Prefix(p, k), now);
  }

  lemma CommitAdmissible(cfg: Config, s: State, id: SessionId, room: nat)
    ensures Admissible(cfg, s, CommitOp(id, room))
  {
  }

  /** What a cut commit strands. */
  lemma CutStrands(cfg: Config, s: State, id: SessionId, room: nat, now: int, k: nat, j: SessionId)
    requires ValidConfig(cfg) && Safe(cfg, s)
    ensures NewlyCommitting(s, Cut(cfg, s, CommitOp(id, room), now, k), j) <==>
            j == id && HasState(s, id, OPEN) && now < s.sessions[id].expiresAt
            && k > 0 && (k == 1 || Count(s.sessions[id]) > room)
  {
    hide Safe, ValidConfig, Cut, Count;
    if HasState(s, id, OPEN) && now < s.sessions[id].expiresAt {
      CutCommit(cfg, s, id, room, now, k);
    } else {
      CutOther(cfg, s, id, room, now, k);
    }
  }

  /** Run to its end, an operation is its plan cut nowhere. */
  lemma DoneIsCut(cfg: Config, s: State, op: Op, now: int, k: nat)
    requires ValidConfig(cfg) && Safe(cfg, s) && Admissible(cfg, s, op)
    requires k >= |Plan(cfg, s, op, now)|
    ensures Cut(cfg, s, op, now, k) == OpState(cfg, s, op, now)
  {
    hide *;
    PlanRuns(cfg, s, op, now);
    PrefixShort(Plan(cfg, s, op, now), k);
    CutIs(cfg, s, op, now, k);
  }

  /** Main result: of all the ways an operation can end, exactly these leave a
      session in COMMITTING that was not there before: it was open and not yet due,
      and the allocation for its manifest was refused or an exception fell on the
      statement after the change. */
  lemma StrandedIff(cfg: Config, s: State, st: Step, id: SessionId)
    requires ValidConfig(cfg) && Safe(cfg, s) && StepOk(cfg, s, st)
    ensures NewlyCommitting(s, StepState(cfg, s, st), id) <==> Strands(s, st, id)
  {
    hide Safe, ValidConfig, Cut, Admissible, Attempted, Plan, OpState, RunMaintenance;
    match st {
      case Crash(op, now, k, attempts, reopened) =>
        MaintenanceSettles(Attempted(cfg, Cut(cfg, s, op, now, k), attempts), reopened);
      case Abandoned(op, now, k) =>
        if op.CommitOp? {
          CutStrands(cfg, s, op.id, op.room, now, k, id);
        } else {
          CutBegun(cfg, s, op, now, k);
        }
      case Done(op, now) =>
        var n := |Plan(cfg, s, op, now)| + 2;
        DoneIsCut(cfg, s, op, now, n);
        if op.CommitOp? {
          CutStrands(cfg, s, op.id, op.room, now, n, id);
        } else {
          CutBegun(cfg, s, op, now, n);
        }
    }
  }

  // ---- The limit on sessions per owner -------------------------------------------------------

  ghost predicate Bounded(s: State, o: string, bound: int) {
    LiveOf(s, o) != {} ==> |LiveOf(s, o)| <= bound
  }

  /** What holds between the steps of any run: the store is safe, and an owner has at
      most `excess` sessions stranded and at most that many above the limit. */
  ghost predicate Between(cfg: Config, s: State, o: string, excess: nat) {
    Safe(cfg, s) && |CommittingOf(s, o)| <= excess && Bounded(s, o, cfg.maxSessions + excess)
  }

  lemma BetweenInitially(cfg: Config, o: string)
    ensures Between(cfg, EMPTY, o, 0)
  {
    SafeInitially(cfg);
  }

  /** 1 when the step strands a session of this owner. */
  function Strandings(s: State, st: Step, o: string): nat {
    if st.op.CommitOp? && Strands(s, st, st.op.id) && s.sessions[st.op.id].owner == o then 1 else 0
  }

  lemma CreatedLive(s: State, id: SessionId, x: Session, o: string)
    requires id !in s.sessions && x.state == OPEN
    ensures var t := s.(sessions := s.sessions[id := x]);
            LiveOf(t, o) == (if o == x.owner then LiveOf(s, o) + {id} else LiveOf(s, o))
            && CommittingOf(t, o) == CommittingOf(s, o)
    ensures id !in LiveOf(s, o)
  {
  }

  lemma LiveSplits(s: State, o: string)
    ensures LiveOf(s, o) == OpenOf(s, o) + CommittingOf(s, o)
    ensures |LiveOf(s, o)| == |OpenOf(s, o)| + |CommittingOf(s, o)|
  {
    assert LiveOf(s, o) == OpenOf(s, o) + CommittingOf(s, o);
    assert OpenOf(s, o) !! CommittingOf(s, o);
  }

  /** The check counts OPEN sessions only, so a creation goes over the limit by what
      is stranded; and it keeps the limit exactly when the live sessions were below. */
  lemma CreateLimit(cfg: Config, s: State, id: SessionId, x: Session, now: int)
    requires Enabled(cfg, s, Create(id, x), now)
    ensures var t := Apply(cfg, s, Create(id, x), now);
            && |LiveOf(t, x.owner)| == |LiveOf(s, x.owner)| + 1
            && |LiveOf(t, x.owner)| <= cfg.maxSessions + |CommittingOf(s, x.owner)|
            && (|LiveOf(t, x.owner)| <= cfg.maxSessions <==> |LiveOf(s, x.owner)| < cfg.maxSessions)
  {
    CreatedLive(s, id, x, x.owner);
    LiveSplits(s, x.owner);
    hide LiveOf, OpenOf, CommittingOf, UsedBytes, Watermark;
  }

  /** After a creation, complete or not: a new session at most, within the limit plus
      what is stranded. */
  lemma CutCreate(cfg: Config, s: State, op: Op, now: int, k: nat, o: string)
    requires op.CreateOp? && ValidConfig(cfg) && Safe(cfg, s) && Admissible(cfg, s, op)
    ensures var t := Cut(cfg, s, op, now, k);
            && CommittingOf(t, o) == CommittingOf(s, o)
            && (t == s || LiveOf(t, o) == LiveOf(s, o) || |LiveOf(t, o)| <= cfg.maxSessions + |CommittingOf(s, o)|)
  {
    hide Safe, ValidConfig, Cut;
    var p := Plan(cfg, s, op, now);
    PrefixRuns(cfg, s, op, now, k);
    CutIs(cfg, s, op, now, k);
    CreatePlanIs(cfg, s, op, now);
    PrefixShort(p, k);
    hide Plan, Admissible;
    if p == [] || k == 0 {
      CutNothing(cfg, s, now);
    } else {
      var a := p[0];
      RunOne(cfg, s, a, now);
      assert Prefix(p, k) == [a];
      CreatedLive(s, a.id, a.session, o);
      CreateLimit(cfg, s, a.id, a.session, now);
      hide Runs, After, LiveOf, CommittingOf;
    }
  }

  lemma CreatePlanIs(cfg: Config, s: State, op: Op, now: int)
    requires op.CreateOp? && Admissible(cfg, s, op)
    ensures var p := Plan(cfg, s, op, now);
            |p| <= 1 && (|p| == 1 ==> p[0].Create? && p[0].id !in s.sessions && p[0].session.state == OPEN)
  {
    hide UsedBytes, OpenOf, Watermark;
  }

  lemma BoundedFewer(s: State, t: State, o: string, bound: int)
    requires Bounded(s, o, bound) && NoNewLive(s, t)
    ensures Bounded(t, o, bound)
  {
    FewerLive(s, t, o);
  }

  lemma CutBounded(cfg: Config, s: State, op: Op, now: int, k: nat, o: string, excess: nat)
    requires ValidConfig(cfg) && Between(cfg, s, o, excess) && Admissible(cfg, s, op)
    ensures Bounded(Cut(cfg, s, op, now, k), o, cfg.maxSessions + excess)
  {
    hide Safe, ValidConfig, Cut, Admissible, NoNewLive, LiveOf, CommittingOf;
    if op.CreateOp? {
      CutCreate(cfg, s, op, now, k, o);
    } else {
      CutLive(cfg, s, op, now, k);
      BoundedFewer(s, Cut(cfg, s, op, now, k), o, cfg.maxSessions + excess);
    }
  }

  lemma StepSafe(cfg: Config, s: State, st: Step)
    requires ValidConfig(cfg) && Safe(cfg, s) && StepOk(cfg, s, st)
    ensures Safe(cfg, StepState(cfg, s, st))
    ensures st.Crash? ==> NoCommitting(StepState(cfg, s, st))
  {
    hide Safe, ValidConfig, Cut, Admissible, Attempted, Plan, OpState, RunMaintenance, NoCommitting;
    match st {
      case Done(op, now) =>
        var n := |Plan(cfg, s, op, now)|;
        DoneIsCut(cfg, s, op, now, n);
        CutSafe(cfg, s, op, now, n);
      case Abandoned(op, now, k) => CutSafe(cfg, s, op, now, k);
      case Crash(op, now, k, attempts, reopened) =>
        var u := Cut(cfg, s, op, now, k);
        CutSafe(cfg, s, op, now, k);
        AttemptedSafe(cfg, u, attempts);
        SafeMaintenance(cfg, Attempted(cfg, u, attempts), reopened);
        MaintenanceSettles(Attempted(cfg, u, attempts), reopened);
    }
  }

  lemma StepBounded(cfg: Config, s: State, st: Step, o: string, excess: nat)
    requires ValidConfig(cfg) && Between(cfg, s, o, excess) && StepOk(cfg, s, st)
    ensures Bounded(StepState(cfg, s, st), o, cfg.maxSessions + excess)
  {
    assert Safe(cfg, s);
    hide Safe, ValidConfig, Cut, Admissible, Attempted, Plan, OpState, RunMaintenance, Bounded, Between, NoNewLive;
    match st {
      case Done(op, now) =>
        var n := |Plan(cfg, s, op, now)|;
        DoneIsCut(cfg, s, op, now, n);
        CutBounded(cfg, s, op, now, n, o, excess);
      case Abandoned(op, now, k) => CutBounded(cfg, s, op, now, k, o, excess);
      case Crash(op, now, k, attempts, reopened) =>
        var u := Cut(cfg, s, op, now, k);
        var v := Attempted(cfg, u, attempts);
        CutSafe(cfg, s, op, now, k);
        CutBounded(cfg, s, op, now, k, o, excess);
        AttemptedLive(cfg, u, attempts);
        BoundedFewer(u, v, o, cfg.maxSessions + excess);
        MaintainLive(v, reopened);
        BoundedFewer(v, RunMaintenance(v, reopened).0, o, cfg.maxSessions + excess);
    }
  }

  /** Session rows keep their owner. */
  lemma StepOwner(cfg: Config, s: State, st: Step, id: SessionId)
    requires ValidConfig(cfg) && Safe(cfg, s) && StepOk(cfg, s, st)
    requires HasState(StepState(cfg, s, st), id, COMMITTING)
    ensures id in s.sessions && StepState(cfg, s, st).sessions[id].owner == s.sessions[id].owner
  {
    hide Safe, ValidConfig, Cut, Admissible, Plan, OpState, Attempted, RunMaintenance, Strands;
    StrandedIff(cfg, s, st, id);
    if st.op.CreateOp? {
      if st.Crash? {
        StepSafe(cfg, s, st);
      } else {
        var n := |Plan(cfg, s, st.op, st.now)|;
        DoneIsCut(cfg, s, st.op, st.now, n);
        CutCreate(cfg, s, st.op, st.now, if st.Done? then n else st.k, StepState(cfg, s, st).sessions[id].owner);
        assert id in CommittingOf(StepState(cfg, s, st), StepState(cfg, s, st).sessions[id].owner);
      }
    } else if st.Crash? {
      StepSafe(cfg, s, st);
    } else {
      var n := |Plan(cfg, s, st.op, st.now)|;
      DoneIsCut(cfg, s, st.op, st.now, n);
      CutLive(cfg, s, st.op, st.now, if st.Done? then n else st.k);
    }
  }

  lemma StepCommitting(cfg: Config, s: State, st: Step, o: string)
    requires ValidConfig(cfg) && Safe(cfg, s) && StepOk(cfg, s, st)
    ensures |CommittingOf(StepState(cfg, s, st), o)| <= |CommittingOf(s, o)| + Strandings(s, st, o)
  {
    hide Safe, ValidConfig, StepOk, StepState, Strands;
    var t := StepState(cfg, s, st);
    var more := if Strandings(s, st, o) == 1 then {st.op.id} else {};
    forall id | id in CommittingOf(t, o) ensures id in CommittingOf(s, o) + more {
      StepOwner(cfg, s, st, id);
      StrandedIff(cfg, s, st, id);
      StrandsOwn(s, st, id);
    }
    SubsetSize(CommittingOf(t, o), CommittingOf(s, o) + more);
  }

  lemma StrandsOwn(s: State, st: Step, id: SessionId)
    ensures Strands(s, st, id) ==> st.op.CommitOp? && st.op.id == id && id in s.sessions
  {
  }

  /** Main result: each step, however it ends, leaves the store safe and the owner's
      excess grown by the sessions it stranded; after a crash and its recovery no
      session is COMMITTING. */
  lemma StepBetween(cfg: Config, s: State, st: Step, o: string, excess: nat)
    requires ValidConfig(cfg) && Between(cfg, s, o, excess) && StepOk(cfg, s, st)
    ensures Between(cfg, StepState(cfg, s, st), o, excess + Strandings(s, st, o))
    ensures st.Crash? ==> NoCommitting(StepState(cfg, s, st))
  {
    hide Safe, ValidConfig, StepOk, StepState, Strandings, NoCommitting;
    StepSafe(cfg, s, st);
    StepBounded(cfg, s, st, o, excess);
    StepCommitting(cfg, s, st, o);
  }

  ghost predicate StepsOk(cfg: Config, s: State, steps: seq<Step>)
    decreases |steps|
  {
    steps == [] || (StepOk(cfg, s, steps[0]) && StepsOk(cfg, StepState(cfg, s, steps[0]), steps[1..]))
  }

  ghost function AfterSteps(cfg: Config, s: State, steps: seq<Step>): State
    decreases |steps|
  {
    if steps == [] then s else AfterSteps(cfg, StepState(cfg, s, steps[0]), steps[1..])
  }

  /** How often a run strands a session of this owner. */
  ghost function TimesStranded(cfg: Config, s: State, steps: seq<Step>, o: string): nat
    decreases |steps|
  {
    if steps == [] then 0
    else Strandings(s, steps[0], o) + TimesStranded(cfg, StepState(cfg, s, steps[0]), steps[1..], o)
  }

  /** Over every run, with any exceptions and crashes, the owner's live sessions stay
      within the limit plus the number of times one was stranded. */
  lemma {:induction false} RunBetween(cfg: Config, s: State, steps: seq<Step>, o: string, excess: nat)
    requires ValidConfig(cfg) && Between(cfg, s, o, excess) && StepsOk(cfg, s, steps)
    ensures Between(cfg, AfterSteps(cfg, s, steps), o, excess + TimesStranded(cfg, s, steps, o))
    decreases |steps|
  {
    hide Between, StepOk, StepState, ValidConfig, Strandings;
    if steps != [] {
      StepBetween(cfg, s, steps[0], o, excess);
      RunBetween(cfg, StepState(cfg, s, steps[0]), steps[1..], o, excess + Strandings(s, steps[0], o));
    }
  }

  lemma BetweenBounded(cfg: Config, s: State, o: string)
    requires Between(cfg, s, o, 0)
    ensures Bounded(s, o, cfg.maxSessions)
  {
    hide Safe, LiveOf;
  }

  /** So a run from the empty store that strands none keeps the limit. */
  lemma LimitKept(cfg: Config, steps: seq<Step>, o: string)
    requires ValidConfig(cfg) && StepsOk(cfg, EMPTY, steps) && TimesStranded(cfg, EMPTY, steps, o) == 0
    ensures Bounded(AfterSteps(cfg, EMPTY, steps), o, cfg.maxSessions)
    ensures |OpenOf(AfterSteps(cfg, EMPTY, steps), o)| <= |LiveOf(AfterSteps(cfg, EMPTY, steps), o)|
  {
    hide *;
    BetweenInitially(cfg, o);
    RunBetween(cfg, EMPTY, steps, o, 0);
    BetweenBounded(cfg, AfterSteps(cfg, EMPTY, steps), o);
    LiveSplits(AfterSteps(cfg, EMPTY, steps), o);
  }

  lemma EventCreates(cfg: Config, es: seq<Event>, i: nat, o: string)
    requires IsTrace(cfg, es) && i < |es|
    ensures if es[i].act.Create? && es[i].act.session.owner == o
            then |LiveOf(StateAt(es, i + 1), o)| == |LiveOf(StateAt(es, i), o)| + 1
            else |LiveOf(StateAt(es, i + 1), o)| <= |LiveOf(StateAt(es, i), o)|
  {
    assert EventOk(cfg, es, i);
    var s, a, now := StateAt(es, i), es[i].act, es[i].now;
    hide OpenOf, UsedBytes, Watermark, LiveOf;
    if a.Create? {
      CreatedLive(s, a.id, a.session, o);
      CreateLimit(cfg, s, a.id, a.session, now);
    } else {
      ActionLive(cfg, s, a, now);
      FewerLive(s, StateAt(es, i + 1), o);
    }
  }

  /** Exactly when the limit holds of the live sessions at every point of a history:
      each creation found fewer than the limit live, stranded ones included. */
  lemma HistoryLimitIff(cfg: Config, es: seq<Event>, o: string)
    requires IsTrace(cfg, es) && cfg.maxSessions >= 0
    ensures (forall i: nat :: i <= |es| ==> |LiveOf(StateAt(es, i), o)| <= cfg.maxSessions) <==>
            (forall i: nat :: i < |es| && es[i].act.Create? && es[i].act.session.owner == o ==>
               |LiveOf(StateAt(es, i), o)| < cfg.maxSessions)
  {
    hide IsTrace, LiveOf;
    if forall i: nat :: i <= |es| ==> |LiveOf(StateAt(es, i), o)| <= cfg.maxSessions {
      forall i: nat | i < |es| && es[i].act.Create? && es[i].act.session.owner == o
        ensures |LiveOf(StateAt(es, i), o)| < cfg.maxSessions
      {
        EventCreates(cfg, es, i, o);
      }
    }
    if forall i: nat :: i < |es| && es[i].act.Create? && es[i].act.session.owner == o ==>
         |LiveOf(StateAt(es, i), o)| < cfg.maxSessions {
      forall i: nat | i <= |es| ensures |LiveOf(StateAt(es, i), o)| <= cfg.maxSessions {
        GuardedLive(cfg, es, o, i);
      }
    }
  }

  lemma {:induction false} GuardedLive(cfg: Config, es: seq<Event>, o: string, i: nat)
    requires IsTrace(cfg, es) && cfg.maxSessions >= 0 && i <= |es|
    requires forall j: nat :: j < |es| && es[j].act.Create? && es[j].act.session.owner == o ==>
               |LiveOf(StateAt(es, j), o)| < cfg.maxSessions
    ensures |LiveOf(StateAt(es, i), o)| <= cfg.maxSessions
  {
    if i == 0 {
      assert LiveOf(EMPTY, o) == {};
    } else {
      hide IsTrace, LiveOf;
      GuardedLive(cfg, es, o, i - 1);
      EventCreates(cfg, es, i - 1, o);
    }
  }

  /** What recovery makes of stranded sessions: they are open again, due or not. */
  lemma OpenAfterMaintenance(s: State, now: int, o: string)
    ensures OpenOf(RunMaintenance(s, now).0, o) == (set id | id in LiveOf(s, o) && !Due(s.sessions[id], now))
  {
    hide Referenced, Markable;
  }

  // ---- The limit broken -------------------------------------------------------------------------

  function Claim(name: string, size: U64, digest: Digest): Op {
    CreateOp(name, Ident("n", name, "1"), size, digest, "o", true)
  }

  /** Create, commit with the allocation refused, create again, and the periodic
      maintenance. */
  function Breaking(size: U64, digest: Digest, room: nat): seq<Step> {
    [Done(Claim("a", size, digest), 0), Done(CommitOp("a", room), 0),
     Done(Claim("b", size, digest), 0), Done(MaintainOp, 0)]
  }

  function Claimed(cfg: Config, name: string, size: U64, digest: Digest): Session {
    NewSession(cfg, 0, Ident("n", name, "1"), size, digest, "o")
  }

  lemma CreateOne(cfg: Config, s: State, name: string, size: U64, digest: Digest)
    requires |OpenOf(s, "o")| < cfg.maxSessions && UsedBytes(s) < Watermark(cfg)
    ensures OpState(cfg, s, Claim(name, size, digest), 0) ==
            s.(sessions := s.sessions[name := Claimed(cfg, name, size, digest)])
  {
  }

  /** The two sessions after the third step. */
  function Stranded(cfg: Config, size: U64, digest: Digest): State {
    var a := Claimed(cfg, "a", size, digest);
    EMPTY.(sessions := map["a" := a.(state := COMMITTING), "b" := Claimed(cfg, "b", size, digest)])
  }

  lemma ReachStranded(cfg: Config, size: U64, digest: Digest, room: nat)
    requires ValidConfig(cfg) && cfg.maxSessions == 1 && Watermark(cfg) > 0
    requires ChunkCount(size, cfg.chunkSize) > room
    ensures StepsOk(cfg, EMPTY, Breaking(size, digest, room))
    ensures AfterSteps(cfg, EMPTY, Breaking(size, digest, room)) == RunMaintenance(Stranded(cfg, size, digest), 0).0
  {
    hide UsedBytes, Watermark, ChunkCount, CollisionFree, RunMaintenance, CheckUpload;
    var steps := Breaking(size, digest, room);
    var a := Claimed(cfg, "a", size, digest);
    var s1 := EMPTY.(sessions := map["a" := a]);
    NothingUsed(EMPTY);
    assert OpenOf(EMPTY, "o") == {};
    CreateOne(cfg, EMPTY, "a", size, digest);
    var s2 := WithState(s1, "a", COMMITTING);
    CountDef(a);
    assert OpState(cfg, s1, CommitOp("a", room), 0) == s2;
    NothingUsed(s2);
    assert OpenOf(s2, "o") == {};
    CreateOne(cfg, s2, "b", size, digest);
    var s3 := Stranded(cfg, size, digest);
    assert OpState(cfg, s2, Claim("b", size, digest), 0) == s3;
    hide OpState, Stranded, Claim, Claimed, WithState, OpenOf;
    assert StepState(cfg, EMPTY, steps[0]) == s1;
    assert StepState(cfg, s1, steps[1]) == s2;
    assert StepState(cfg, s2, steps[2]) == s3;
    FourSteps(cfg, EMPTY, steps, s1, s2, s3);
  }

  lemma FourSteps(cfg: Config, s0: State, steps: seq<Step>, s1: State, s2: State, s3: State)
    requires |steps| == 4
    requires StepOk(cfg, s0, steps[0]) && StepState(cfg, s0, steps[0]) == s1
    requires StepOk(cfg, s1, steps[1]) && StepState(cfg, s1, steps[1]) == s2
    requires StepOk(cfg, s2, steps[2]) && StepState(cfg, s2, steps[2]) == s3
    requires StepOk(cfg, s3, steps[3])
    ensures StepsOk(cfg, s0, steps) && AfterSteps(cfg, s0, steps) == StepState(cfg, s3, steps[3])
  {
    hide StepOk, StepState;
    var r1, r2, r3 := steps[1..], steps[2..], steps[3..];
    assert r1[1..] == r2 && r2[1..] == r3 && r3[1..] == [];
    assert r1[0] == steps[1] && r2[0] == steps[2] && r3[0] == steps[3];
    assert StepsOk(cfg, StepState(cfg, s3, steps[3]), []);
    assert StepsOk(cfg, s3, r3) && AfterSteps(cfg, s3, r3) == StepState(cfg, s3, steps[3]);
    assert StepsOk(cfg, s2, r2) && AfterSteps(cfg, s2, r2) == AfterSteps(cfg, s3, r3);
    assert StepsOk(cfg, s1, r1) && AfterSteps(cfg, s1, r1) == AfterSteps(cfg, s2, r2);
  }

  /** With a limit of one, an owner ends with two OPEN sessions: no crash, no
      reopening, only a declared size whose manifest cannot be allocated. */
  lemma LimitBroken(cfg: Config, size: U64, digest: Digest, room: nat)
    requires ValidConfig(cfg) && cfg.maxSessions == 1 && Watermark(cfg) > 0
    requires ChunkCount(size, cfg.chunkSize) > room
    ensures StepsOk(cfg, EMPTY, Breaking(size, digest, room))
    ensures |OpenOf(AfterSteps(cfg, EMPTY, Breaking(size, digest, room)), "o")| == 2 > cfg.maxSessions
  {
    HoursPositive(cfg);
    hide *;
    ReachStranded(cfg, size, digest, room);
    OpenAfterMaintenance(Stranded(cfg, size, digest), 0, "o");
    BothOpen(cfg, size, digest);
  }

  lemma HoursPositive(cfg: Config)
    requires ValidConfig(cfg)
    ensures cfg.sessionHours >= 1
  {
  }

  lemma BothOpen(cfg: Config, size: U64, digest: Digest)
    requires cfg.sessionHours >= 1
    ensures var s := Stranded(cfg, size, digest);
            |set id | id in LiveOf(s, "o") && !Due(s.sessions[id], 0)| == 2
  {
    var s := Stranded(cfg, size, digest);
    assert LiveOf(s, "o") == {"a", "b"};
    assert (set id | id in LiveOf(s, "o") && !Due(s.sessions[id], 0)) == {"a", "b"};
  }

  /** Such a size: with 4 MiB chunks it asks for some 2^42 manifest entries. */
  lemma HugeManifest()
    ensures ChunkCount(0xFFFF_FFFF_FF80_0000, 4 * MIB) == 0x3FF_FFFF_FFFE
  {
  }
}
