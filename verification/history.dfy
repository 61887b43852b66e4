/** Statements about whole runs: safety at every step, the session machine, the
    protection period of garbage collection, and the quota. */
module History {
  import opened Bytes
  import opened Store
  import opened Safety
  import opened Operations
  import opened Exactness

  // ---- Traces of actions ----------------------------------------------------------

  /** One action, the clock it was issued at, and the state it led to. */
  datatype Event = Event(act: Action, now: int, state: State)

  /** The state before event i. */
  function StateAt(es: seq<Event>, i: nat): State
    requires i <= |es|
  {
    if i == 0 then EMPTY else es[i - 1].state
  }

  ghost predicate EventOk(cfg: Config, es: seq<Event>, i: nat)
    requires i < |es|
  {
    && (i > 0 ==> es[i - 1].now <= es[i].now)
    && Enabled(cfg, StateAt(es, i), es[i].act, es[i].now)
    && es[i].state == Apply(cfg, StateAt(es, i), es[i].act, es[i].now)
  }

  /** A history from the empty store under a clock that never goes back. */
  ghost predicate IsTrace(cfg: Config, es: seq<Event>) {
    forall i :: 0 <= i < |es| ==> EventOk(cfg, es, i)
  }

  lemma {:induction false} TraceSafe(cfg: Config, es: seq<Event>, i: nat)
    requires ValidConfig(cfg) && IsTrace(cfg, es) && i <= |es|
    ensures Safe(cfg, StateAt(es, i))
  {
    if i == 0 {
      SafeInitially(cfg);
    } else {
      TraceSafe(cfg, es, i - 1);
      hide Safe, Enabled, Apply, ValidConfig;
      assert EventOk(cfg, es, i - 1);
      ActionSafe(cfg, StateAt(es, i - 1), es[i - 1].act, es[i - 1].now);
    }
  }

  function Clock(es: seq<Event>): int {
    if es == [] then 0 else es[|es| - 1].now
  }

  /** A plan, or the part of it before a crash, extends any trace: traces cover
      every run of operations. */
  lemma {:induction false} TraceExtends(cfg: Config, es: seq<Event>, p: seq<Action>, now: int)
    returns (longer: seq<Event>)
    requires IsTrace(cfg, es) && (es != [] ==> Clock(es) <= now)
    requires Runs(cfg, StateAt(es, |es|), p, now)
    ensures IsTrace(cfg, longer) && es <= longer && (longer != [] ==> longer == es || Clock(longer) == now)
    ensures StateAt(longer, |longer|) == After(cfg, StateAt(es, |es|), p, now)
    decreases |p|
  {
    if p == [] {
      longer := es;
    } else {
      var s := StateAt(es, |es|);
      hide Enabled, Apply;
      var e := Event(p[0], now, Apply(cfg, s, p[0], now));
      var more := es + [e];
      forall i | 0 <= i < |more| ensures EventOk(cfg, more, i) {
        assert i < |es| ==> EventOk(cfg, es, i);
        assert StateAt(more, i) == StateAt(es, i);
      }
      assert StateAt(more, |more|) == e.state;
      longer := TraceExtends(cfg, more, p[1..], now);
    }
  }

  // ---- The protection period --------------------------------------------------------

  /** A pending stamp is either the previous one or the current clock. */
  lemma StampOrigin(cfg: Config, s: State, a: Action, now: int, d: Digest)
    requires Enabled(cfg, s, a, now) && RowsOk(cfg, s)
    requires Pending(Apply(cfg, s, a, now), d)
    ensures var t := Apply(cfg, s, a, now);
            t.chunks[d].pendingAt.value == now || (Pending(s, d) && s.chunks[d] == t.chunks[d])
  {
    hide Referenced, CheckUpload, Sized, Manifest, UsedBytes, OpenOf, Count, Ripe;
  }

  /** A pending chunk has been unreferenced ever since the event that stamped it. */
  lemma {:induction false} PendingSince(cfg: Config, es: seq<Event>, n: nat, d: Digest) returns (j: nat)
    requires ValidConfig(cfg) && IsTrace(cfg, es) && n <= |es| && Pending(StateAt(es, n), d)
    ensures j < n && es[j].now == StateAt(es, n).chunks[d].pendingAt.value
    ensures forall k :: j < k <= n ==> !Referenced(StateAt(es, k), d)
  {
    assert n > 0;
    assert EventOk(cfg, es, n - 1);
    var s, e := StateAt(es, n - 1), es[n - 1];
    TraceSafe(cfg, es, n - 1);
    TraceSafe(cfg, es, n);
    PendingUnreferenced(StateAt(es, n), d);
    StampOrigin(cfg, s, e.act, e.now, d);
    hide Enabled, Apply, Safe, Referenced, EventOk;
    if StateAt(es, n).chunks[d].pendingAt.value == e.now {
      j := n - 1;
    } else {
      j := PendingSince(cfg, es, n - 1, d);
    }
  }

  lemma PendingUnreferenced(s: State, d: Digest)
    requires LiveOk(s) && Pending(s, d)
    ensures !Referenced(s, d)
  {
    hide Referenced;
    assert Referenced(s, d) ==> Alive(s, d);
  }

  /** Main result: whenever a collection removes a chunk's file or row, the chunk
      has been unreferenced in every state for at least the grace period. */
  lemma GraceRespected(cfg: Config, es: seq<Event>, n: nat, d: Digest) returns (j: nat)
    requires ValidConfig(cfg) && IsTrace(cfg, es) && n < |es|
    requires es[n].act == Unlink(d) || es[n].act == DropRow(d)
    ensures j < n && es[j].now <= es[n].now - cfg.graceSeconds
    ensures forall k :: j < k <= n ==> !Referenced(StateAt(es, k), d)
  {
    assert EventOk(cfg, es, n);
    assert Ripe(cfg, StateAt(es, n), d, es[n].now);
    j := PendingSince(cfg, es, n, d);
  }

  // ---- The session machine -------------------------------------------------------------

  /** The documented edges. */
  predicate Edge(a: SessionState, b: SessionState) {
    a == b
    || (a == OPEN && b in {COMMITTING, ABORTED, EXPIRED})
    || (a == COMMITTING && b in {OPEN, COMPLETED, ABORTED})
  }

  /** Sessions are never deleted, their identity, size and digest never change,
      and their state moves along the edges; new ones start OPEN. */
  ghost predicate SessionsStep(s: State, t: State) {
    && (forall id :: id in s.sessions ==>
          id in t.sessions && t.sessions[id] == s.sessions[id].(state := t.sessions[id].state)
          && Edge(s.sessions[id].state, t.sessions[id].state))
    && (forall id :: id in t.sessions && id !in s.sessions ==> t.sessions[id].state == OPEN)
  }

  lemma OneSession(s: State, t: State, id: SessionId, st: SessionState)
    requires id in s.sessions && Edge(s.sessions[id].state, st)
    requires t.sessions == WithState(s, id, st).sessions
    ensures SessionsStep(s, t)
  {
  }

  lemma SameSessions(s: State, t: State)
    requires t.sessions == s.sessions
    ensures SessionsStep(s, t)
  {
  }

  lemma BulkSessions(s: State, now: int)
    ensures SessionsStep(s, ExpireAllDue(s, now)) && SessionsStep(s, ReopenAll(s))
  {
  }

  lemma CreateSessions(s: State, id: SessionId, x: Session)
    requires id !in s.sessions && x.state == OPEN
    ensures SessionsStep(s, s.(sessions := s.sessions[id := x]))
  {
  }

  lemma ActionSessions(cfg: Config, s: State, a: Action, now: int)
    requires Enabled(cfg, s, a, now)
    ensures SessionsStep(s, Apply(cfg, s, a, now))
  {
    hide SessionsStep, Referenced, CheckUpload, Manifest, UsedBytes, OpenOf, Count, Ripe, MarkAll;
    var t := Apply(cfg, s, a, now);
    match a {
      case Create(id, x) => CreateSessions(s, id, x);
      case ExpireOne(id) => OneSession(s, t, id, EXPIRED);
      case Begin(id) => OneSession(s, t, id, COMMITTING);
      case Rollback(id) => OneSession(s, t, id, OPEN);
      case PublishTx(id) => OneSession(s, t, id, COMPLETED);
      case Abort(id) =>
        AbortSessions(s, id, now);
        OneSession(s, t, id, ABORTED);
      case Delete(ident) =>
        MarkKeepsSessions(Unpublish(s, ident), ManifestDigests(s.artifacts[ident]), now);
        SameSessions(s, t);
      case Mark(d) =>
        MarkKeepsSessions(s, {d}, now);
        SameSessions(s, t);
      case ExpireDue => BulkSessions(s, now);
      case Reopen => BulkSessions(s, now);
      case _ => SameSessions(s, t);
    }
  }

  lemma MarkKeepsSessions(s: State, ds: set<Digest>, now: int)
    ensures MarkAll(s, ds, now).sessions == s.sessions
    ensures MarkAll(s, ds, now).parts == s.parts && MarkAll(s, ds, now).artifacts == s.artifacts
  {
  }

  lemma AbortSessions(s: State, id: SessionId, now: int)
    requires id in s.sessions
    ensures AbortTx(s, id, now).sessions == WithState(s, id, ABORTED).sessions
  {
  }

  /** Over a whole trace: fields are fixed, terminal states are absorbing. */
  lemma {:induction false} TerminalAbsorbing(cfg: Config, es: seq<Event>, i: nat, j: nat, id: SessionId)
    requires IsTrace(cfg, es) && i <= j <= |es| && id in StateAt(es, i).sessions
    ensures id in StateAt(es, j).sessions
    ensures var x, y := StateAt(es, i).sessions[id], StateAt(es, j).sessions[id];
            y == x.(state := y.state) && (Terminal(x.state) ==> y == x)
  {
    if i < j {
      TerminalAbsorbing(cfg, es, i, j - 1, id);
      assert EventOk(cfg, es, j - 1);
      ActionSessions(cfg, StateAt(es, j - 1), es[j - 1].act, es[j - 1].now);
      hide Enabled, Apply, EventOk;
    }
  }

  // ---- Published content -------------------------------------------------------------------

  /** Two safe states that hold the same artifact hold the same bytes for it. */
  lemma SameContent(cfg: Config, s: State, t: State, ident: Ident)
    requires ValidConfig(cfg) && Safe(cfg, s) && Safe(cfg, t)
    requires ident in s.artifacts && ident in t.artifacts && s.artifacts[ident] == t.artifacts[ident]
    ensures Content(s.files, s.artifacts[ident].manifest) == Content(t.files, s.artifacts[ident].manifest)
  {
    var a := s.artifacts[ident];
    forall i | 0 <= i < |a.manifest|
      ensures FileOf(s.files, a.manifest[i].digest) == FileOf(t.files, a.manifest[i].digest)
    {
      var d := a.manifest[i].digest;
      assert InManifest(a, d) && ByArtifact(s, d) && ByArtifact(t, d);
      assert Referenced(s, d) && Referenced(t, d);
      assert Alive(s, d) && Alive(t, d);
    }
    ContentFrame(s.files, t.files, a.manifest);
  }

  /** Only its own deletion touches a published artifact. */
  lemma ActionArtifacts(cfg: Config, s: State, a: Action, now: int, ident: Ident)
    requires Enabled(cfg, s, a, now) && ident in s.artifacts && a != Delete(ident)
    ensures var t := Apply(cfg, s, a, now);
            ident in t.artifacts && t.artifacts[ident] == s.artifacts[ident]
  {
    hide Referenced, Manifest, UsedBytes, OpenOf, Count, Ripe, MarkAll, Watermark, TotalLength, Content;
    if a.Delete? { MarkKeepsSessions(Unpublish(s, a.ident), ManifestDigests(s.artifacts[a.ident]), now); }
    if a.Mark? { MarkKeepsSessions(s, {a.digest}, now); }
    if a.Abort? {
      var u := WithState(s, a.id, ABORTED);
      MarkKeepsSessions(DropParts(u, a.id), DigestsOf(u, a.id), now);
    }
  }

  /** Main result: over any history that does not delete it, a published artifact and
      its bytes never change. */
  lemma {:induction false} PublishedStable(cfg: Config, es: seq<Event>, i: nat, j: nat, ident: Ident)
    requires ValidConfig(cfg) && IsTrace(cfg, es) && i <= j <= |es| && ident in StateAt(es, i).artifacts
    requires forall k :: i <= k < j ==> es[k].act != Delete(ident)
    ensures ident in StateAt(es, j).artifacts
    ensures var s, t := StateAt(es, i), StateAt(es, j);
            && t.artifacts[ident] == s.artifacts[ident]
            && Content(t.files, t.artifacts[ident].manifest) == Content(s.files, s.artifacts[ident].manifest)
  {
    if i < j {
      PublishedStable(cfg, es, i, j - 1, ident);
      var s := StateAt(es, j - 1);
      assert EventOk(cfg, es, j - 1);
      TraceSafe(cfg, es, j - 1);
      TraceSafe(cfg, es, j);
      ActionArtifacts(cfg, s, es[j - 1].act, es[j - 1].now, ident);
      hide Enabled, Apply, Safe, ValidConfig, Content;
      SameContent(cfg, s, StateAt(es, j), ident);
    }
  }

  lemma ExpireArtifacts(s: State, id: SessionId, now: int)
    requires id in s.sessions
    ensures ExpireIfDue(s, id, now).artifacts == s.artifacts
  {
    hide MarkAll;
    MarkKeepsSessions(DropParts(WithState(s, id, EXPIRED), id), DigestsOf(WithState(s, id, EXPIRED), id), now);
  }

  /** Nor does any completed operation but its deletion. */
  lemma OpArtifacts(cfg: Config, s: State, op: Op, now: int, ident: Ident)
    requires ident in s.artifacts && op != DeleteOp(ident)
    ensures var t := OpState(cfg, s, op, now);
            ident in t.artifacts && t.artifacts[ident] == s.artifacts[ident]
  {
    hide ExpireIfDue, MarkAll, CheckUpload, ReactivateAll, NewArtifact, Contiguous, Count, ChunkCount, Activate,
         UsedBytes, OpenOf, Watermark, Garbage, Rescued, Sum, DropDeadParts, DeadDigests, NewlyMarked;
    match op {
      case PutOp(id, _, _) => if id in s.sessions { ExpireArtifacts(s, id, now); }
      case FailOp(id, _, _) => if id in s.sessions { ExpireArtifacts(s, id, now); }
      case CommitOp(id, _) =>
        if id in s.sessions {
          ExpireArtifacts(s, id, now);
          var t := ExpireIfDue(s, id, now);
          if CheckUpload(cfg, t, id) == OK { CheckedUpload(cfg, t, id); }
        }
      case AbortOp(id) =>
        if id in s.sessions {
          var t := WithState(s, id, ABORTED);
          MarkKeepsSessions(DropParts(t, id), DigestsOf(t, id), now);
        }
      case DeleteOp(other) =>
        if other in s.artifacts {
          MarkKeepsSessions(Unpublish(s, other), ManifestDigests(s.artifacts[other]), now);
        }
      case MaintainOp => MaintainArtifacts(s, now);
      case _ =>
    }
  }

  lemma MaintainArtifacts(s: State, now: int)
    ensures RunMaintenance(s, now).0.artifacts == s.artifacts
  {
    hide Markable, DeadDigests;
  }

  // ---- The quota --------------------------------------------------------------------------------

  function LiveSessions(s: State): set<SessionId> {
    set id | id in s.sessions && Live(s.sessions[id].state)
  }

  /** Bytes a live session may still bring in: missing ordinals times chunk size. */
  function Missing(s: State, id: SessionId): nat {
    if id in s.sessions && |Ordinals(s.parts, id)| <= Count(s.sessions[id])
    then (Count(s.sessions[id]) - |Ordinals(s.parts, id)|) * s.sessions[id].chunkSize
    else 0
  }

  function MissingOf(s: State): SessionId -> nat { id => Missing(s, id) }

  ghost function Reserved(s: State): nat { Sum(LiveSessions(s), MissingOf(s)) }

  ghost function Potential(s: State): nat { UsedBytes(s) + Reserved(s) }

  lemma {:induction false} SetBelow(xs: set<nat>, n: nat)
    requires forall x :: x in xs ==> x < n
    ensures |xs| <= n
  {
    if n == 0 {
      assert xs == {};
    } else {
      SetBelow(xs - {n - 1}, n - 1);
      if n - 1 in xs {
        assert |xs| == |xs - {n - 1}| + 1;
      } else {
        assert xs - {n - 1} == xs;
      }
    }
  }

  /** A session never has more parts than it expects. */
  lemma OrdinalsFit(cfg: Config, s: State, id: SessionId)
    requires PartsOk(cfg, s) && id in s.sessions
    ensures |Ordinals(s.parts, id)| <= Count(s.sessions[id])
  {
    forall o | o in Ordinals(s.parts, id) ensures o < Count(s.sessions[id]) {
      var k :| k in s.parts && k.session == id && k.ordinal == o;
      assert PartOk(cfg, s.sessions[id], o, s.parts[k]);
    }
    SetBelow(Ordinals(s.parts, id), Count(s.sessions[id]));
  }

  /** Fewer live sessions, each missing no more, reserve no more. */
  lemma ReservedShrinks(s: State, t: State)
    requires LiveSessions(t) <= LiveSessions(s)
    requires forall id :: id in LiveSessions(t) ==> Missing(t, id) <= Missing(s, id)
    ensures Reserved(t) <= Reserved(s)
  {
    hide Missing, LiveSessions;
    SumAtMost(LiveSessions(t), MissingOf(t), MissingOf(s));
    SumSubset(LiveSessions(t), LiveSessions(s), MissingOf(s));
  }

  lemma SameMissing(s: State, t: State, id: SessionId)
    requires id in s.sessions && id in t.sessions
    requires t.sessions[id] == s.sessions[id].(state := t.sessions[id].state)
    requires forall k: PartKey :: k.session == id ==> (k in s.parts <==> k in t.parts)
    ensures Missing(t, id) == Missing(s, id)
  {
    assert Ordinals(t.parts, id) == Ordinals(s.parts, id);
    SameCount(s.sessions[id], t.sessions[id]);
  }

  /** Fewer ACTIVE rows of the same sizes use no more. */
  lemma UsedShrinks(s: State, t: State)
    requires forall d :: d in ActiveSet(t) ==> d in ActiveSet(s) && t.chunks[d].rawSize == s.chunks[d].rawSize
    ensures UsedBytes(t) <= UsedBytes(s)
  {
    SumSame(ActiveSet(t), RawSize(t.chunks), RawSize(s.chunks));
    SumSubset(ActiveSet(t), ActiveSet(s), RawSize(s.chunks));
  }

  /** Every action but Create and the registering transaction. */
  lemma QuietPotential(cfg: Config, s: State, t: State)
    requires forall d :: d in ActiveSet(t) ==> d in ActiveSet(s) && t.chunks[d].rawSize == s.chunks[d].rawSize
    requires forall id :: id in LiveSessions(t) ==>
               id in LiveSessions(s) && t.sessions[id] == s.sessions[id].(state := t.sessions[id].state)
    requires forall k :: k in s.parts && k.session in LiveSessions(t) ==> k in t.parts
    requires forall k :: k in t.parts ==> k in s.parts
    ensures Potential(t) <= Potential(s)
  {
    UsedShrinks(s, t);
    forall id | id in LiveSessions(t) ensures Missing(t, id) <= Missing(s, id) {
      SameMissing(s, t, id);
    }
    ReservedShrinks(s, t);
  }

  lemma CreatePotential(cfg: Config, s: State, id: SessionId, x: Session)
    requires PartsOk(cfg, s) && id !in s.sessions && x.state == OPEN
    ensures var t := s.(sessions := s.sessions[id := x]);
            Potential(t) == Potential(s) + Count(x) * x.chunkSize
            && Reserved(t) == Reserved(s) + Count(x) * x.chunkSize
  {
    var t := s.(sessions := s.sessions[id := x]);
    assert LiveSessions(t) == LiveSessions(s) + {id};
    assert Ordinals(t.parts, id) == {};
    assert Missing(t, id) == Count(x) * x.chunkSize;
    SumPush(LiveSessions(s), id, MissingOf(t));
    forall j | j in LiveSessions(s) ensures MissingOf(t)(j) == MissingOf(s)(j) {
      SameMissing(s, t, j);
    }
    SumSame(LiveSessions(s), MissingOf(t), MissingOf(s));
  }

  /** Registering a part uses up one missing ordinal and adds at most its length. */
  lemma RegisterUsed(cfg: Config, s: State, k: PartKey, d: Digest, size: nat, now: int)
    requires d in s.chunks ==> s.chunks[d].rawSize == size
    ensures UsedBytes(Register(s, k, d, size, now)) <= UsedBytes(s) + size
  {
    var t := Register(s, k, d, size, now);
    if d in ActiveSet(s) {
      assert t.chunks == s.chunks;
      assert ActiveSet(t) == ActiveSet(s);
    } else {
      assert ActiveSet(t) == ActiveSet(s) + {d};
      SumPush(ActiveSet(s), d, RawSize(t.chunks));
      SumSame(ActiveSet(s), RawSize(t.chunks), RawSize(s.chunks));
    }
  }

  lemma RegisterOrdinals(s: State, k: PartKey, d: Digest, size: nat, now: int)
    requires k !in s.parts
    ensures Ordinals(Register(s, k, d, size, now).parts, k.session) == Ordinals(s.parts, k.session) + {k.ordinal}
    ensures k.ordinal !in Ordinals(s.parts, k.session)
    ensures Register(s, k, d, size, now).sessions == s.sessions
  {
    hide Activate;
    assert forall j :: j in s.parts && j.session == k.session ==> j.ordinal != k.ordinal;
  }

  lemma RegisterMissing(cfg: Config, s: State, k: PartKey, d: Digest, size: nat, now: int)
    requires PartsOk(cfg, s) && PartsOk(cfg, Register(s, k, d, size, now))
    requires k.session in s.sessions && k !in s.parts
    ensures var t := Register(s, k, d, size, now);
            Missing(s, k.session) == Missing(t, k.session) + s.sessions[k.session].chunkSize
  {
    hide Count, PartsOk, Ordinals, Register;
    var t := Register(s, k, d, size, now);
    var id := k.session;
    RegisterOrdinals(s, k, d, size, now);
    OrdinalsFit(cfg, s, id);
    OrdinalsFit(cfg, t, id);
    var n, m, c := Count(s.sessions[id]), |Ordinals(s.parts, id)|, s.sessions[id].chunkSize;
    assert (n - m) * c == (n - (m + 1)) * c + c;
  }

  lemma RegisterReserved(cfg: Config, s: State, k: PartKey, d: Digest, size: nat, now: int)
    requires PartsOk(cfg, s) && PartsOk(cfg, Register(s, k, d, size, now))
    requires k.session in LiveSessions(s) && k !in s.parts
    ensures Reserved(s) == Reserved(Register(s, k, d, size, now)) + s.sessions[k.session].chunkSize
  {
    var t := Register(s, k, d, size, now);
    assert LiveSessions(t) == LiveSessions(s);
    RegisterMissing(cfg, s, k, d, size, now);
    forall j | j in LiveSessions(s) && j != k.session ensures MissingOf(s)(j) == MissingOf(t)(j) {
      SameMissing(s, t, j);
    }
    hide Missing, PartsOk, LiveSessions, Register;
    SumOneLess(LiveSessions(s), k.session, MissingOf(s), MissingOf(t), s.sessions[k.session].chunkSize);
  }

  lemma RegisterPotential(cfg: Config, s: State, k: PartKey, data: Bytes, now: int)
    requires ValidConfig(cfg) && Safe(cfg, s) && Enabled(cfg, s, RegisterTx(k, data), now)
    ensures Potential(Register(s, k, cfg.sha(data), |data|, now)) <= Potential(s)
  {
    var d := cfg.sha(data);
    SafeRegister(cfg, s, k, data, now);
    if d in s.chunks {
      FileSize(cfg, s, d, s.chunks[d].rawSize);
      assert s.files[d] == data;
    }
    hide RowsOk, LiveOk, ArtifactsOk, Count, Register, UsedBytes, Reserved, CollisionFree;
    RegisterUsed(cfg, s, k, d, |data|, now);
    RegisterReserved(cfg, s, k, d, |data|, now);
  }

  lemma MarkActive(s: State, ds: set<Digest>, now: int)
    ensures forall d :: d in ActiveSet(MarkAll(s, ds, now)) ==>
              d in ActiveSet(s) && MarkAll(s, ds, now).chunks[d].rawSize == s.chunks[d].rawSize
  {
    hide Referenced;
  }

  lemma MarkPotential(cfg: Config, s: State, ds: set<Digest>, now: int)
    ensures Potential(MarkAll(s, ds, now)) <= Potential(s)
  {
    MarkActive(s, ds, now);
    MarkKeepsSessions(s, ds, now);
    hide MarkAll;
    QuietPotential(cfg, s, MarkAll(s, ds, now));
  }

  lemma RetirePotential(cfg: Config, s: State, id: SessionId, st: SessionState)
    requires id in s.sessions && Dead(st)
    ensures Potential(DropParts(WithState(s, id, st), id)) <= Potential(s)
  {
    QuietPotential(cfg, s, DropParts(WithState(s, id, st), id));
  }

  lemma AbortPotential(cfg: Config, s: State, id: SessionId, now: int)
    requires id in s.sessions
    ensures Potential(AbortTx(s, id, now)) <= Potential(s)
  {
    hide Potential, MarkAll;
    var t := WithState(s, id, ABORTED);
    RetirePotential(cfg, s, id, ABORTED);
    MarkPotential(cfg, DropParts(t, id), DigestsOf(t, id), now);
  }

  lemma DeletePotential(cfg: Config, s: State, ident: Ident, now: int)
    requires ident in s.artifacts
    ensures Potential(DeleteTx(s, ident, now)) <= Potential(s)
  {
    hide Potential, MarkAll;
    FilesPotential(cfg, s, Unpublish(s, ident));
    MarkPotential(cfg, Unpublish(s, ident), ManifestDigests(s.artifacts[ident]), now);
  }

  lemma DropPotential(cfg: Config, s: State, id: SessionId)
    requires id in s.sessions && Dead(s.sessions[id].state)
    ensures Potential(DropParts(s, id)) <= Potential(s)
  {
    QuietPotential(cfg, s, DropParts(s, id));
  }

  lemma StatesPotential(cfg: Config, s: State, t: State)
    requires t == s.(sessions := t.sessions) && t.sessions.Keys == s.sessions.Keys
    requires forall id :: id in s.sessions ==>
               t.sessions[id] == s.sessions[id].(state := t.sessions[id].state)
               && (Live(t.sessions[id].state) ==> Live(s.sessions[id].state))
    ensures Potential(t) <= Potential(s)
  {
    assert forall id :: id in t.sessions ==> id in s.sessions;
    QuietPotential(cfg, s, t);
  }

  lemma WithStatePotential(cfg: Config, s: State, id: SessionId, st: SessionState)
    requires id in s.sessions && (Live(st) ==> Live(s.sessions[id].state))
    ensures Potential(WithState(s, id, st)) <= Potential(s)
  {
    hide Potential;
    StatesPotential(cfg, s, WithState(s, id, st));
  }

  lemma BulkPotential(cfg: Config, s: State, now: int)
    ensures Potential(ExpireAllDue(s, now)) <= Potential(s)
    ensures Potential(ReopenAll(s)) <= Potential(s)
  {
    hide Potential;
    StatesPotential(cfg, s, ExpireAllDue(s, now));
    StatesPotential(cfg, s, ReopenAll(s));
  }

  lemma FilesPotential(cfg: Config, s: State, t: State)
    requires t == s.(files := t.files, artifacts := t.artifacts)
    ensures Potential(t) <= Potential(s)
  {
    QuietPotential(cfg, s, t);
  }

  lemma PublishPotential(cfg: Config, s: State, id: SessionId, now: int)
    requires id in s.sessions
    requires Contiguous(s, id, Count(s.sessions[id])) && Publish(s, id, now).chunks == s.chunks
    ensures Potential(Publish(s, id, now)) <= Potential(s)
  {
    hide ReactivateAll, Manifest, Count;
    QuietPotential(cfg, s, Publish(s, id, now));
  }

  lemma DropRowPotential(cfg: Config, s: State, d: Digest)
    requires d in s.chunks && s.chunks[d].state == PENDING_DELETE
    ensures Potential(s.(chunks := s.chunks - {d})) <= Potential(s)
  {
    QuietPotential(cfg, s, s.(chunks := s.chunks - {d}));
  }

  lemma OtherPotential(cfg: Config, s: State, a: Action, now: int)
    requires ValidConfig(cfg) && Safe(cfg, s) && Enabled(cfg, s, a, now) && !a.Create?
    ensures Potential(Apply(cfg, s, a, now)) <= Potential(s)
  {
    hide LiveOk, ArtifactsOk, RowsOk, FilesOk, PartsOk, CollisionFree, Referenced, Ripe, CheckUpload, OpenOf, Count,
         MarkAll, DropParts, AbortTx, DeleteTx, Register, Potential, UsedBytes, Watermark,
         WithState, ExpireAllDue, ReopenAll, Contiguous;
    match a {
      case ExpireOne(id) => WithStatePotential(cfg, s, id, EXPIRED);
      case DropRows(id) => DropPotential(cfg, s, id);
      case Mark(d) => MarkPotential(cfg, s, {d}, now);
      case Put(data) => FilesPotential(cfg, s, StoreFile(s, cfg.sha(data), data));
      case RegisterTx(k, data) => RegisterPotential(cfg, s, k, data, now);
      case Begin(id) => WithStatePotential(cfg, s, id, COMMITTING);
      case Rollback(id) => WithStatePotential(cfg, s, id, OPEN);
      case PublishTx(id) =>
        SafePublish(cfg, s, id, now);
        CheckedUpload(cfg, s, id);
        PublishPotential(cfg, s, id, now);
      case Abort(id) => AbortPotential(cfg, s, id, now);
      case Delete(ident) => DeletePotential(cfg, s, ident, now);
      case Unlink(d) => FilesPotential(cfg, s, s.(files := s.files - {d}));
      case DropRow(d) =>
        RipeRow(cfg, s, d, now);
        DropRowPotential(cfg, s, d);
      case ExpireDue => BulkPotential(cfg, s, now);
      case Reopen => BulkPotential(cfg, s, now);
    }
  }

  /** Main result: the potential never rises, except that creating a session
      raises it by exactly that session's full size, below the watermark only. */
  lemma ActionPotential(cfg: Config, s: State, a: Action, now: int)
    requires ValidConfig(cfg) && Safe(cfg, s) && Enabled(cfg, s, a, now)
    ensures var t := Apply(cfg, s, a, now);
            if a.Create? then
              UsedBytes(s) < Watermark(cfg) && UsedBytes(t) == UsedBytes(s)
              && Potential(t) == Potential(s) + Count(a.session) * a.session.chunkSize
            else Potential(t) <= Potential(s)
  {
    if a.Create? {
      CreatePotential(cfg, s, a.id, a.session);
      CreateUsed(s, a.id, a.session);
    } else {
      OtherPotential(cfg, s, a, now);
    }
    hide Potential, UsedBytes, Watermark, OpenOf, ValidConfig;
  }

  lemma CreateUsed(s: State, id: SessionId, x: Session)
    ensures UsedBytes(s.(sessions := s.sessions[id := x])) == UsedBytes(s)
  {
    assert ActiveSet(s.(sessions := s.sessions[id := x])) == ActiveSet(s);
  }

  lemma RipeRow(cfg: Config, s: State, d: Digest, now: int)
    requires Ripe(cfg, s, d, now)
    ensures d in s.chunks && s.chunks[d].state == PENDING_DELETE
  {
  }

  /** The watermark is the percentage of the capacity, rounded down. */
  lemma Percent(cfg: Config)
    requires cfg.capacity * cfg.highWatermark < TWO_64
    ensures 100 * Watermark(cfg) <= cfg.capacity * cfg.highWatermark < 100 * (Watermark(cfg) + 1)
  {
  }

  lemma {:induction false} PotentialBound(cfg: Config, es: seq<Event>, c: nat, n: nat)
    requires ValidConfig(cfg) && IsTrace(cfg, es) && c < n <= |es| && es[c].act.Create?
    requires forall i :: c < i < n ==> !es[i].act.Create?
    ensures UsedBytes(StateAt(es, n)) <= Potential(StateAt(es, n)) <= Potential(StateAt(es, c + 1))
    ensures Potential(StateAt(es, c + 1)) < Watermark(cfg) + Reserved(StateAt(es, c + 1))
  {
    hide Potential, Reserved, UsedBytes, Watermark;
    assert EventOk(cfg, es, n - 1);
    TraceSafe(cfg, es, n - 1);
    ActionPotential(cfg, StateAt(es, n - 1), es[n - 1].act, es[n - 1].now);
    PotentialParts(StateAt(es, n));
    hide Enabled, Apply, EventOk, Safe, ValidConfig;
    if c + 1 < n {
      PotentialBound(cfg, es, c, n - 1);
    }
  }

  /** The overshoot on any trace: after the last creation at event c, the live
      content stays below the given percentage of the capacity plus what the sessions
      live then had yet to bring in. */
  lemma QuotaBound(cfg: Config, es: seq<Event>, c: nat, n: nat)
    requires ValidConfig(cfg) && IsTrace(cfg, es) && c < n <= |es| && es[c].act.Create?
    requires forall i :: c < i < n ==> !es[i].act.Create?
    requires cfg.capacity * cfg.highWatermark < TWO_64
    ensures 100 * UsedBytes(StateAt(es, n)) <
            cfg.capacity * cfg.highWatermark + 100 * Reserved(StateAt(es, c + 1))
  {
    Percent(cfg);
    hide *;
    PotentialBound(cfg, es, c, n);
  }

  lemma PotentialParts(s: State)
    ensures Potential(s) == UsedBytes(s) + Reserved(s)
  {
  }
}
