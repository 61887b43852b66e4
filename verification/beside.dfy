/** Two threads at the storage layer. Maintenance (`fr_server.cpp`) and SESSION_ABORT
    (`fr_dispatch.cpp`) do not take the dispatcher's lock, so between a call's check and
    the statement it guards, statements of theirs can fall. Here a statement is what it
    does to the rows it finds, and its guard is what its call established at some earlier
    point. What survives: every chunk that something refers to keeps its row and its
    file. What does not: such a row can be left marked for deletion. */
module Beside {
  import opened Bytes
  import opened Store
  import opened Safety
  import opened Exactness
  import History
  import Operations
  import RangeRead

  /** The writing statements, a transaction of reads and writes being one. */
  datatype Stmt =
    | Insert(id: SessionId, session: Session)
    | Move(id: SessionId, src: SessionState, dst: SessionState)
    | Clear(id: SessionId)
    | Pend(digest: Digest, now: int)
    | ExpireSome(now: int)
    | RollBack
    | Keep(data: Bytes)
    | Enter(key: PartKey, data: Bytes, now: int)
    | Issue(id: SessionId, ident: Ident, artifact: Artifact)
    | Withdraw(ident: Ident)
    | RemoveFile(digest: Digest)
    | Forget(digest: Digest)
    | Revive(digest: Digest)

  function Issued(s: State, ident: Ident, a: Artifact): State {
    s.(artifacts := s.artifacts[ident := a], chunks := ReactivateAll(s.chunks, a.manifest))
  }

  function Pended(s: State, d: Digest, now: int): State {
    if d in s.chunks && s.chunks[d].state == ACTIVE
    then s.(chunks := s.chunks[d := s.chunks[d].(state := PENDING_DELETE, pendingAt := Some(now))])
    else s
  }

  /** What a statement does, whatever the tables hold by then. */
  function Exec(cfg: Config, s: State, st: Stmt): State {
    match st
    case Insert(id, x) => s.(sessions := s.sessions[id := x])
    case Move(id, src, dst) =>
      if id in s.sessions && s.sessions[id].state == src then WithState(s, id, dst) else s
    case Clear(id) => DropParts(s, id)
    case Pend(d, now) => Pended(s, d, now)
    case ExpireSome(now) => ExpireAllDue(s, now)
    case RollBack => ReopenAll(s)
    case Keep(data) => StoreFile(s, cfg.sha(data), data)
    case Enter(k, data, now) => Register(s, k, cfg.sha(data), |data|, now)
    case Issue(id, ident, a) =>
      if id in s.sessions then WithState(Issued(s, ident, a), id, COMPLETED) else Issued(s, ident, a)
    case Withdraw(ident) => Unpublish(s, ident)
    case RemoveFile(d) => s.(files := s.files - {d})
    case Forget(d) => s.(chunks := s.chunks - {d})
    case Revive(d) => Rescue(s, {d})
  }

  /** The statements of maintenance and of SESSION_ABORT. Nothing is assumed of when
      they come: what they checked may be stale. */
  predicate Outside(st: Stmt) {
    st.ExpireSome? || st.RollBack? || st.Clear? || st.Pend? || (st.Move? && st.dst == ABORTED)
  }

  ghost predicate Stored(s: State, d: Digest) { d in s.chunks && d in s.files }

  /** What the call issuing a statement has made sure of. */
  ghost predicate Ready(cfg: Config, s: State, st: Stmt) {
    match st
    case Insert(id, x) => id !in s.sessions && SizeOk(x.chunkSize)
    case Move(_, src, dst) => Live(dst) ==> Live(src)
    case Keep(data) => cfg.corpus(data)
    case Enter(k, data, _) =>
      && k.session in s.sessions && k !in s.parts
      && k.ordinal < Count(s.sessions[k.session]) && 0 < |data| <= s.sessions[k.session].chunkSize
      && cfg.corpus(data) && cfg.sha(data) in s.files
    case Issue(_, ident, a) =>
      && ident !in s.artifacts && ArtifactOk(cfg, s.files, a)
      && forall i :: 0 <= i < |a.manifest| ==> Stored(s, a.manifest[i].digest)
    case RemoveFile(d) => !Referenced(s, d)
    case Forget(d) => !Referenced(s, d)
    case _ => true
  }

  /** The statements that can come between a call's check and its statement: the other
      thread's, and between a collection's check and its DELETE the removal of the file. */
  predicate Between(st: Stmt, e: Stmt) {
    Outside(e) || (st.Forget? && e.RemoveFile?)
  }

  function StateAfter(cfg: Config, sts: seq<Stmt>, n: nat): State
    requires n <= |sts|
  {
    if n == 0 then EMPTY else Exec(cfg, StateAfter(cfg, sts, n - 1), sts[n - 1])
  }

  /** Statement i is the other thread's, or was checked at `since`. */
  ghost predicate Checked(cfg: Config, sts: seq<Stmt>, since: nat, i: nat)
    requires i < |sts|
  {
    since <= i && Ready(cfg, StateAfter(cfg, sts, since), sts[i])
    && forall j :: since <= j < i ==> Between(sts[i], sts[j])
  }

  /** Any run of both threads from the empty store. A crash is a call whose remaining
      statements never come. */
  ghost predicate IsRun(cfg: Config, sts: seq<Stmt>) {
    forall i :: 0 <= i < |sts| ==> Outside(sts[i]) || exists since :: Checked(cfg, sts, since, i)
  }

  /** Safe, but for the marks on rows. */
  ghost predicate Held(cfg: Config, s: State) {
    && SessionsOk(s)
    && PartsOk(cfg, s)
    && ArtifactsOk(cfg, s)
    && FilesOk(cfg, s)
    && RowsOk(cfg, s)
    && forall d :: Referenced(s, d) ==> Stored(s, d)
  }

  // ---- Marks taken off ------------------------------------------------------------------

  /** Every row active. */
  function Revived(s: State): State {
    s.(chunks := map d | d in s.chunks :: s.chunks[d].(state := ACTIVE, pendingAt := None))
  }

  lemma HeldRevived(cfg: Config, s: State)
    ensures Held(cfg, s) <==> RowsOk(cfg, s) && Safe(cfg, Revived(s))
  {
    var t := Revived(s);
    SameRefs(s, t);
    assert forall d :: Alive(t, d) <==> Stored(s, d);
    hide Referenced, Sized, ArtifactOk, PartOk;
  }

  lemma IssuedRevived(s: State, ident: Ident, a: Artifact)
    ensures Revived(Issued(s, ident, a)) == Issued(Revived(s), ident, a)
  {
    assert Revived(Issued(s, ident, a)).chunks == Issued(Revived(s), ident, a).chunks;
  }

  lemma EnterRevived(s: State, k: PartKey, d: Digest, size: nat, now: int)
    ensures Revived(Register(s, k, d, size, now)) == Register(Revived(s), k, d, size, now)
  {
    assert Revived(Register(s, k, d, size, now)).chunks == Register(Revived(s), k, d, size, now).chunks;
  }

  lemma PendRevived(s: State, d: Digest, now: int)
    ensures Revived(Pended(s, d, now)) == Revived(s)
  {
    assert Revived(Pended(s, d, now)).chunks == Revived(s).chunks;
  }

  lemma ReviveRevived(s: State, d: Digest)
    ensures Revived(Rescue(s, {d})) == Revived(s)
  {
    assert Revived(Rescue(s, {d})).chunks == Revived(s).chunks;
  }

  lemma ForgetRevived(s: State, d: Digest)
    ensures Revived(s.(chunks := s.chunks - {d})) == Revived(s).(chunks := Revived(s).chunks - {d})
  {
    assert Revived(s.(chunks := s.chunks - {d})).chunks == Revived(s).chunks - {d};
  }

  /** Marks apart, a statement does the same to a state and to that state without marks. */
  lemma Commutes(cfg: Config, s: State, st: Stmt)
    ensures Revived(Exec(cfg, s, st)) ==
            if st.Pend? || st.Revive? then Revived(s) else Exec(cfg, Revived(s), st)
  {
    hide ReactivateAll, Activate, Issued, Register, Pended, Rescue;
    match st {
      case Pend(d, now) => PendRevived(s, d, now);
      case Revive(d) => ReviveRevived(s, d);
      case Forget(d) => ForgetRevived(s, d);
      case Enter(k, data, now) => EnterRevived(s, k, cfg.sha(data), |data|, now);
      case Issue(id, ident, a) => IssuedRevived(s, ident, a);
      case _ =>
    }
  }

  lemma ReadyRevived(cfg: Config, s: State, st: Stmt)
    requires Ready(cfg, s, st)
    ensures Ready(cfg, Revived(s), st)
  {
    SameRefs(s, Revived(s));
    hide Referenced, ArtifactOk, Count;
  }

  // ---- One statement ----------------------------------------------------------------------

  lemma SafeEnter(cfg: Config, s: State, k: PartKey, data: Bytes, now: int)
    requires Safe(cfg, s) && Ready(cfg, s, Enter(k, data, now))
    ensures Safe(cfg, Exec(cfg, s, Enter(k, data, now)))
  {
    var d := cfg.sha(data);
    var t := Register(s, k, d, |data|, now);
    assert Sized(cfg, d, |data|);
    hide Sized, Referenced, Count, LiveOk, RowsOk;
    RegisterLive(s, k, d, |data|, now);
    RegisterRows(cfg, s, k, d, |data|, now);
    ArtifactFrame(cfg, s, t);
  }

  lemma IssuedLive(s: State, ident: Ident, a: Artifact)
    requires LiveOk(s)
    requires forall i :: 0 <= i < |a.manifest| ==> Stored(s, a.manifest[i].digest)
    ensures LiveOk(Issued(s, ident, a))
  {
    var t := Issued(s, ident, a);
    forall d | Referenced(t, d) ensures Alive(t, d) {
      if ByArtifact(t, d) {
        var j :| j in t.artifacts && InManifest(t.artifacts[j], d);
        if j != ident {
          assert ByArtifact(s, d) && Referenced(s, d);
          assert Alive(s, d);
        }
      } else {
        var k :| k in t.parts && LivePart(t, k) && t.parts[k].digest == d;
        assert LivePart(s, k) && ByUpload(s, d) && Referenced(s, d);
        assert Alive(s, d);
      }
    }
  }

  lemma SafeIssued(cfg: Config, s: State, ident: Ident, a: Artifact)
    requires Safe(cfg, s) && ArtifactOk(cfg, s.files, a)
    requires forall i :: 0 <= i < |a.manifest| ==> Stored(s, a.manifest[i].digest)
    ensures Safe(cfg, Issued(s, ident, a))
  {
    hide ArtifactOk, Sized, PartOk, Stored, LiveOk;
    IssuedLive(s, ident, a);
    hide Issued;
    IssuedRows(cfg, s, ident, a);
  }

  lemma IssuedRows(cfg: Config, s: State, ident: Ident, a: Artifact)
    requires RowsOk(cfg, s)
    ensures RowsOk(cfg, Issued(s, ident, a))
    ensures var t := Issued(s, ident, a);
            t == s.(artifacts := s.artifacts[ident := a], chunks := t.chunks)
  {
    hide Sized;
  }

  lemma SafeRevive(cfg: Config, s: State, d: Digest)
    requires Safe(cfg, s)
    ensures Safe(cfg, Rescue(s, {d}))
  {
    var t := Rescue(s, {d});
    SameRefs(s, t);
    hide Referenced, Sized;
    assert forall e :: Alive(s, e) ==> Alive(t, e);
    ArtifactFrame(cfg, s, t);
  }

  /** From a safe state every guarded statement but the UPDATE that marks leads to one. */
  lemma ReadySafe(cfg: Config, s: State, st: Stmt)
    requires Safe(cfg, s) && Ready(cfg, s, st) && !st.Pend?
    ensures Safe(cfg, Exec(cfg, s, st))
  {
    hide Safe, Referenced, WithState, DropParts, Register, Issued, Rescue, StoreFile, ArtifactOk, Count;
    match st {
      case Insert(id, x) => SafeCreate(cfg, s, id, x);
      case Move(id, src, dst) =>
        if id in s.sessions && s.sessions[id].state == src { SafeWithState(cfg, s, id, dst); }
      case Clear(id) => SafeDropParts(cfg, s, id);
      case ExpireSome(now) => SafeExpireAllDue(cfg, s, now);
      case RollBack => SafeReopenAll(cfg, s);
      case Keep(data) => SafeStoreFile(cfg, s, data);
      case Enter(k, data, now) => SafeEnter(cfg, s, k, data, now);
      case Issue(id, ident, a) =>
        SafeIssued(cfg, s, ident, a);
        IssuedSessions(s, ident, a);
        if id in s.sessions { SafeWithState(cfg, Issued(s, ident, a), id, COMPLETED); }
      case Withdraw(ident) => SafeUnpublish(cfg, s, ident);
      case RemoveFile(d) => SafeRemove(cfg, s, {d});
      case Forget(d) => SafeRemove(cfg, s, {d});
      case Revive(d) => SafeRevive(cfg, s, d);
    }
  }

  lemma IssuedSessions(s: State, ident: Ident, a: Artifact)
    ensures Issued(s, ident, a).sessions == s.sessions
  {
  }

  lemma PendAlone(s: State, d: Digest, now: int)
    ensures var t := Pended(s, d, now);
            && t == s.(chunks := t.chunks) && t.chunks.Keys == s.chunks.Keys
            && forall e :: e != d ==> (Alive(t, e) <==> Alive(s, e))
    ensures !Alive(Pended(s, d, now), d)
  {
  }

  lemma PendRows(cfg: Config, s: State, d: Digest, now: int)
    requires RowsOk(cfg, s)
    ensures RowsOk(cfg, Pended(s, d, now))
  {
    hide Sized;
  }

  lemma SafePend(cfg: Config, s: State, d: Digest, now: int)
    requires Safe(cfg, s)
    ensures Safe(cfg, Pended(s, d, now)) <==> !Referenced(s, d)
  {
    hide Pended, Sized, Referenced, Alive, ArtifactsOk, PartOk;
    var t := Pended(s, d, now);
    PendAlone(s, d, now);
    PendRows(cfg, s, d, now);
    SameRefs(s, t);
    if !Referenced(s, d) {
      LiveFrame(s, t);
    }
    SameFiles(cfg, s, t);
  }

  lemma SameFiles(cfg: Config, s: State, t: State)
    requires ArtifactsOk(cfg, s) && t.artifacts == s.artifacts && t.files == s.files
    ensures ArtifactsOk(cfg, t)
  {
    hide ArtifactOk;
  }

  /** Main result: of all the statements of both threads, one costs a safe state its
      safety: the UPDATE that marks a chunk referenced by then. */
  lemma LossIff(cfg: Config, s: State, st: Stmt)
    requires Safe(cfg, s) && Ready(cfg, s, st)
    ensures Safe(cfg, Exec(cfg, s, st)) <==> !(st.Pend? && Referenced(s, st.digest))
  {
    hide Safe, Ready, Referenced, Pended;
    if st.Pend? {
      SafePend(cfg, s, st.digest, st.now);
    } else {
      hide Exec;
      ReadySafe(cfg, s, st);
    }
  }

  lemma SizedSelf(cfg: Config, data: Bytes)
    requires cfg.corpus(data)
    ensures Sized(cfg, cfg.sha(data), |data|)
  {
  }

  lemma RowsKept(cfg: Config, s: State, st: Stmt)
    requires Ready(cfg, s, st) && RowsOk(cfg, s)
    ensures RowsOk(cfg, Exec(cfg, s, st))
  {
    hide Sized, Referenced, Count, ArtifactOk, Register, Issued, Pended;
    match st {
      case Enter(k, data, now) =>
        SizedSelf(cfg, data);
        RegisterRows(cfg, s, k, cfg.sha(data), |data|, now);
      case Issue(id, ident, a) => IssuedRows(cfg, s, ident, a);
      case Pend(d, now) => PendRows(cfg, s, d, now);
      case _ =>
    }
  }

  /** Main result: what survives every statement of both threads. */
  lemma HeldKept(cfg: Config, s: State, st: Stmt)
    requires Held(cfg, s) && Ready(cfg, s, st)
    ensures Held(cfg, Exec(cfg, s, st))
  {
    hide *;
    HeldRevived(cfg, s);
    HeldRevived(cfg, Exec(cfg, s, st));
    RowsKept(cfg, s, st);
    Commutes(cfg, s, st);
    ReadyRevived(cfg, s, st);
    if !st.Pend? {
      ReadySafe(cfg, Revived(s), st);
    }
  }

  // ---- Runs ----------------------------------------------------------------------------------

  /** What the other thread's statements leave: no artifact, file, row or session comes
      or goes, sessions only change state, and references only go. */
  ghost predicate Shrunk(s: State, t: State) {
    && t.artifacts == s.artifacts && t.files == s.files && t.chunks.Keys == s.chunks.Keys
    && t.sessions.Keys == s.sessions.Keys
    && (forall id :: id in s.sessions ==> t.sessions[id] == s.sessions[id].(state := t.sessions[id].state))
    && (forall k :: k in t.parts ==> k in s.parts && t.parts[k] == s.parts[k])
    && forall d :: Referenced(t, d) ==> Referenced(s, d)
  }

  /** Sessions only change state, and none comes to life. */
  ghost predicate SessionsShrunk(s: State, t: State) {
    && t == s.(sessions := t.sessions) && t.sessions.Keys == s.sessions.Keys
    && forall id :: id in s.sessions ==>
         t.sessions[id] == s.sessions[id].(state := t.sessions[id].state)
         && (Live(t.sessions[id].state) ==> Live(s.sessions[id].state))
  }

  lemma SessionWrites(s: State, id: SessionId, dst: SessionState, now: int)
    ensures id in s.sessions && !Live(dst) ==> SessionsShrunk(s, WithState(s, id, dst))
    ensures SessionsShrunk(s, ExpireAllDue(s, now))
    ensures SessionsShrunk(s, ReopenAll(s))
  {
  }

  lemma SessionRefs(s: State, t: State)
    requires SessionsShrunk(s, t)
    ensures Shrunk(s, t)
  {
    RefsSubset(s, t);
    hide Referenced;
  }

  lemma RowRefs(s: State, id: SessionId, d: Digest, now: int)
    ensures Shrunk(s, Pended(s, d, now))
    ensures Shrunk(s, DropParts(s, id))
    ensures Shrunk(s, s)
  {
    PendAlone(s, d, now);
    RefsSubset(s, DropParts(s, id));
    SameRefs(s, Pended(s, d, now));
    hide Referenced, Pended;
  }

  lemma OutsideShrinks(cfg: Config, s: State, e: Stmt)
    requires Outside(e)
    ensures Shrunk(s, Exec(cfg, s, e))
  {
    hide Shrunk, SessionsShrunk, Pended, WithState, ExpireAllDue, ReopenAll, DropParts;
    match e {
      case Move(id, src, dst) =>
        RowRefs(s, id, "", 0);
        SessionWrites(s, id, dst, 0);
        if Exec(cfg, s, e) != s { SessionRefs(s, WithState(s, id, dst)); }
      case ExpireSome(now) =>
        SessionWrites(s, "", ABORTED, now);
        SessionRefs(s, ExpireAllDue(s, now));
      case RollBack =>
        SessionWrites(s, "", ABORTED, 0);
        SessionRefs(s, ReopenAll(s));
      case Clear(id) => RowRefs(s, id, "", 0);
      case Pend(d, now) => RowRefs(s, "", d, now);
    }
  }

  lemma ReadyShrunk(cfg: Config, s: State, t: State, st: Stmt)
    requires Ready(cfg, s, st) && Shrunk(s, t)
    ensures Ready(cfg, t, st)
  {
    hide Referenced, ArtifactOk, Count;
    if st.Enter? {
      SameCount(s.sessions[st.key.session], t.sessions[st.key.session]);
    }
  }

  /** A check outlasts whatever can come between it and its statement. */
  lemma ReadyStays(cfg: Config, s: State, st: Stmt, e: Stmt)
    requires Ready(cfg, s, st) && Between(st, e)
    ensures Ready(cfg, Exec(cfg, s, e), st)
  {
    if Outside(e) {
      hide Ready, Shrunk, Exec;
      OutsideShrinks(cfg, s, e);
      ReadyShrunk(cfg, s, Exec(cfg, s, e), st);
    } else {
      SameRefs(s, Exec(cfg, s, e));
      hide Referenced;
    }
  }

  lemma {:induction false} StillReady(cfg: Config, sts: seq<Stmt>, since: nat, i: nat, j: nat)
    requires i < |sts| && Checked(cfg, sts, since, i) && since <= j <= i
    ensures Ready(cfg, StateAfter(cfg, sts, j), sts[i])
  {
    hide Ready, Between, Exec;
    if since < j {
      StillReady(cfg, sts, since, i, j - 1);
      assert Between(sts[i], sts[j - 1]);
      ReadyStays(cfg, StateAfter(cfg, sts, j - 1), sts[i], sts[j - 1]);
    }
  }

  lemma ReadyNow(cfg: Config, sts: seq<Stmt>, i: nat)
    requires IsRun(cfg, sts) && i < |sts|
    ensures Ready(cfg, StateAfter(cfg, sts, i), sts[i])
  {
    hide StateAfter, Exec;
    if !Outside(sts[i]) {
      var since :| Checked(cfg, sts, since, i);
      hide Ready;
      StillReady(cfg, sts, since, i, i);
    }
  }

  lemma HeldInitially(cfg: Config)
    ensures Held(cfg, EMPTY)
  {
    assert forall d :: !Referenced(EMPTY, d);
  }

  /** Main result: at every point of every run of the two threads, every chunk that an
      artifact or an unfinished upload refers to has its row and its file. */
  lemma {:induction false} RunHeld(cfg: Config, sts: seq<Stmt>, n: nat)
    requires IsRun(cfg, sts) && n <= |sts|
    ensures Held(cfg, StateAfter(cfg, sts, n))
  {
    hide Held, Ready, IsRun, Exec;
    if n == 0 {
      HeldInitially(cfg);
    } else {
      RunHeld(cfg, sts, n - 1);
      ReadyNow(cfg, sts, n - 1);
      HeldKept(cfg, StateAfter(cfg, sts, n - 1), sts[n - 1]);
    }
  }

  /** So every artifact can be read in full. */
  lemma RunReadable(cfg: Config, sts: seq<Stmt>, n: nat, ident: Ident)
    requires ValidConfig(cfg) && IsRun(cfg, sts) && n <= |sts|
    requires ident in StateAfter(cfg, sts, n).artifacts
    ensures var s := StateAfter(cfg, sts, n);
            && RangeRead.Readable(s.files, s.artifacts[ident])
            && cfg.sha(Content(s.files, s.artifacts[ident].manifest)) == s.artifacts[ident].digest
  {
    var s := StateAfter(cfg, sts, n);
    hide *;
    RunHeld(cfg, sts, n);
    HeldRevived(cfg, s);
    RevivedKeeps(s);
    RangeRead.SafeReadable(cfg, Revived(s), ident);
    RightDigest(cfg, Revived(s), ident);
  }

  lemma RevivedKeeps(s: State)
    ensures Revived(s).artifacts == s.artifacts && Revived(s).files == s.files
  {
  }

  lemma RightDigest(cfg: Config, s: State, ident: Ident)
    requires Safe(cfg, s) && ident in s.artifacts
    ensures cfg.sha(Content(s.files, s.artifacts[ident].manifest)) == s.artifacts[ident].digest
  {
    assert ArtifactOk(cfg, s.files, s.artifacts[ident]);
  }

  lemma KeepsArtifact(cfg: Config, s: State, st: Stmt, ident: Ident)
    requires Ready(cfg, s, st) && ident in s.artifacts && st != Withdraw(ident)
    ensures var t := Exec(cfg, s, st); ident in t.artifacts && t.artifacts[ident] == s.artifacts[ident]
  {
    hide ArtifactOk, Referenced, Count;
  }

  /** Main result: and until it is withdrawn its record and its bytes do not change. */
  lemma {:induction false} RunStable(cfg: Config, sts: seq<Stmt>, i: nat, j: nat, ident: Ident)
    requires ValidConfig(cfg) && IsRun(cfg, sts) && i <= j <= |sts| && ident in StateAfter(cfg, sts, i).artifacts
    requires forall k :: i <= k < j ==> sts[k] != Withdraw(ident)
    ensures var s, t := StateAfter(cfg, sts, i), StateAfter(cfg, sts, j);
            && ident in t.artifacts && t.artifacts[ident] == s.artifacts[ident]
            && Content(t.files, t.artifacts[ident].manifest) == Content(s.files, s.artifacts[ident].manifest)
  {
    hide Held, Ready, IsRun, Exec, Content, ValidConfig, Revived;
    if i < j {
      RunStable(cfg, sts, i, j - 1, ident);
      var s, t := StateAfter(cfg, sts, j - 1), StateAfter(cfg, sts, j);
      ReadyNow(cfg, sts, j - 1);
      KeepsArtifact(cfg, s, sts[j - 1], ident);
      RunHeld(cfg, sts, j - 1);
      RunHeld(cfg, sts, j);
      HeldContent(cfg, s, t, ident);
    }
  }

  lemma HeldContent(cfg: Config, s: State, t: State, ident: Ident)
    requires ValidConfig(cfg) && Held(cfg, s) && Held(cfg, t)
    requires ident in s.artifacts && ident in t.artifacts && s.artifacts[ident] == t.artifacts[ident]
    ensures Content(s.files, s.artifacts[ident].manifest) == Content(t.files, s.artifacts[ident].manifest)
  {
    hide *;
    HeldRevived(cfg, s);
    HeldRevived(cfg, t);
    RevivedKeeps(s);
    RevivedKeeps(t);
    History.SameContent(cfg, Revived(s), Revived(t), ident);
  }

  // ---- Where the checks of the calls leave their statements -----------------------------------

  lemma {:induction false} OutsideRun(cfg: Config, sts: seq<Stmt>, i: nat, j: nat)
    requires i <= j <= |sts| && forall k :: i <= k < j ==> Outside(sts[k])
    ensures Shrunk(StateAfter(cfg, sts, i), StateAfter(cfg, sts, j))
  {
    hide Outside, Exec, Referenced;
    if i < j {
      OutsideRun(cfg, sts, i, j - 1);
      OutsideShrinks(cfg, StateAfter(cfg, sts, j - 1), sts[j - 1]);
    }
  }

  /** A commit that took its session while live, and whose validation succeeds on the rows
      it then reads, may publish: whatever the other thread did to the session meanwhile,
      its expiry and the loss of its rows included, the chunks it read are stored. */
  lemma CommitReady(cfg: Config, sts: seq<Stmt>, i: nat, j: nat, id: SessionId, now: int)
    requires IsRun(cfg, sts) && i <= j <= |sts| && forall k :: i <= k < j ==> Outside(sts[k])
    requires id in StateAfter(cfg, sts, i).sessions && Live(StateAfter(cfg, sts, i).sessions[id].state)
    requires var s := StateAfter(cfg, sts, j); id in s.sessions && CheckUpload(cfg, s, id) == OK
    ensures var s := StateAfter(cfg, sts, j);
            Ready(cfg, s, Issue(id, s.sessions[id].ident, NewArtifact(s, id, now)))
  {
    hide IsRun, Exec, StateAfter, Held, CheckUpload, Contiguous;
    RunHeld(cfg, sts, i);
    RunHeld(cfg, sts, j);
    OutsideRun(cfg, sts, i, j);
    ReadParts(cfg, StateAfter(cfg, sts, i), StateAfter(cfg, sts, j), id, now);
  }

  lemma ReadParts(cfg: Config, s: State, t: State, id: SessionId, now: int)
    requires Held(cfg, s) && Held(cfg, t) && Shrunk(s, t)
    requires id in s.sessions && Live(s.sessions[id].state) && CheckUpload(cfg, t, id) == OK
    ensures Ready(cfg, t, Issue(id, t.sessions[id].ident, NewArtifact(t, id, now)))
  {
    CheckedArtifact(cfg, t, id, now);
    CheckedUpload(cfg, t, id);
    var n := Count(t.sessions[id]);
    var a := NewArtifact(t, id, now);
    ManifestFacts(cfg, t, id, n);
    FreshIdent(cfg, t, id);
    hide CheckUpload, ArtifactOk, Manifest, Count, Sized, RowsOk, FilesOk, ArtifactsOk, PartsOk, ManifestOk;
    forall i | 0 <= i < |a.manifest| ensures Stored(t, a.manifest[i].digest) {
      var k := PartKey(id, i);
      assert k in t.parts && LivePart(s, k) && s.parts[k].digest == a.manifest[i].digest;
      assert ByUpload(s, a.manifest[i].digest) && Referenced(s, a.manifest[i].digest);
    }
  }

  lemma FreshIdent(cfg: Config, s: State, id: SessionId)
    requires id in s.sessions && CheckUpload(cfg, s, id) == OK
    ensures s.sessions[id].ident !in s.artifacts
  {
    hide Manifest, Content, Contiguous;
  }

  // ---- Serialized calls -----------------------------------------------------------------------

  function ExecAll(cfg: Config, s: State, sts: seq<Stmt>): State
    decreases |sts|
  {
    if sts == [] then s else ExecAll(cfg, Exec(cfg, s, sts[0]), sts[1..])
  }

  ghost predicate AllReady(cfg: Config, s: State, sts: seq<Stmt>)
    decreases |sts|
  {
    sts == [] || (Ready(cfg, s, sts[0]) && AllReady(cfg, Exec(cfg, s, sts[0]), sts[1..]))
  }

  /** The marking loop. */
  function Pends(s: State, ds: seq<Digest>, now: int): seq<Stmt> {
    if ds == [] then []
    else (if Referenced(s, ds[0]) then [] else [Pend(ds[0], now)]) + Pends(s, ds[1..], now)
  }

  /** The statements of an action of the serialized model. */
  ghost function Written(cfg: Config, s: State, a: Action, now: int): seq<Stmt>
    requires Enabled(cfg, s, a, now)
  {
    match a
    case Create(id, x) => [Insert(id, x)]
    case ExpireOne(id) => [Move(id, OPEN, EXPIRED)]
    case DropRows(id) => [Clear(id)]
    case Mark(d) => [Pend(d, now)]
    case Put(data) => [Keep(data)]
    case RegisterTx(k, data) => [Enter(k, data, now)]
    case Begin(id) => [Move(id, OPEN, COMMITTING)]
    case Rollback(id) => [Move(id, COMMITTING, OPEN)]
    case PublishTx(id) => CheckedUpload(cfg, s, id); [Issue(id, s.sessions[id].ident, NewArtifact(s, id, now))]
    case Abort(id) =>
      var t := WithState(s, id, ABORTED);
      [Move(id, s.sessions[id].state, ABORTED), Clear(id)]
      + Pends(DropParts(t, id), Operations.Listing(DigestsOf(t, id)), now)
    case Delete(ident) =>
      [Withdraw(ident)]
      + Pends(Unpublish(s, ident), Operations.Listing(ManifestDigests(s.artifacts[ident])), now)
    case Unlink(d) => [RemoveFile(d)]
    case DropRow(d) => [Forget(d)]
    case ExpireDue => [ExpireSome(now)]
    case Reopen => [RollBack]
  }

  lemma MarkIsPend(s: State, d: Digest, now: int)
    ensures MarkAll(s, {d}, now) == if Referenced(s, d) then s else Pended(s, d, now)
  {
    hide Referenced;
    assert MarkAll(s, {d}, now).chunks == (if Referenced(s, d) then s else Pended(s, d, now)).chunks;
  }

  lemma {:induction false} PendsSame(s: State, t: State, ds: seq<Digest>, now: int)
    requires forall d :: Referenced(t, d) <==> Referenced(s, d)
    ensures Pends(t, ds, now) == Pends(s, ds, now)
  {
    hide Referenced;
    if ds != [] {
      PendsSame(s, t, ds[1..], now);
    }
  }

  lemma {:induction false} PendsRun(cfg: Config, s: State, ds: seq<Digest>, now: int)
    ensures AllReady(cfg, s, Pends(s, ds, now))
    ensures ExecAll(cfg, s, Pends(s, ds, now)) == MarkAll(s, Operations.Elems(ds), now)
    decreases |ds|
  {
    hide MarkAll, Referenced, Pended;
    if ds == [] {
      Operations.MarkAllNone(s, now);
      assert Operations.Elems(ds) == {};
    } else {
      var d, rest := ds[0], ds[1..];
      var t := MarkAll(s, {d}, now);
      MarkIsPend(s, d, now);
      Operations.MarkAllMore(s, {d}, Operations.Elems(rest), now);
      assert Operations.Elems(ds) == {d} + Operations.Elems(rest);
      MarkRefs(s, d, now);
      PendsSame(s, t, rest, now);
      PendsRun(cfg, t, rest, now);
      if Referenced(s, d) {
        assert Pends(s, ds, now) == Pends(s, rest, now);
      } else {
        assert ([Pend(d, now)] + Pends(s, rest, now))[1..] == Pends(s, rest, now);
      }
    }
  }

  lemma MarkRefs(s: State, d: Digest, now: int)
    ensures forall e :: Referenced(MarkAll(s, {d}, now), e) <==> Referenced(s, e)
  {
    SameRefs(s, MarkAll(s, {d}, now));
  }

  lemma SerialAbort(cfg: Config, s: State, id: SessionId, now: int)
    requires id in s.sessions
    ensures var t := WithState(s, id, ABORTED);
            var sts := [Move(id, s.sessions[id].state, ABORTED), Clear(id)]
                       + Pends(DropParts(t, id), Operations.Listing(DigestsOf(t, id)), now);
            AllReady(cfg, s, sts) && ExecAll(cfg, s, sts) == AbortTx(s, id, now)
  {
    hide AllReady, ExecAll, MarkAll, Pends, DropParts, WithState, DigestsOf;
    var t := WithState(s, id, ABORTED);
    var ds := Operations.Listing(DigestsOf(t, id));
    PendsRun(cfg, DropParts(t, id), ds, now);
    Prefixed(cfg, s, Move(id, s.sessions[id].state, ABORTED), Clear(id), Pends(DropParts(t, id), ds, now));
  }

  lemma SerialDelete(cfg: Config, s: State, ident: Ident, now: int)
    requires ident in s.artifacts
    ensures var sts := [Withdraw(ident)]
                       + Pends(Unpublish(s, ident), Operations.Listing(ManifestDigests(s.artifacts[ident])), now);
            AllReady(cfg, s, sts) && ExecAll(cfg, s, sts) == DeleteTx(s, ident, now)
  {
    var t := Unpublish(s, ident);
    var rest := Pends(t, Operations.Listing(ManifestDigests(s.artifacts[ident])), now);
    assert ([Withdraw(ident)] + rest)[1..] == rest;
    assert Exec(cfg, s, Withdraw(ident)) == t;
    hide MarkAll, Pends, Unpublish, ManifestDigests;
    PendsRun(cfg, t, Operations.Listing(ManifestDigests(s.artifacts[ident])), now);
  }

  /** The serialized model is the case in which nothing comes between: each of its actions
      is a run of guarded statements. */
  lemma SerialIs(cfg: Config, s: State, a: Action, now: int)
    requires Safe(cfg, s) && Enabled(cfg, s, a, now)
    ensures AllReady(cfg, s, Written(cfg, s, a, now))
    ensures ExecAll(cfg, s, Written(cfg, s, a, now)) == Apply(cfg, s, a, now)
  {
    hide Safe, Referenced, MarkAll, CheckUpload, Pends, Manifest, Count, UsedBytes, OpenOf, Watermark, ArtifactOk,
         Pended, WithState, DropParts, AbortTx, DeleteTx, Register, Contiguous, ExecAll, AllReady;
    var sts := Written(cfg, s, a, now);
    if !a.Abort? && !a.Delete? { OneStmt(cfg, s, sts[0]); }
    match a {
      case Abort(id) => SerialAbort(cfg, s, id, now);
      case Delete(ident) => SerialDelete(cfg, s, ident, now);
      case Mark(d) => MarkIsPend(s, d, now);
      case PublishTx(id) => PublishReady(cfg, s, id, now);
      case _ =>
    }
  }

  lemma Prefixed(cfg: Config, s: State, a: Stmt, b: Stmt, rest: seq<Stmt>)
    ensures var t := Exec(cfg, Exec(cfg, s, a), b);
            && ExecAll(cfg, s, [a, b] + rest) == ExecAll(cfg, t, rest)
            && (AllReady(cfg, s, [a, b] + rest) <==>
                Ready(cfg, s, a) && Ready(cfg, Exec(cfg, s, a), b) && AllReady(cfg, t, rest))
  {
    hide Exec, Ready;
    assert ([a, b] + rest)[1..] == [b] + rest && ([b] + rest)[1..] == rest;
  }

  lemma OneStmt(cfg: Config, s: State, st: Stmt)
    ensures ExecAll(cfg, s, [st]) == Exec(cfg, s, st)
    ensures AllReady(cfg, s, [st]) <==> Ready(cfg, s, st)
  {
    hide Exec, Ready;
    assert [st][1..] == [];
  }

  lemma PublishReady(cfg: Config, s: State, id: SessionId, now: int)
    requires Safe(cfg, s) && id in s.sessions && Live(s.sessions[id].state) && CheckUpload(cfg, s, id) == OK
    ensures Contiguous(s, id, Count(s.sessions[id]))
    ensures Ready(cfg, s, Issue(id, s.sessions[id].ident, NewArtifact(s, id, now)))
  {
    CheckedUpload(cfg, s, id);
    CheckedArtifact(cfg, s, id, now);
    UploadAllAlive(cfg, s, id, NewArtifact(s, id, now).manifest);
    FreshIdent(cfg, s, id);
    hide Safe, CheckUpload, ArtifactOk, Manifest, Count;
  }

  // ---- Repair -----------------------------------------------------------------------------------

  lemma RescueLive(cfg: Config, s: State, now: int)
    requires Held(cfg, s)
    ensures var u := Rescue(s, Rescued(cfg, s, now));
            LiveOk(u) <==> forall d :: Referenced(s, d) && Pending(s, d) ==> Ripe(cfg, s, d, now)
  {
    var u := Rescue(s, Rescued(cfg, s, now));
    SameRefs(s, u);
    hide Referenced, Sized, ArtifactsOk, PartsOk, FilesOk;
    forall d | Referenced(s, d)
      ensures Alive(u, d) <==> (Pending(s, d) ==> Ripe(cfg, s, d, now))
    {
      assert Stored(s, d);
    }
  }

  lemma RescueRest(cfg: Config, s: State, now: int)
    requires Held(cfg, s)
    ensures var u := Rescue(s, Rescued(cfg, s, now));
            && Safe(cfg, u) == LiveOk(u)
            && (forall d :: d in Garbage(cfg, s, now) ==> !Referenced(u, d))
            && forall d :: Referenced(u, d) <==> Referenced(s, d)
  {
    var u := Rescue(s, Rescued(cfg, s, now));
    SameRefs(s, u);
    hide Referenced, Sized, ArtifactOk, PartOk, LiveOk;
  }

  /** Main result: the next collection repairs the marks, exactly when every marked chunk
      that is referenced has been marked for the protection period by then. */
  lemma RepairIff(cfg: Config, s: State, now: int, dryRun: bool)
    requires Held(cfg, s)
    ensures Safe(cfg, CollectGarbage(cfg, s, now, dryRun).0)
            <==> forall d :: Referenced(s, d) && Pending(s, d) ==> Ripe(cfg, s, d, now)
  {
    var u := Rescue(s, Rescued(cfg, s, now));
    var g := Garbage(cfg, s, now);
    var t := CollectGarbage(cfg, s, now, dryRun).0;
    assert t == if dryRun then u else Sweep(u, g);
    RescueLive(cfg, s, now);
    RescueRest(cfg, s, now);
    hide CollectGarbage, Rescue, Held, Garbage, Referenced, Pending, Ripe;
    if !dryRun {
      SweepSafe(cfg, u, g);
    }
  }

  lemma SweepSafe(cfg: Config, u: State, g: set<Digest>)
    requires forall d :: d in g ==> !Referenced(u, d)
    ensures Safe(cfg, u) ==> Safe(cfg, Sweep(u, g))
    ensures Safe(cfg, Sweep(u, g)) ==> LiveOk(u)
  {
    var f := u.(files := u.files - g);
    SameRefs(u, f);
    SameRefs(u, Sweep(u, g));
    hide Referenced, Sized, ArtifactsOk, PartsOk, FilesOk;
    assert forall d :: Alive(Sweep(u, g), d) ==> Alive(u, d);
    if Safe(cfg, u) {
      hide Safe, LiveOk, Alive;
      SafeRemove(cfg, u, g);
      SafeRemove(cfg, f, g);
    }
  }

  // ---- A late mark ----------------------------------------------------------------------------

  /** The first i statements are a run to s. */
  ghost predicate RunTo(cfg: Config, sts: seq<Stmt>, i: nat, s: State) {
    i <= |sts| && IsRun(cfg, sts[..i]) && StateAfter(cfg, sts, i) == s
  }

  lemma RunStep(cfg: Config, sts: seq<Stmt>, i: nat, s: State, t: State)
    requires RunTo(cfg, sts, i, s) && i < |sts| && Ready(cfg, s, sts[i]) && Exec(cfg, s, sts[i]) == t
    ensures RunTo(cfg, sts, i + 1, t)
  {
    hide Ready, Exec, Between, Outside;
    var all := sts[..i + 1];
    forall j | 0 <= j < |all| ensures Outside(all[j]) || exists since :: Checked(cfg, all, since, j) {
      if j == i {
        SamePrefix(cfg, all, sts, i);
        assert Checked(cfg, all, i, i);
      } else if !Outside(all[j]) {
        var since :| Checked(cfg, sts[..i], since, j);
        SamePrefix(cfg, sts[..i], all, since);
        assert Checked(cfg, all, since, j);
      }
    }
  }

  lemma {:induction false} SamePrefix(cfg: Config, sts: seq<Stmt>, all: seq<Stmt>, i: nat)
    requires i <= |sts| && sts <= all
    ensures StateAfter(cfg, all, i) == StateAfter(cfg, sts, i)
  {
    hide Exec;
    if i > 0 {
      SamePrefix(cfg, sts, all, i - 1);
    }
  }

  /** When the first of two sessions, created at 0, is due. */
  function Expiry(cfg: Config): int { cfg.sessionHours * 3600 }

  function Upload(cfg: Config, owner: string, now: int, digest: Digest): Session {
    NewSession(cfg, now, Ident("n", owner, "1"), 1, digest, owner)
  }

  /** Two uploads of the same byte. The first is put, falls due, and maintenance expires
      it and drops its rows. Maintenance then finds the chunk unreferenced; before its
      UPDATE the second upload puts the byte. */
  function LateSteps(cfg: Config, data: Bytes, digest: Digest): seq<Stmt> {
    [Insert("a", Upload(cfg, "o", 0, digest)), Insert("b", Upload(cfg, "p", 1, digest)),
     Keep(data), Enter(PartKey("a", 0), data, 1),
     ExpireSome(Expiry(cfg)), Clear("a"),
     Keep(data), Enter(PartKey("b", 0), data, Expiry(cfg)),
     Pend(cfg.sha(data), Expiry(cfg))]
  }

  /** The tables during these steps. */
  function Late(cfg: Config, data: Bytes, digest: Digest, st: SessionState, parts: map<PartKey, Part>,
                row: Chunk): State
  {
    var d := cfg.sha(data);
    State(map[], map[d := row],
          map["a" := Upload(cfg, "o", 0, digest).(state := st), "b" := Upload(cfg, "p", 1, digest)],
          parts, map[d := data])
  }

  lemma LateStart(cfg: Config, data: Bytes, digest: Digest)
    requires ValidConfig(cfg) && cfg.corpus(data) && |data| == 1
    ensures RunTo(cfg, LateSteps(cfg, data, digest), 4,
                  Late(cfg, data, digest, OPEN, map[PartKey("a", 0) := Part(cfg.sha(data), 1)],
                       Chunk(1, ACTIVE, None, 1)))
  {
    var all := LateSteps(cfg, data, digest);
    var xa, xb := Upload(cfg, "o", 0, digest), Upload(cfg, "p", 1, digest);
    var s1 := EMPTY.(sessions := map["a" := xa]);
    var s2 := EMPTY.(sessions := map["a" := xa, "b" := xb]);
    var s3 := s2.(files := map[cfg.sha(data) := data]);
    OneChunk(cfg, xa);
    assert s1.sessions["b" := xb] == s2.sessions;
    assert Exec(cfg, EMPTY, all[0]) == s1 && Exec(cfg, s1, all[1]) == s2 && Exec(cfg, s2, all[2]) == s3;
    assert Ready(cfg, EMPTY, all[0]) && Ready(cfg, s1, all[1]) && Ready(cfg, s2, all[2]) && Ready(cfg, s3, all[3]);
    LateEnter(cfg, data, digest, s3);
    hide *;
    RunNone(cfg, all);
    RunStep(cfg, all, 0, EMPTY, s1);
    RunStep(cfg, all, 1, s1, s2);
    RunStep(cfg, all, 2, s2, s3);
    RunStep(cfg, all, 3, s3, Exec(cfg, s3, all[3]));
  }

  lemma RunNone(cfg: Config, sts: seq<Stmt>)
    ensures RunTo(cfg, sts, 0, EMPTY)
  {
  }

  lemma LateEnter(cfg: Config, data: Bytes, digest: Digest, s: State)
    requires |data| == 1
    requires s == State(map[], map[], map["a" := Upload(cfg, "o", 0, digest), "b" := Upload(cfg, "p", 1, digest)],
                        map[], map[cfg.sha(data) := data])
    ensures Exec(cfg, s, Enter(PartKey("a", 0), data, 1)) ==
            Late(cfg, data, digest, OPEN, map[PartKey("a", 0) := Part(cfg.sha(data), 1)], Chunk(1, ACTIVE, None, 1))
  {
  }

  /** A session for one byte expects one chunk. */
  lemma OneChunk(cfg: Config, x: Session)
    requires ValidConfig(cfg) && x.expectedSize == 1 && x.chunkSize == cfg.chunkSize
    ensures Count(x) == 1 && SizeOk(x.chunkSize)
  {
    CountIsCeiling(1, x.chunkSize);
    Multiples(ChunkCount(1, x.chunkSize) - 1, x.chunkSize);
  }

  lemma LateMiddle(cfg: Config, data: Bytes, digest: Digest)
    requires ValidConfig(cfg) && cfg.corpus(data) && |data| == 1
    ensures var all, d, row := LateSteps(cfg, data, digest), cfg.sha(data), Chunk(1, ACTIVE, None, 1);
            var pa, pb := map[PartKey("a", 0) := Part(d, 1)], map[PartKey("b", 0) := Part(d, 1)];
            && Exec(cfg, Late(cfg, data, digest, OPEN, pa, row), all[4]) == Late(cfg, data, digest, EXPIRED, pa, row)
            && Exec(cfg, Late(cfg, data, digest, EXPIRED, pa, row), all[5])
               == Late(cfg, data, digest, EXPIRED, map[], row)
            && Exec(cfg, Late(cfg, data, digest, EXPIRED, map[], row), all[6])
               == Late(cfg, data, digest, EXPIRED, map[], row)
            && Exec(cfg, Late(cfg, data, digest, EXPIRED, map[], row), all[7])
               == Late(cfg, data, digest, EXPIRED, pb, row)
            && Exec(cfg, Late(cfg, data, digest, EXPIRED, pb, row), all[8])
               == Late(cfg, data, digest, EXPIRED, pb, Chunk(1, PENDING_DELETE, Some(Expiry(cfg)), 1))
            && Ready(cfg, Late(cfg, data, digest, EXPIRED, map[], row), all[7])
  {
    var d, row := cfg.sha(data), Chunk(1, ACTIVE, None, 1);
    var pa, pb := map[PartKey("a", 0) := Part(d, 1)], map[PartKey("b", 0) := Part(d, 1)];
    OneChunk(cfg, Upload(cfg, "p", 1, digest));
    hide Count, ChunkCount, ValidConfig, ReactivateAll, Rescue, Sized;
    LateExpire(cfg, data, digest, pa, row);
    LatePend(cfg, data, digest, pb);
    assert DropParts(Late(cfg, data, digest, EXPIRED, pa, row), "a").parts == map[];
    assert Register(Late(cfg, data, digest, EXPIRED, map[], row), PartKey("b", 0), d, 1, Expiry(cfg)).parts == pb;
  }

  lemma LateExpire(cfg: Config, data: Bytes, digest: Digest, parts: map<PartKey, Part>, row: Chunk)
    ensures ExpireAllDue(Late(cfg, data, digest, OPEN, parts, row), Expiry(cfg))
            == Late(cfg, data, digest, EXPIRED, parts, row)
  {
    var s, t := Late(cfg, data, digest, OPEN, parts, row), Late(cfg, data, digest, EXPIRED, parts, row);
    assert ExpireAllDue(s, Expiry(cfg)).sessions == t.sessions;
  }

  lemma LatePend(cfg: Config, data: Bytes, digest: Digest, parts: map<PartKey, Part>)
    ensures Pended(Late(cfg, data, digest, EXPIRED, parts, Chunk(1, ACTIVE, None, 1)), cfg.sha(data), Expiry(cfg))
            == Late(cfg, data, digest, EXPIRED, parts, Chunk(1, PENDING_DELETE, Some(Expiry(cfg)), 1))
  {
  }

  lemma LateRefs(cfg: Config, data: Bytes, digest: Digest, row: Chunk)
    ensures var d := cfg.sha(data);
            && !Referenced(Late(cfg, data, digest, EXPIRED, map[], row), d)
            && Referenced(Late(cfg, data, digest, EXPIRED, map[PartKey("b", 0) := Part(d, 1)], row), d)
  {
    var s := Late(cfg, data, digest, EXPIRED, map[PartKey("b", 0) := Part(cfg.sha(data), 1)], row);
    assert LivePart(s, PartKey("b", 0)) && ByUpload(s, cfg.sha(data));
  }

  lemma LateKinds(cfg: Config, data: Bytes, digest: Digest)
    ensures var all := LateSteps(cfg, data, digest);
            && |all| == 9 && all[4].ExpireSome? && all[5].Clear? && all[6] == Keep(data)
            && all[8] == Pend(cfg.sha(data), Expiry(cfg))
  {
  }

  lemma Free(cfg: Config, s: State, st: Stmt)
    requires st.ExpireSome? || st.Clear? || st.Pend? || (st.Keep? && cfg.corpus(st.data))
    ensures Ready(cfg, s, st)
  {
  }

  lemma LateRun(cfg: Config, data: Bytes, digest: Digest)
    requires ValidConfig(cfg) && cfg.corpus(data) && |data| == 1
    ensures var sts, d, row := LateSteps(cfg, data, digest), cfg.sha(data), Chunk(1, ACTIVE, None, 1);
            var pb := map[PartKey("b", 0) := Part(d, 1)];
            && RunTo(cfg, sts, 6, Late(cfg, data, digest, EXPIRED, map[], row))
            && RunTo(cfg, sts, 9, Late(cfg, data, digest, EXPIRED, pb, Chunk(1, PENDING_DELETE, Some(Expiry(cfg)), 1)))
  {
    var all, d, row := LateSteps(cfg, data, digest), cfg.sha(data), Chunk(1, ACTIVE, None, 1);
    var pa, pb := map[PartKey("a", 0) := Part(d, 1)], map[PartKey("b", 0) := Part(d, 1)];
    var s4, s5 := Late(cfg, data, digest, OPEN, pa, row), Late(cfg, data, digest, EXPIRED, pa, row);
    var s6, s8 := Late(cfg, data, digest, EXPIRED, map[], row), Late(cfg, data, digest, EXPIRED, pb, row);
    hide *;
    LateStart(cfg, data, digest);
    LateMiddle(cfg, data, digest);
    LateKinds(cfg, data, digest);
    Free(cfg, s4, all[4]);
    Free(cfg, s5, all[5]);
    Free(cfg, s6, all[6]);
    Free(cfg, s8, all[8]);
    RunStep(cfg, all, 4, s4, s5);
    RunStep(cfg, all, 5, s5, s6);
    RunStep(cfg, all, 6, s6, s6);
    RunStep(cfg, all, 7, s6, s8);
    RunStep(cfg, all, 8, s8, Exec(cfg, s8, all[8]));
  }

  /** Maintenance checks at statement 6 that nothing refers to the chunk, and its UPDATE
      comes at statement 8: the run ends with an open upload whose chunk is marked. */
  lemma LateMark(cfg: Config, data: Bytes, digest: Digest)
    requires ValidConfig(cfg) && cfg.corpus(data) && |data| == 1
    ensures var sts, d := LateSteps(cfg, data, digest), cfg.sha(data);
            && |sts| == 9 && IsRun(cfg, sts) && sts[8] == Pend(d, Expiry(cfg))
            && !Referenced(StateAfter(cfg, sts, 6), d)
            && Referenced(StateAfter(cfg, sts, 9), d) && Pending(StateAfter(cfg, sts, 9), d)
            && !Safe(cfg, StateAfter(cfg, sts, 9))
  {
    var sts, d := LateSteps(cfg, data, digest), cfg.sha(data);
    var end := Late(cfg, data, digest, EXPIRED, map[PartKey("b", 0) := Part(d, 1)],
                    Chunk(1, PENDING_DELETE, Some(Expiry(cfg)), 1));
    LateKinds(cfg, data, digest);
    assert sts[..9] == sts;
    assert Pending(end, d) && !Alive(end, d);
    hide LateSteps, Late, IsRun, StateAfter, ValidConfig, Referenced, Pending;
    LateRun(cfg, data, digest);
    LateRefs(cfg, data, digest, Chunk(1, ACTIVE, None, 1));
    LateRefs(cfg, data, digest, Chunk(1, PENDING_DELETE, Some(Expiry(cfg)), 1));
  }
}
