/** The half of exactness that crashes lose. An ACTIVE row that nothing references
    stays for good, and counts against the quota; here is exactly which interrupted
    calls leave one, and a run from the empty store that does. */
module Orphans {
  import opened Bytes
  import opened Store
  import opened Safety
  import opened Operations
  import opened Exactness

  /** An ACTIVE row that nothing references and that no part row names. */
  ghost predicate Orphan(s: State, d: Digest) {
    d in s.chunks && s.chunks[d].state == ACTIVE && !Referenced(s, d)
    && forall k :: k in s.parts ==> s.parts[k].digest != d
  }

  /** Neither maintenance nor collection ever reclaims an orphan. */
  lemma OrphanStays(cfg: Config, s: State, d: Digest, now: int, dryRun: bool)
    requires Orphan(s, d) && LiveOk(s)
    ensures Orphan(RunMaintenance(s, now).0, d)
    ensures Orphan(CollectGarbage(cfg, s, now, dryRun).0, d)
  {
    var s1 := Settled(s, now);
    DropDeadIsDropSet(s1);
    var u := DropDeadParts(s1);
    var t := RunMaintenance(s, now).0;
    assert forall k :: k in u.parts ==> s.parts[k] == u.parts[k];
    assert forall k :: k in t.parts ==> t.parts[k].digest != d;
    assert ByArtifact(t, d) == ByArtifact(s, d);
    assert !Referenced(t, d);
    assert d !in DeadDigests(s1);
    NothingToRescue(cfg, s, now);
    var g := CollectGarbage(cfg, s, now, dryRun).0;
    assert g.artifacts == s.artifacts && g.parts == s.parts && g.sessions == s.sessions;
    SameRefs(s, g);
  }

  // ---- What recovery finds ---------------------------------------------------------------

  ghost predicate Active(s: State, d: Digest) { d in s.chunks && s.chunks[d].state == ACTIVE }

  /** Every ACTIVE row is referenced, or a part of a dead session still names it. */
  ghost predicate Found(s: State) {
    forall d :: Active(s, d) ==> Referenced(s, d) || d in DeadDigests(s)
  }

  lemma FoundThen(t: State, now: int, d: Digest)
    ensures var t1 := Settled(t, now);
            Referenced(t, d) || d in DeadDigests(t) <==> Referenced(t1, d) || d in DeadDigests(t1)
  {
    var t1 := Settled(t, now);
    DropDeadIsDropSet(t1);
    if Referenced(t, d) {
      RefsAfterDrop(t, t1, DeadIds(t1), d);
    } else if Referenced(t1, d) {
      RefsSubset(t, t1);
    } else if d in DeadDigests(t1) {
      var k :| k in t1.parts && DeadKey(t1, k) && t1.parts[k].digest == d;
      if !DeadKey(t, k) {
        LiveNamed(t, k);
      }
    }
  }

  lemma LiveNamed(t: State, k: PartKey)
    requires k in t.parts && LivePart(t, k)
    ensures Referenced(t, t.parts[k].digest)
  {
    assert ByUpload(t, t.parts[k].digest);
  }

  lemma RecoverIff(t: State, reopened: int)
    ensures NoOrphans(RunMaintenance(t, reopened).0) <==> Found(t)
  {
    RecoveryExactIff(t, reopened);
    hide RunMaintenance, Settled, NoOrphans, DeadDigests, Referenced;
    forall d ensures var t1 := Settled(t, reopened);
      Referenced(t, d) || d in DeadDigests(t) <==> Referenced(t1, d) || d in DeadDigests(t1)
    {
      FoundThen(t, reopened, d);
    }
    assert forall d :: Active(t, d) <==> d in t.chunks && t.chunks[d].state == ACTIVE;
  }

  lemma ExactFound(cfg: Config, s: State, now: int)
    requires Exact(cfg, s)
    ensures Found(s) && Found(ExpireAllDue(s, now)) && Found(Settled(s, now))
  {
    hide Referenced, DeadDigests, Safe;
    forall d | Active(s, d)
      ensures Referenced(s, d)
      ensures Referenced(ExpireAllDue(s, now), d) || d in DeadDigests(ExpireAllDue(s, now))
      ensures Referenced(Settled(s, now), d) || d in DeadDigests(Settled(s, now))
    {
      FoundThen(s, now, d);
      FoundExpired(s, now, d);
    }
  }

  lemma FoundExpired(s: State, now: int, d: Digest)
    requires Referenced(s, d)
    ensures Referenced(ExpireAllDue(s, now), d) || d in DeadDigests(ExpireAllDue(s, now))
  {
    var t := ExpireAllDue(s, now);
    DropDeadIsDropSet(t);
    RefsAfterDrop(s, t, DeadIds(t), d);
  }

  // ---- A cut in the marking loop -------------------------------------------------------------

  /** The plan still drops rows that name d. */
  ghost predicate NamedLater(s: State, p: seq<Action>, from: nat, d: Digest) {
    exists n :: from <= n < |p| && p[n].DropRows? && d in DigestsOf(s, p[n].id)
  }

  /** Statement j marks a row that is ACTIVE until then, in the loop the cut falls in, and
      no session whose rows are dropped later names its chunk. */
  ghost predicate Loses(s: State, p: seq<Action>, k: nat, j: nat)
    requires j < |p|
  {
    && k <= j && (forall i :: k <= i <= j ==> p[i].Mark?)
    && Active(s, p[j].digest) && p[j] !in p[..k]
    && !NamedLater(s, p, j + 1, p[j].digest)
  }

  /** What a plan cut off after k statements loses for good. */
  ghost predicate Lost(s: State, p: seq<Action>, k: nat)
    requires k <= |p|
  {
    exists j :: 0 <= j < |p| && Loses(s, p, k, j)
  }

  /** A session list on its way to retirement. */
  ghost predicate Retiring(s: State, ids: seq<SessionId>) {
    && Found(s)
    && (forall i, j :: 0 <= i < j < |ids| ==> ids[i] != ids[j])
    && (forall id :: id in ids ==> id in s.sessions && Dead(s.sessions[id].state))
    && forall k :: k in s.parts && DeadKey(s, k) ==> k.session in ids
  }

  lemma AfterNone(cfg: Config, s: State, now: int)
    ensures After(cfg, s, [], now) == s
  {
  }

  lemma MarkOne(s: State, d: Digest, now: int)
    requires !Referenced(s, d)
    ensures var t := MarkAll(s, {d}, now);
            && t == s.(chunks := t.chunks)
            && (forall e :: Active(t, e) <==> Active(s, e) && e != d)
            && forall e :: Referenced(t, e) <==> Referenced(s, e)
  {
    SameRefs(s, MarkAll(s, {d}, now));
    hide Referenced;
  }

  /** A run of marks changes just the rows it names. */
  lemma {:induction false} MarksDone(cfg: Config, s: State, p: seq<Action>, now: int)
    requires Runs(cfg, s, p, now) && forall a :: a in p ==> a.Mark?
    ensures var t := After(cfg, s, p, now);
            && t == s.(chunks := t.chunks)
            && (forall d :: Active(t, d) <==> Active(s, d) && Mark(d) !in p)
            && forall d :: Referenced(t, d) <==> Referenced(s, d)
    decreases |p|
  {
    hide MarkAll, Referenced, Active;
    if p != [] {
      var t := MarkAll(s, {p[0].digest}, now);
      MarkOne(s, p[0].digest, now);
      assert p[0] in p && forall a :: a in p[1..] ==> a in p;
      assert forall d :: Mark(d) in p <==> d == p[0].digest || Mark(d) in p[1..];
      MarksDone(cfg, t, p[1..], now);
    }
  }

  lemma {:induction false} MarkListHas(s: State, ds: seq<Digest>)
    ensures forall a :: a in MarkList(s, ds) ==> a.Mark?
    ensures forall d :: Mark(d) in MarkList(s, ds) <==> d in ds && !Referenced(s, d)
  {
    hide Referenced;
    if ds != [] {
      MarkListHas(s, ds[1..]);
      assert forall d :: d in ds <==> d == ds[0] || d in ds[1..];
    }
  }

  predicate Once<T(==)>(xs: seq<T>) { forall j :: 0 <= j < |xs| ==> xs[j] !in xs[..j] }

  lemma OnceMore<T>(x: T, xs: seq<T>)
    requires Once(xs) && x !in xs
    ensures Once([x] + xs)
  {
    var p := [x] + xs;
    forall j | 0 < j < |p| ensures p[j] !in p[..j] {
      assert p[..j] == [x] + xs[..j - 1] && p[j] == xs[j - 1];
      assert xs[j - 1] !in xs[..j - 1];
    }
  }

  /** Each digest once in the listing, each mark once in the loop. */
  lemma {:induction false} MarkListOnce(s: State, ds: seq<Digest>)
    requires forall i, j :: 0 <= i < j < |ds| ==> ds[i] != ds[j]
    ensures Once(MarkList(s, ds))
  {
    if ds != [] {
      var rest := ds[1..];
      assert ds[0] !in rest;
      hide Once, Referenced;
      MarkListOnce(s, rest);
      MarkListHas(s, rest);
      if !Referenced(s, ds[0]) {
        OnceMore(Mark(ds[0]), MarkList(s, rest));
      }
    } else {
      hide Referenced;
    }
  }

  lemma RetirePlanIs(s: State, id: SessionId)
    ensures var p, ds := RetirePlan(s, id), Listing(DigestsOf(s, id));
            && p == [DropRows(id)] + MarkList(DropParts(s, id), ds)
            && (forall d :: d in ds <==> d in DigestsOf(s, id))
            && (forall i :: 1 <= i < |p| ==> p[i].Mark?)
            && (forall d :: Mark(d) in p <==> d in DigestsOf(s, id) && !Referenced(DropParts(s, id), d))
            && Once(p)
  {
    var ds := UniqueListing(DigestsOf(s, id));
    assert forall d :: d in ds <==> d in Elems(ds);
    hide Referenced, MarkList, DropParts, DigestsOf, Listing, Once;
    var u, p := DropParts(s, id), RetirePlan(s, id);
    var q := MarkList(u, ds);
    MarkListHas(u, ds);
    MarkListOnce(u, ds);
    OnceMore(DropRows(id), q);
    assert forall i :: 1 <= i < |p| ==> p[i] == q[i - 1] && q[i - 1] in q;
  }

  lemma {:induction false} LaterDrops(s: State, ids: seq<SessionId>, now: int)
    ensures var q := RetireAllPlan(s, ids, now);
            && (q == [] <==> ids == []) && (q != [] ==> q[0].DropRows?)
            && (forall a :: a in q && a.DropRows? ==> a.id in ids)
            && forall id :: id in ids ==> DropRows(id) in q
    decreases |ids|
  {
    if ids != [] {
      RetirePlanIs(s, ids[0]);
      LaterDrops(MarkParts(s, ids[0], now), ids[1..], now);
      hide RetirePlan, MarkParts, Referenced, DigestsOf;
      var p, q := RetirePlan(s, ids[0]), RetireAllPlan(MarkParts(s, ids[0], now), ids[1..], now);
      assert RetireAllPlan(s, ids, now) == p + q;
      assert forall a :: a in p && a.DropRows? ==> a == p[0];
      assert p[0] in p && forall id :: id in ids <==> id == ids[0] || id in ids[1..];
    }
  }

  /** Dropping a dead session's rows leaves every reference. */
  lemma DeadRefs(s: State, id: SessionId)
    requires id in s.sessions && Dead(s.sessions[id].state)
    ensures forall d :: Referenced(DropParts(s, id), d) <==> Referenced(s, d)
  {
    RefsSubset(s, DropParts(s, id));
    RefsSubset(DropParts(s, id), s);
  }

  /** A prefix that runs, then more, which may stop early. */
  lemma {:induction false} AfterTwo(cfg: Config, s: State, p: seq<Action>, q: seq<Action>, now: int)
    requires Runs(cfg, s, p, now)
    ensures After(cfg, s, p + q, now) == After(cfg, After(cfg, s, p, now), q, now)
    decreases |p|
  {
    hide Enabled, Apply;
    if p == [] {
      assert p + q == q;
    } else {
      assert (p + q)[0] == p[0] && (p + q)[1..] == p[1..] + q;
      AfterTwo(cfg, Apply(cfg, s, p[0], now), p[1..], q, now);
    }
  }

  lemma DropFirst(cfg: Config, s: State, id: SessionId, now: int)
    requires id in s.sessions && Dead(s.sessions[id].state)
    ensures Runs(cfg, s, [DropRows(id)], now) && After(cfg, s, [DropRows(id)], now) == DropParts(s, id)
    ensures DropParts(s, id) == s.(parts := DropParts(s, id).parts)
    ensures forall d :: Active(DropParts(s, id), d) <==> Active(s, d)
  {
    assert Enabled(cfg, s, DropRows(id), now) && Apply(cfg, s, DropRows(id), now) == DropParts(s, id);
    hide Enabled, Apply;
    RunOne(cfg, s, DropRows(id), now);
  }

  /** After k statements of a session's retirement. */
  lemma SegmentState(cfg: Config, s: State, id: SessionId, k: nat, now: int)
    requires id in s.sessions && Dead(s.sessions[id].state) && 1 <= k <= |RetirePlan(s, id)|
    ensures var p, t := RetirePlan(s, id)[..k], After(cfg, s, RetirePlan(s, id)[..k], now);
            && t == DropParts(s, id).(chunks := t.chunks)
            && (forall d :: Active(t, d) <==> Active(s, d) && Mark(d) !in p)
            && forall d :: Referenced(t, d) <==> Referenced(s, d)
  {
    var u, ds := DropParts(s, id), Listing(DigestsOf(s, id));
    hide *;
    DropFirst(cfg, s, id, now);
    RetirePlanIs(s, id);
    DeadRefs(s, id);
    var q := MarkList(u, ds);
    MarkListRuns(cfg, u, ds, now);
    RunsPrefix(cfg, u, q, k - 1, now);
    MarkListHas(u, ds);
    assert RetirePlan(s, id)[..k] == [DropRows(id)] + q[..k - 1];
    assert forall a :: a in q[..k - 1] ==> a in q;
    AfterTwo(cfg, s, [DropRows(id)], q[..k - 1], now);
    MarksDone(cfg, u, q[..k - 1], now);
  }

  lemma RetiringRest(s: State, id: SessionId, rest: seq<SessionId>)
    requires Retiring(s, [id] + rest)
    ensures Found(s) && id in s.sessions && Dead(s.sessions[id].state)
    ensures forall i :: i in rest ==> i != id && i in s.sessions && Dead(s.sessions[i].state)
    ensures forall i, j :: 0 <= i < j < |rest| ==> rest[i] != rest[j]
    ensures forall k :: k in s.parts && DeadKey(s, k) ==> k.session == id || k.session in rest
  {
    var ids := [id] + rest;
    assert ids[0] == id && forall i :: 0 <= i < |rest| ==> ids[i + 1] == rest[i];
    hide Found;
    forall i | i in rest ensures i != id && i in ids {
      var n :| 0 <= n < |rest| && rest[n] == i;
      assert ids[n + 1] == i;
    }
  }

  /** What the rows left after one session's are dropped still name. */
  lemma NamesAfter(s: State, t: State, id: SessionId, rest: seq<SessionId>, d: Digest)
    requires t == DropParts(s, id).(chunks := t.chunks)
    requires forall k :: k in s.parts && DeadKey(s, k) ==> k.session == id || k.session in rest
    requires forall i :: i in rest ==> i != id && i in s.sessions && Dead(s.sessions[i].state)
    ensures d in DeadDigests(t) <==> exists i :: i in rest && d in DigestsOf(s, i)
    ensures id in s.sessions && Dead(s.sessions[id].state) ==>
              (d in DeadDigests(s) <==> d in DeadDigests(t) || d in DigestsOf(s, id))
  {
    if d in DeadDigests(t) {
      var k :| k in t.parts && DeadKey(t, k) && t.parts[k].digest == d;
      assert k.session != id;
      assert d in DigestsOf(s, k.session);
    }
    forall i | i in rest && d in DigestsOf(s, i) ensures d in DeadDigests(t) {
      var k :| k in s.parts && k.session == i && s.parts[k].digest == d;
      assert k in t.parts && DeadKey(t, k);
    }
    if id in s.sessions && Dead(s.sessions[id].state) {
      OneMoreDead(s, t, id, d);
    }
  }

  lemma OneMoreDead(s: State, t: State, id: SessionId, d: Digest)
    requires t == DropParts(s, id).(chunks := t.chunks) && id in s.sessions && Dead(s.sessions[id].state)
    ensures d in DeadDigests(s) <==> d in DeadDigests(t) || d in DigestsOf(s, id)
  {
    if d in DeadDigests(s) {
      var k :| k in s.parts && DeadKey(s, k) && s.parts[k].digest == d;
      assert k.session == id || (k in t.parts && DeadKey(t, k));
    }
  }

  lemma NamedIn(s: State, p0: seq<Action>, q: seq<Action>, rest: seq<SessionId>, d: Digest, from: nat)
    requires 1 <= from <= |p0| && forall i :: 1 <= i < |p0| ==> p0[i].Mark?
    requires forall a :: a in q && a.DropRows? ==> a.id in rest
    requires forall id :: id in rest ==> DropRows(id) in q
    ensures NamedLater(s, p0 + q, from, d) <==> exists i :: i in rest && d in DigestsOf(s, i)
  {
    hide DigestsOf;
    var p := p0 + q;
    if NamedLater(s, p, from, d) {
      var n :| from <= n < |p| && p[n].DropRows? && d in DigestsOf(s, p[n].id);
      assert n >= |p0| && p[n] == q[n - |p0|] && p[n] in q;
    }
    forall i | i in rest && d in DigestsOf(s, i) ensures NamedLater(s, p, from, d) {
      assert DropRows(i) in q;
      var n :| 0 <= n < |q| && q[n] == DropRows(i);
      assert p[|p0| + n] == DropRows(i);
    }
  }

  lemma LaterNames(s: State, id: SessionId, rest: seq<SessionId>, now: int, d: Digest, j: nat)
    requires j < |RetirePlan(s, id)|
    ensures var p0, q := RetirePlan(s, id), RetireAllPlan(MarkParts(s, id, now), rest, now);
            && (q != [] ==> (p0 + q)[|p0|].DropRows?)
            && (NamedLater(s, p0 + q, j + 1, d) <==> exists i :: i in rest && d in DigestsOf(s, i))
  {
    hide *;
    var p0, q := RetirePlan(s, id), RetireAllPlan(MarkParts(s, id, now), rest, now);
    RetirePlanIs(s, id);
    LaterDrops(MarkParts(s, id, now), rest, now);
    assert q != [] ==> (p0 + q)[|p0|] == q[0];
    NamedIn(s, p0, q, rest, d, j + 1);
  }

  /** A cut in a session's loop, after its rows are dropped. */
  lemma SegmentCut(cfg: Config, s: State, id: SessionId, rest: seq<SessionId>, k: nat, now: int)
    requires Retiring(s, [id] + rest) && 1 <= k < |RetirePlan(s, id)|
    ensures var p := RetirePlan(s, id) + RetireAllPlan(MarkParts(s, id, now), rest, now);
            Found(After(cfg, s, RetirePlan(s, id)[..k], now)) <==> !Lost(s, p, k)
  {
    hide *;
    var p0, q := RetirePlan(s, id), RetireAllPlan(MarkParts(s, id, now), rest, now);
    var p := p0 + q;
    var t := After(cfg, s, p0[..k], now);
    RetiringRest(s, id, rest);
    SegmentState(cfg, s, id, k, now);
    RetirePlanIs(s, id);
    DeadRefs(s, id);
    assert p[..k] == p0[..k];
    if !Found(t) {
      var d := NotFound(t);
      NamesAfter(s, t, id, rest, d);
      FoundAt(s, d);
      var j := IndexOf(p0, Mark(d), k);
      LaterNames(s, id, rest, now, d, j);
      LosesAt(s, p, k, j);
    }
    if Lost(s, p, k) {
      var j := LostAt(s, p, k);
      LaterNames(s, id, rest, now, p[j].digest, if j < |p0| then j else 0);
      InLoop(p0, q, k, j);
      NamesAfter(s, t, id, rest, p[j].digest);
      MissedAt(t, p[j].digest);
    }
  }

  lemma NotFound(t: State) returns (d: Digest)
    requires !Found(t)
    ensures Active(t, d) && !Referenced(t, d) && d !in DeadDigests(t)
  {
    hide Active, Referenced, DeadDigests;
    d :| Active(t, d) && !(Referenced(t, d) || d in DeadDigests(t));
  }

  lemma FoundAt(s: State, d: Digest)
    requires Found(s) && Active(s, d)
    ensures Referenced(s, d) || d in DeadDigests(s)
  {
    hide Active, Referenced, DeadDigests;
  }

  lemma MissedAt(s: State, d: Digest)
    requires Active(s, d) && !Referenced(s, d) && d !in DeadDigests(s)
    ensures !Found(s)
  {
    hide Active, Referenced, DeadDigests;
  }

  lemma IndexOf<T>(xs: seq<T>, x: T, k: nat) returns (j: nat)
    requires x in xs && k <= |xs| && x !in xs[..k]
    ensures k <= j < |xs| && xs[j] == x
  {
    j :| 0 <= j < |xs| && xs[j] == x;
  }

  lemma LosesAt(s: State, p: seq<Action>, k: nat, j: nat)
    requires k <= j < |p| && (forall i :: k <= i <= j ==> p[i].Mark?)
    requires Active(s, p[j].digest) && p[j] !in p[..k] && !NamedLater(s, p, j + 1, p[j].digest)
    ensures Lost(s, p, k)
  {
    hide Active, DigestsOf;
    assert Loses(s, p, k, j);
  }

  lemma LostAt(s: State, p: seq<Action>, k: nat) returns (j: nat)
    requires k <= |p| && Lost(s, p, k)
    ensures k <= j < |p| && (forall i :: k <= i <= j ==> p[i].Mark?)
    ensures Active(s, p[j].digest) && p[j] !in p[..k] && !NamedLater(s, p, j + 1, p[j].digest)
  {
    hide Active, DigestsOf;
    j :| 0 <= j < |p| && Loses(s, p, k, j);
  }

  lemma InLoop(p: seq<Action>, q: seq<Action>, k: nat, j: nat)
    requires k < |p| && k <= j < |p + q| && (q != [] ==> (p + q)[|p|].DropRows?)
    requires forall i :: k <= i <= j ==> (p + q)[i].Mark?
    ensures j < |p| && (p + q)[j] in p
  {
    assert j < |p| ==> (p + q)[j] == p[j];
  }

  // ---- A cut anywhere in a retirement -----------------------------------------------------------

  lemma RetiringNext(s: State, id: SessionId, rest: seq<SessionId>, now: int)
    requires Retiring(s, [id] + rest)
    ensures Retiring(MarkParts(s, id, now), rest)
    ensures forall d :: Active(MarkParts(s, id, now), d) <==> Active(s, d) && Mark(d) !in RetirePlan(s, id)
    ensures forall i :: i in rest ==> DigestsOf(MarkParts(s, id, now), i) == DigestsOf(s, i)
  {
    var u, t := DropParts(s, id), MarkParts(s, id, now);
    MarkedActive(u, DigestsOf(s, id), now);
    assert t.chunks.Keys == s.chunks.Keys && t.sessions == s.sessions && t.parts == u.parts;
    assert t == u.(chunks := t.chunks);
    assert forall d :: Active(u, d) <==> Active(s, d);
    hide *;
    RetiringRest(s, id, rest);
    RetirePlanIs(s, id);
    DeadRefs(s, id);
    SameDigests(s, t, id, rest);
    forall d | Active(t, d) ensures Referenced(t, d) || d in DeadDigests(t) {
      NamesAfter(s, t, id, rest, d);
      FoundAt(s, d);
    }
    RetiringIs(s, t, id, rest);
  }

  lemma RetiringIs(s: State, t: State, id: SessionId, rest: seq<SessionId>)
    requires t == DropParts(s, id).(chunks := t.chunks)
    requires forall d :: Active(t, d) ==> Referenced(t, d) || d in DeadDigests(t)
    requires forall i :: i in rest ==> i in s.sessions && Dead(s.sessions[i].state)
    requires forall i, j :: 0 <= i < j < |rest| ==> rest[i] != rest[j]
    requires forall k :: k in s.parts && DeadKey(s, k) ==> k.session == id || k.session in rest
    ensures Retiring(t, rest)
  {
    hide Active, Referenced, DeadDigests;
  }

  lemma SameDigests(s: State, t: State, id: SessionId, rest: seq<SessionId>)
    requires t == DropParts(s, id).(chunks := t.chunks) && forall i :: i in rest ==> i != id
    ensures forall i :: i in rest ==> DigestsOf(t, i) == DigestsOf(s, i)
  {
  }

  lemma MarkedActive(u: State, ds: set<Digest>, now: int)
    ensures var t := MarkAll(u, ds, now);
            && (forall d :: Active(t, d) <==> Active(u, d) && !(d in ds && !Referenced(u, d)))
            && forall d :: Referenced(t, d) <==> Referenced(u, d)
  {
    SameRefs(u, MarkAll(u, ds, now));
    hide Referenced;
  }

  /** What is lost after a whole session's retirement is what the rest of it loses. */
  lemma LostShift(s: State, t: State, p: seq<Action>, q: seq<Action>, k: nat)
    requires k <= |q|
    requires forall d :: Active(t, d) <==> Active(s, d) && Mark(d) !in p
    requires forall a :: a in q && a.DropRows? ==> DigestsOf(t, a.id) == DigestsOf(s, a.id)
    ensures Lost(s, p + q, |p| + k) <==> Lost(t, q, k)
  {
    hide Active, DigestsOf;
    var all := p + q;
    assert all[..|p| + k] == p + q[..k];
    if Lost(s, all, |p| + k) {
      var j := LostAt(s, all, |p| + k);
      assert all[j] == q[j - |p|];
      assert forall i :: k <= i <= j - |p| ==> q[i] == all[|p| + i];
      NamedShift(s, t, p, q, j - |p| + 1, all[j].digest);
      LosesAt(t, q, k, j - |p|);
    }
    if Lost(t, q, k) {
      var j := LostAt(t, q, k);
      assert all[j + |p|] == q[j];
      assert forall i :: |p| + k <= i <= j + |p| ==> all[i] == q[i - |p|];
      NamedShift(s, t, p, q, j + 1, q[j].digest);
      LosesAt(s, all, |p| + k, j + |p|);
    }
  }

  lemma NamedShift(s: State, t: State, p: seq<Action>, q: seq<Action>, from: nat, d: Digest)
    requires forall a :: a in q && a.DropRows? ==> DigestsOf(t, a.id) == DigestsOf(s, a.id)
    ensures NamedLater(s, p + q, |p| + from, d) <==> NamedLater(t, q, from, d)
  {
    hide DigestsOf;
    var all := p + q;
    if NamedLater(s, all, |p| + from, d) {
      var n :| |p| + from <= n < |all| && all[n].DropRows? && d in DigestsOf(s, all[n].id);
      assert q[n - |p|] == all[n] && all[n] in q;
    }
    if NamedLater(t, q, from, d) {
      var n :| from <= n < |q| && q[n].DropRows? && d in DigestsOf(t, q[n].id);
      assert all[n + |p|] == q[n] && q[n] in q;
    }
  }

  lemma NotMark(s: State, p: seq<Action>, k: nat)
    requires k <= |p| && (k < |p| ==> !p[k].Mark?)
    ensures !Lost(s, p, k)
  {
    hide Active, NamedLater;
  }

  /** Retiring sessions one after the other, cut off after k statements. */
  lemma {:induction false} RetireAllCut(cfg: Config, s: State, ids: seq<SessionId>, k: nat, now: int)
    requires Retiring(s, ids) && k <= |RetireAllPlan(s, ids, now)|
    ensures Found(After(cfg, s, RetireAllPlan(s, ids, now)[..k], now)) <==> !Lost(s, RetireAllPlan(s, ids, now), k)
    decreases |ids|
  {
    hide *;
    var p := RetireAllPlan(s, ids, now);
    LaterDrops(s, ids, now);
    if k == 0 {
      assert p[..0] == [];
      AfterNone(cfg, s, now);
      RetiringFound(s, ids);
      NotMark(s, p, 0);
    } else {
      var id, rest := ids[0], ids[1..];
      assert ids == [id] + rest;
      var p0, t := RetirePlan(s, id), MarkParts(s, id, now);
      var q := RetireAllPlan(t, rest, now);
      RetireAllStep(s, ids, now);
      if k < |p0| {
        assert p[..k] == p0[..k];
        SegmentCut(cfg, s, id, rest, k, now);
      } else {
        var n := k - |p0|;
        assert p[..k] == p0 + q[..n];
        RetiringRest(s, id, rest);
        RetireRuns(cfg, s, id, now);
        AfterTwo(cfg, s, p0, q[..n], now);
        RetiringNext(s, id, rest, now);
        RetireAllCut(cfg, t, rest, n, now);
        LaterDrops(t, rest, now);
        LostShift(s, t, p0, q, n);
      }
    }
  }

  lemma RetiringFound(s: State, ids: seq<SessionId>)
    requires Retiring(s, ids)
    ensures Found(s)
  {
  }

  lemma RetireAllStep(s: State, ids: seq<SessionId>, now: int)
    requires ids != []
    ensures RetireAllPlan(s, ids, now) ==
            RetirePlan(s, ids[0]) + RetireAllPlan(MarkParts(s, ids[0], now), ids[1..], now)
  {
    hide RetirePlan, MarkParts;
  }

  // ---- Any call cut off --------------------------------------------------------------------------

  lemma ExactOrphans(cfg: Config, s: State)
    requires Exact(cfg, s)
    ensures NoOrphans(s)
  {
  }

  lemma ExpirePlanIs(s: State, id: SessionId, now: int)
    requires id in s.sessions && Due(s.sessions[id], now)
    ensures var t := WithState(s, id, EXPIRED);
            ExpirePlan(s, id, now) == [ExpireOne(id)] + RetirePlan(t, id)
            && RetireAllPlan(t, [id], now) == RetirePlan(t, id)
  {
    var t := WithState(s, id, EXPIRED);
    RetireAllStep(t, [id], now);
    hide RetirePlan, MarkParts;
    assert [id][1..] == [];
  }

  lemma ExpireFirst(cfg: Config, s: State, id: SessionId, now: int)
    requires id in s.sessions && Due(s.sessions[id], now)
    ensures Runs(cfg, s, [ExpireOne(id)], now)
    ensures After(cfg, s, [ExpireOne(id)], now) == WithState(s, id, EXPIRED)
  {
    assert Enabled(cfg, s, ExpireOne(id), now);
    RunOne(cfg, s, ExpireOne(id), now);
  }

  /** An expired session, its rows still there. */
  lemma ExpiredRetiring(cfg: Config, s: State, id: SessionId)
    requires Exact(cfg, s) && id in s.sessions
    ensures var t := WithState(s, id, EXPIRED);
            Retiring(t, [id]) && t == s.(sessions := t.sessions) && DigestsOf(t, id) == DigestsOf(s, id)
  {
    var t := WithState(s, id, EXPIRED);
    hide Safe;
    forall d | Active(t, d) ensures Referenced(t, d) || d in DeadDigests(t) {
      RefsAfterDrop(s, t, {id}, d);
      if !Referenced(t, d) {
        var k :| k in s.parts && k.session in {id} && s.parts[k].digest == d;
        assert DeadKey(t, k);
      }
    }
    hide Referenced, DeadDigests;
  }

  /** Statements that neither mark nor drop, behind or in front, change nothing. */
  lemma LostTail(s: State, p: seq<Action>, q: seq<Action>, k: nat)
    requires k <= |p| && forall a :: a in q ==> !a.Mark? && !a.DropRows?
    ensures Lost(s, p + q, k) <==> Lost(s, p, k)
  {
    hide Active, DigestsOf;
    var all := p + q;
    assert all[..k] == p[..k];
    assert forall i :: |p| <= i < |all| ==> all[i] == q[i - |p|] && all[i] in q;
    forall d, from: nat ensures NamedLater(s, all, from, d) <==> NamedLater(s, p, from, d) {
      if NamedLater(s, p, from, d) {
        var n :| from <= n < |p| && p[n].DropRows? && d in DigestsOf(s, p[n].id);
        assert all[n] == p[n];
      }
    }
    hide NamedLater;
    if Lost(s, all, k) {
      var j := LostAt(s, all, k);
      assert all[j] == p[j] && forall i :: k <= i <= j ==> all[i] == p[i];
      LosesAt(s, p, k, j);
    }
    if Lost(s, p, k) {
      var j := LostAt(s, p, k);
      assert forall i :: k <= i <= j ==> all[i] == p[i];
      LosesAt(s, all, k, j);
    }
  }

  /** An expiry cut after k of its statements, the state change being the first. */
  lemma AfterExpire(cfg: Config, s: State, id: SessionId, now: int, k: nat)
    requires id in s.sessions && 1 <= k < |ExpirePlan(s, id, now)|
    ensures var t := WithState(s, id, EXPIRED);
            && k <= |RetirePlan(t, id)| + 1
            && After(cfg, s, ExpirePlan(s, id, now)[..k], now) == After(cfg, t, RetirePlan(t, id)[..k - 1], now)
  {
    assert Due(s.sessions[id], now);
    hide *;
    ExpirePlanIs(s, id, now);
    var r := RetirePlan(WithState(s, id, EXPIRED), id);
    assert ExpirePlan(s, id, now)[..k] == [ExpireOne(id)] + r[..k - 1];
    ExpireFirst(cfg, s, id, now);
    AfterTwo(cfg, s, [ExpireOne(id)], r[..k - 1], now);
  }

  lemma ExpireLost(cfg: Config, s: State, id: SessionId, now: int, k: nat)
    requires Exact(cfg, s) && id in s.sessions && 1 <= k < |ExpirePlan(s, id, now)|
    ensures var r := RetirePlan(WithState(s, id, EXPIRED), id);
            k - 1 <= |r|
            && (Lost(s, ExpirePlan(s, id, now), k) <==> Lost(WithState(s, id, EXPIRED), r, k - 1))
  {
    assert Due(s.sessions[id], now);
    hide *;
    var t := WithState(s, id, EXPIRED);
    var r := RetirePlan(t, id);
    ExpirePlanIs(s, id, now);
    ExpiredRetiring(cfg, s, id);
    RetirePlanIs(t, id);
    OneDrop(r, id);
    SameActive(s, t);
    LostShift(s, t, [ExpireOne(id)], r, k - 1);
  }

  lemma ExpireCut(cfg: Config, s: State, id: SessionId, now: int, k: nat)
    requires Exact(cfg, s) && id in s.sessions && k < |ExpirePlan(s, id, now)|
    ensures Found(After(cfg, s, ExpirePlan(s, id, now)[..k], now)) <==> !Lost(s, ExpirePlan(s, id, now), k)
  {
    assert Due(s.sessions[id], now);
    hide *;
    var e, t := ExpirePlan(s, id, now), WithState(s, id, EXPIRED);
    ExpirePlanIs(s, id, now);
    if k == 0 {
      assert e[..0] == [] && !e[0].Mark?;
      AfterNone(cfg, s, now);
      ExactFound(cfg, s, now);
      NotMark(s, e, 0);
    } else {
      AfterExpire(cfg, s, id, now, k);
      ExpireLost(cfg, s, id, now, k);
      ExpiredRetiring(cfg, s, id);
      RetireAllCut(cfg, t, [id], k - 1, now);
    }
  }

  lemma SameActive(s: State, t: State)
    requires t.chunks == s.chunks
    ensures forall d :: Active(t, d) <==> Active(s, d)
  {
  }

  lemma OneDrop(r: seq<Action>, id: SessionId)
    requires r != [] && r[0] == DropRows(id) && forall i :: 1 <= i < |r| ==> r[i].Mark?
    ensures forall a :: a in r && a.DropRows? ==> a.id == id
  {
  }

  lemma OneLoop(s: State, id: SessionId, r: seq<Action>, k: nat)
    requires r != [] && Once(r) && forall i :: 1 <= i < |r| ==> r[i].Mark?
    requires 2 <= k <= |r| && Active(s, r[k - 1].digest)
    ensures Lost(s, [ExpireOne(id)] + r, k)
  {
    var e := [ExpireOne(id)] + r;
    assert e[..k] == [ExpireOne(id)] + r[..k - 1];
    assert forall i :: k <= i < |e| ==> e[i] == r[i - 1] && e[i].Mark?;
    assert r[k - 1] !in r[..k - 1];
    hide Active, Once, DigestsOf;
    assert !NamedLater(s, e, k + 1, e[k].digest);
    LosesAt(s, e, k, k);
  }

  /** Each mark of an expiry is on a row that is ACTIVE till then, and no later statement
      would lead recovery to it. */
  lemma ExpireMarks(cfg: Config, s: State, id: SessionId, now: int, k: nat)
    requires Exact(cfg, s) && id in s.sessions && k < |ExpirePlan(s, id, now)|
    ensures var e := ExpirePlan(s, id, now); Lost(s, e, k) <==> e[k].Mark?
  {
    assert Due(s.sessions[id], now);
    hide *;
    var e, t := ExpirePlan(s, id, now), WithState(s, id, EXPIRED);
    var r := RetirePlan(t, id);
    ExpirePlanIs(s, id, now);
    RetirePlanIs(t, id);
    ExpiredRetiring(cfg, s, id);
    if e[k].Mark? {
      var d := e[k].digest;
      assert e[k] == r[k - 1] && r[k - 1] in r;
      OwnActive(cfg, s, id, now, d);
      OneLoop(s, id, r, k);
    } else {
      NotMark(s, e, k);
    }
  }

  lemma OwnActive(cfg: Config, s: State, id: SessionId, now: int, d: Digest)
    requires Exact(cfg, s) && id in s.sessions && Due(s.sessions[id], now) && d in DigestsOf(s, id)
    ensures Active(s, d)
  {
    var k :| k in s.parts && k.session == id && s.parts[k].digest == d;
    LiveNamed(s, k);
    ActiveIffReferenced(cfg, s, d);
  }

  lemma RemovalOrphans(cfg: Config, s: State, a: Action, now: int)
    requires NoOrphans(s) && (a.Unlink? || a.DropRow?) && Enabled(cfg, s, a, now)
    ensures NoOrphans(Apply(cfg, s, a, now))
  {
    SameRefs(s, Apply(cfg, s, a, now));
    hide Referenced;
  }

  lemma {:induction false} RemovalsOrphans(cfg: Config, s: State, p: seq<Action>, now: int)
    requires NoOrphans(s) && Runs(cfg, s, p, now) && forall a :: a in p ==> a.Unlink? || a.DropRow?
    ensures NoOrphans(After(cfg, s, p, now))
    decreases |p|
  {
    hide NoOrphans, Enabled, Apply;
    if p != [] {
      RemovalOrphans(cfg, s, p[0], now);
      RemovalsOrphans(cfg, Apply(cfg, s, p[0], now), p[1..], now);
    }
  }

  lemma {:induction false} SweepRemoves(ds: seq<Digest>)
    ensures forall a :: a in SweepPlan(ds) ==> a.Unlink? || a.DropRow?
  {
    if ds != [] {
      SweepRemoves(ds[1..]);
    }
  }

  lemma GcPlan(cfg: Config, s: State, now: int)
    ensures forall a :: a in Plan(cfg, s, GcOp(false), now) ==> a.Unlink? || a.DropRow?
  {
    SweepRemoves(Listing(Garbage(cfg, s, now)));
    hide SweepPlan, Garbage;
  }

  lemma SweepCut(cfg: Config, s: State, now: int, k: nat)
    requires ValidConfig(cfg) && Safe(cfg, s) && NoOrphans(s) && k < |Plan(cfg, s, GcOp(false), now)|
    ensures NoOrphans(After(cfg, s, Plan(cfg, s, GcOp(false), now)[..k], now))
    ensures !Plan(cfg, s, GcOp(false), now)[k].Mark?
  {
    hide *;
    var p := Plan(cfg, s, GcOp(false), now);
    GcPlan(cfg, s, now);
    GcAdmissible(cfg, s);
    PlanRuns(cfg, s, GcOp(false), now);
    RunsPrefix(cfg, s, p, k, now);
    RemovalsOrphans(cfg, s, p[..k], now);
    assert p[k] in p;
  }

  lemma GcAdmissible(cfg: Config, s: State)
    ensures Admissible(cfg, s, GcOp(false))
  {
  }

  /** The calls that expire their session first. */
  predicate OnSession(op: Op) { op.PutOp? || op.CommitOp? || op.FailOp? }

  /** Past its expiry a put or commit passes only through exact states. */
  lemma RestCut(cfg: Config, s: State, op: Op, now: int, k: nat)
    requires ValidConfig(cfg) && Exact(cfg, s) && Admissible(cfg, s, op) && OnSession(op)
    requires op.id in s.sessions && !Due(s.sessions[op.id], now) && k < |RestPlan(cfg, s, op)|
    ensures NoOrphans(After(cfg, s, RestPlan(cfg, s, op)[..k], now)) && !RestPlan(cfg, s, op)[k].Mark?
  {
    var p := RestPlan(cfg, s, op);
    hide CheckUpload, Count;
    ExactOrphans(cfg, s);
    if k == 0 {
      assert p[..0] == [];
    } else if op.PutOp? {
      StoreExact(cfg, s, op.data);
      FirstOnly(cfg, s, p, now);
    } else {
      BeginExact(cfg, s, op.id);
      FirstOnly(cfg, s, p, now);
    }
    hide Exact, NoOrphans;
  }

  lemma FirstOnly(cfg: Config, s: State, p: seq<Action>, now: int)
    requires |p| > 0 && Enabled(cfg, s, p[0], now)
    ensures After(cfg, s, p[..1], now) == Apply(cfg, s, p[0], now)
  {
    assert p[..1] == [p[0]];
    RunOne(cfg, s, p[0], now);
  }

  ghost function RestPlan(cfg: Config, s: State, op: Op): seq<Action>
    requires OnSession(op)
    requires op.id in s.sessions
  {
    if op.PutOp? then PutPlan(cfg, s, op.id, op.ordinal, op.data)
    else if op.CommitOp? then CommitPlan(cfg, s, op.id, op.room)
    else if op.stored then [Put(op.data)] else []
  }

  lemma SessionPlan(cfg: Config, s: State, op: Op, now: int)
    requires OnSession(op)
    ensures op.id !in s.sessions ==> Plan(cfg, s, op, now) == []
    ensures op.id in s.sessions ==>
              Plan(cfg, s, op, now) ==
              ExpirePlan(s, op.id, now) + RestPlan(cfg, ExpireIfDue(s, op.id, now), op)
    ensures Admissible(cfg, s, op) ==> forall t: State :: Admissible(cfg, t, op)
  {
    hide ExpirePlan, ExpireIfDue, PutPlan, CommitPlan;
  }

  /** The statements of a put or commit after the expiry neither mark nor drop. */
  lemma RestPlain(cfg: Config, s: State, op: Op)
    requires OnSession(op) && op.id in s.sessions
    ensures forall a :: a in RestPlan(cfg, s, op) ==> !a.Mark? && !a.DropRows?
  {
    hide CheckUpload, Count;
  }

  /** The cut of a put or commit falls in the expiry or after it. */
  lemma SessionCut(cfg: Config, s: State, op: Op, now: int, k: nat)
    requires ValidConfig(cfg) && Exact(cfg, s) && Admissible(cfg, s, op) && OnSession(op)
    requires k < |Plan(cfg, s, op, now)|
    ensures var p := Plan(cfg, s, op, now);
            && (Found(After(cfg, s, p[..k], now)) <==> !Lost(s, p, k))
            && (Lost(s, p, k) <==> p[k].Mark?)
  {
    assert op.PutOp? || op.CommitOp? || op.FailOp?;
    hide *;
    SessionPlan(cfg, s, op, now);
    var e := ExpirePlan(s, op.id, now);
    var s1 := ExpireIfDue(s, op.id, now);
    ExpireRuns(cfg, s, op.id, now);
    NotDueAfterExpire(s, op.id, now);
    StillThere(s, op.id, now);
    var q := RestPlan(cfg, s1, op);
    var p := Plan(cfg, s, op, now);
    if k < |e| {
      assert p[..k] == e[..k] && p[k] == e[k];
      ExpireCut(cfg, s, op.id, now, k);
      ExpireMarks(cfg, s, op.id, now, k);
      RestPlain(cfg, s1, op);
      LostTail(s, e, q, k);
    } else {
      var n := k - |e|;
      assert p[..k] == e + q[..n] && p[k] == q[n];
      ExpireExact(cfg, s, op.id, now);
      AfterTwo(cfg, s, e, q[..n], now);
      RestCut(cfg, s1, op, now, n);
      OrphanFree(After(cfg, s1, q[..n], now));
      NotMark(s, p, k);
    }
  }

  lemma StillThere(s: State, id: SessionId, now: int)
    requires id in s.sessions
    ensures id in ExpireIfDue(s, id, now).sessions
  {
  }

  lemma OrphanFree(s: State)
    requires NoOrphans(s)
    ensures Found(s)
  {
    hide Referenced, DeadDigests;
  }

  // ---- Maintenance cut off ------------------------------------------------------------------------

  lemma MaintainPlan(cfg: Config, s: State, now: int)
    ensures Plan(cfg, s, MaintainOp, now) ==
            [ExpireDue, Reopen] + RetireAllPlan(Settled(s, now), UniqueListing(DeadIds(Settled(s, now))), now)
  {
    hide RetireAllPlan, DeadIds;
  }

  lemma SettledRetiring(cfg: Config, s: State, now: int)
    requires Exact(cfg, s)
    ensures var t := Settled(s, now);
            Retiring(t, UniqueListing(DeadIds(t))) && t == s.(sessions := t.sessions)
  {
    hide Found, Exact, Settled, ExpireAllDue;
    var t := Settled(s, now);
    var ids := UniqueListing(DeadIds(t));
    ExactFound(cfg, s, now);
    SettledOk(s, now);
    assert forall id :: id in ids <==> id in Elems(ids);
    hide Elems, Listing, UniqueListing;
    assert forall id :: id in ids ==> id in DeadIds(t);
    assert forall k :: k in t.parts && DeadKey(t, k) ==> k.session in DeadIds(t);
  }

  lemma SettledOk(s: State, now: int)
    ensures var t := Settled(s, now); t == s.(sessions := t.sessions)
  {
  }

  lemma MaintainTwo(cfg: Config, s: State, now: int)
    ensures Runs(cfg, s, [ExpireDue, Reopen], now) && After(cfg, s, [ExpireDue, Reopen], now) == Settled(s, now)
    ensures After(cfg, s, [ExpireDue], now) == ExpireAllDue(s, now)
  {
    assert Enabled(cfg, s, ExpireDue, now) && Enabled(cfg, ExpireAllDue(s, now), Reopen, now);
    hide ExpireAllDue, ReopenAll;
    RunOne(cfg, s, ExpireDue, now);
    RunTwo(cfg, s, ExpireDue, Reopen, now);
  }

  lemma SameParts(s: State, t: State)
    requires t.parts == s.parts
    ensures forall id :: DigestsOf(t, id) == DigestsOf(s, id)
  {
  }

  lemma MaintainCut(cfg: Config, s: State, now: int, k: nat)
    requires Exact(cfg, s) && k <= |Plan(cfg, s, MaintainOp, now)|
    ensures var p := Plan(cfg, s, MaintainOp, now);
            Found(After(cfg, s, p[..k], now)) <==> !Lost(s, p, k)
  {
    hide *;
    var p, two, t := Plan(cfg, s, MaintainOp, now), [ExpireDue, Reopen], Settled(s, now);
    var ids := UniqueListing(DeadIds(t));
    var q := RetireAllPlan(t, ids, now);
    MaintainPlan(cfg, s, now);
    MaintainTwo(cfg, s, now);
    ExactFound(cfg, s, now);
    if k < 2 {
      assert p[..k] == if k == 0 then [] else [ExpireDue];
      AfterNone(cfg, s, now);
      NotMark(s, p, k);
    } else {
      assert p[..k] == two + q[..k - 2];
      AfterTwo(cfg, s, two, q[..k - 2], now);
      SettledRetiring(cfg, s, now);
      RetireAllCut(cfg, t, ids, k - 2, now);
      SameActive(s, t);
      SameParts(s, t);
      LostShift(s, t, two, q, k - 2);
    }
  }

  /** Calls whose plans hold no marks. */
  lemma PlainCut(cfg: Config, s: State, op: Op, now: int, k: nat)
    requires ValidConfig(cfg) && Exact(cfg, s) && Admissible(cfg, s, op) && !OnSession(op) && !op.MaintainOp?
    requires k < |Plan(cfg, s, op, now)|
    ensures NoOrphans(After(cfg, s, Plan(cfg, s, op, now)[..k], now)) && !Plan(cfg, s, op, now)[k].Mark?
  {
    ExactSafe(cfg, s);
    ExactOrphans(cfg, s);
    hide Exact, After, Runs, NoOrphans, Safe, ValidConfig, SweepPlan, Garbage, CreateSession, NewSession;
    if op.GcOp? {
      assert op == GcOp(false);
      SweepCut(cfg, s, now, k);
    } else {
      assert k == 0 && Plan(cfg, s, op, now)[..0] == [];
      AfterNone(cfg, s, now);
    }
  }

  /** Main result: of all the ways a call can be cut off, recovery makes good every one but
      these: the cut falls in a marking loop, the session's rows already gone, with a row
      still to be marked that no session yet to be retired names. For a client's call
      that is every cut before a mark. */
  lemma CutOrphanIff(cfg: Config, s: State, op: Op, now: int, k: nat, reopened: int)
    requires ValidConfig(cfg) && Exact(cfg, s) && Admissible(cfg, s, op)
    requires k <= |Plan(cfg, s, op, now)|
    ensures var p := Plan(cfg, s, op, now);
            && (NoOrphans(RunMaintenance(After(cfg, s, p[..k], now), reopened).0) <==> !Lost(s, p, k))
            && (!op.MaintainOp? ==> (Lost(s, p, k) <==> k < |p| && p[k].Mark?))
  {
    var p := Plan(cfg, s, op, now);
    hide *;
    RecoverIff(After(cfg, s, p[..k], now), reopened);
    if k == |p| {
      assert p[..k] == p;
      PlanOps(cfg, s, op, now);
      OrphanFree(After(cfg, s, p, now));
      NotMark(s, p, k);
    } else if op.MaintainOp? {
      MaintainCut(cfg, s, now, k);
    } else if OnSession(op) {
      SessionCut(cfg, s, op, now, k);
    } else {
      PlainCut(cfg, s, op, now, k);
      OrphanFree(After(cfg, s, p[..k], now));
      NotMark(s, p, k);
    }
  }

  lemma PlanOps(cfg: Config, s: State, op: Op, now: int)
    requires ValidConfig(cfg) && Exact(cfg, s) && Admissible(cfg, s, op)
    ensures NoOrphans(After(cfg, s, Plan(cfg, s, op, now), now))
  {
    ExactSafe(cfg, s);
    hide *;
    PlanRuns(cfg, s, op, now);
    OpExact(cfg, s, op, now);
    ExactOrphans(cfg, OpState(cfg, s, op, now));
  }

  lemma ExactSafe(cfg: Config, s: State)
    requires Exact(cfg, s)
    ensures Safe(cfg, s)
  {
    hide Safe;
  }

  // ---- A run that leaves one ------------------------------------------------------------------------

  /** From the empty store: a session for one byte, and its put. */
  function WitnessCalls(data: Bytes, expectedDigest: Digest): seq<Call> {
    [Call(CreateOp("u", Ident("n", "a", "1"), 1, expectedDigest, "o", true), 0), Call(PutOp("u", 0, data), 0)]
  }

  /** What they leave: an open session that alone holds the chunk `data`. */
  function Witness(cfg: Config, data: Bytes, expectedDigest: Digest): State {
    var d := cfg.sha(data);
    var x := NewSession(cfg, 0, Ident("n", "a", "1"), 1, expectedDigest, "o");
    State(map[], map[d := Chunk(1, ACTIVE, None, 0)], map["u" := x], map[PartKey("u", 0) := Part(d, 1)], map[d := data])
  }

  lemma Created(cfg: Config, expectedDigest: Digest)
    requires ValidConfig(cfg) && cfg.maxSessions >= 1 && Watermark(cfg) > 0
    ensures var x := NewSession(cfg, 0, Ident("n", "a", "1"), 1, expectedDigest, "o");
            CreateSession(cfg, EMPTY, 0, "u", x.ident, 1, expectedDigest, "o", true).0 ==
            EMPTY.(sessions := map["u" := x])
  {
    assert ActiveSet(EMPTY) == {} && OpenOf(EMPTY, "o") == {};
    assert UsedBytes(EMPTY) == 0;
    hide Watermark;
  }

  lemma PutFirst(cfg: Config, data: Bytes, expectedDigest: Digest)
    requires ValidConfig(cfg) && |data| == 1
    ensures var x := NewSession(cfg, 0, Ident("n", "a", "1"), 1, expectedDigest, "o");
            PutChunk(cfg, EMPTY.(sessions := map["u" := x]), 0, "u", 0, data).0 == Witness(cfg, data, expectedDigest)
  {
    var x := NewSession(cfg, 0, Ident("n", "a", "1"), 1, expectedDigest, "o");
    var s := EMPTY.(sessions := map["u" := x]);
    CountOfOne(cfg.chunkSize);
    assert !Due(x, 0) && ExpireIfDue(s, "u", 0) == s;
    hide ChunkCount, ExpireIfDue, CollisionFree;
  }

  lemma WitnessReached(cfg: Config, data: Bytes, expectedDigest: Digest)
    requires ValidConfig(cfg) && cfg.corpus(data) && |data| == 1 && cfg.maxSessions >= 1 && Watermark(cfg) > 0
    ensures CallsOk(cfg, EMPTY, WitnessCalls(data, expectedDigest))
    ensures AfterCalls(cfg, EMPTY, WitnessCalls(data, expectedDigest)) == Witness(cfg, data, expectedDigest)
    ensures Exact(cfg, Witness(cfg, data, expectedDigest))
  {
    var calls := WitnessCalls(data, expectedDigest);
    var s1 := OpState(cfg, EMPTY, calls[0].op, calls[0].now);
    assert Admissible(cfg, EMPTY, calls[0].op) && Admissible(cfg, s1, calls[1].op);
    CallsEnd(cfg, data, expectedDigest);
    hide *;
    assert calls == [calls[0], calls[1]];
    TwoCalls(cfg, EMPTY, calls[0], calls[1]);
    ExactInitially(cfg);
    RunExact(cfg, EMPTY, calls);
  }

  lemma CallsEnd(cfg: Config, data: Bytes, expectedDigest: Digest)
    requires ValidConfig(cfg) && |data| == 1 && cfg.maxSessions >= 1 && Watermark(cfg) > 0
    ensures var calls := WitnessCalls(data, expectedDigest);
            |calls| == 2
            && OpState(cfg, OpState(cfg, EMPTY, calls[0].op, calls[0].now), calls[1].op, calls[1].now)
               == Witness(cfg, data, expectedDigest)
  {
    Created(cfg, expectedDigest);
    PutFirst(cfg, data, expectedDigest);
    hide Witness, NewSession, CreateSession, PutChunk, ValidConfig, Watermark;
  }

  /** When its session falls due. */
  function Expiry(cfg: Config): int { cfg.sessionHours * 3600 }

  /** The witness once its session is expired and its part rows are gone. */
  function Interrupted(cfg: Config, data: Bytes, expectedDigest: Digest): State {
    DropParts(WithState(Witness(cfg, data, expectedDigest), "u", EXPIRED), "u")
  }

  lemma InterruptedOrphan(cfg: Config, data: Bytes, expectedDigest: Digest)
    ensures Orphan(Interrupted(cfg, data, expectedDigest), cfg.sha(data))
  {
    var u := Interrupted(cfg, data, expectedDigest);
    assert u.parts == map[] && u.artifacts == map[];
  }

  lemma WitnessDue(cfg: Config, data: Bytes, expectedDigest: Digest)
    ensures var s := Witness(cfg, data, expectedDigest); "u" in s.sessions && Due(s.sessions["u"], Expiry(cfg))
  {
  }

  /** A run from the empty store that produces one: a commit of the expired upload,
      cut off between dropping the part rows and marking the chunk. */
  lemma CrashLeavesOrphan(cfg: Config, data: Bytes, expectedDigest: Digest)
    requires ValidConfig(cfg) && cfg.corpus(data) && |data| == 1 && cfg.maxSessions >= 1 && Watermark(cfg) > 0
    ensures var calls := WitnessCalls(data, expectedDigest);
            && CallsOk(cfg, EMPTY, calls)
            && var s := AfterCalls(cfg, EMPTY, calls);
               var p := Plan(cfg, s, CommitOp("u", 1), Expiry(cfg));
               && Exact(cfg, s) && |p| >= 2 && Runs(cfg, s, p[..2], Expiry(cfg))
               && Orphan(After(cfg, s, p[..2], Expiry(cfg)), cfg.sha(data))
  {
    assert OnSession(CommitOp("u", 1));
    hide *;
    WitnessReached(cfg, data, expectedDigest);
    var s := Witness(cfg, data, expectedDigest);
    WitnessDue(cfg, data, expectedDigest);
    SessionPlan(cfg, s, CommitOp("u", 1), Expiry(cfg));
    ExpireTwo(cfg, s, "u", Expiry(cfg));
    InterruptedIs(cfg, data, expectedDigest);
    InterruptedOrphan(cfg, data, expectedDigest);
    assert Plan(cfg, s, CommitOp("u", 1), Expiry(cfg))[..2] == ExpirePlan(s, "u", Expiry(cfg))[..2];
  }

  /** Cut after the state change and the removal of the rows. */
  lemma ExpireTwo(cfg: Config, s: State, id: SessionId, now: int)
    requires id in s.sessions && Due(s.sessions[id], now)
    ensures var e := ExpirePlan(s, id, now);
            |e| >= 2 && Runs(cfg, s, e[..2], now)
            && After(cfg, s, e[..2], now) == DropParts(WithState(s, id, EXPIRED), id)
  {
    var t := WithState(s, id, EXPIRED);
    assert id in t.sessions && Dead(t.sessions[id].state);
    hide *;
    var r := RetirePlan(t, id);
    ExpirePlanIs(s, id, now);
    RetirePlanIs(t, id);
    ExpireFirst(cfg, s, id, now);
    DropFirst(cfg, t, id, now);
    assert ExpirePlan(s, id, now)[..2] == [ExpireOne(id)] + [DropRows(id)];
    RunsAppend(cfg, s, [ExpireOne(id)], [DropRows(id)], now);
  }

  lemma InterruptedIs(cfg: Config, data: Bytes, expectedDigest: Digest)
    ensures Interrupted(cfg, data, expectedDigest) ==
            DropParts(WithState(Witness(cfg, data, expectedDigest), "u", EXPIRED), "u")
  {
  }

  lemma CountOfOne(chunkSize: ChunkSize)
    requires MIB <= chunkSize <= 8 * MIB
    ensures ChunkCount(1, chunkSize) == 1
  {
    CountIsCeiling(1, chunkSize);
    Multiples(ChunkCount(1, chunkSize) - 1, chunkSize);
  }
}
