/** What every run of the access protocol keeps. */
module AccessSafety {
  import opened AccessDatabase
  import opened ApprovalBatch
  import opened AccessDecisions
  import opened TokenLeases
  import opened RecordChanges
  import opened AccessRuns

  /** The lease stands on a settled request, and on permissions of the request's own target whose
      scopes are exactly its scopes. */
  ghost predicate LeaseBacked(requests: map<Id, Request>, entitlements: map<Id, Entitlement>, l: Lease) {
    && l.request in requests && Settled(requests[l.request])
    && l.details == requests[l.request].details
    && l.entitlements != [] && |l.entitlements| == |l.scopes|
    && (forall i | i in l.entitlements ::
          && i in entitlements
          && var r := requests[l.request];
          InContext(entitlements[i], r.agent, r.resource, r.connection, l.details)
          && entitlements[i].scope in l.scopes)
    && (forall s | s in l.scopes :: exists i :: i in l.entitlements && entitlements[i].scope == s)
  }

  ghost predicate AllBacked(db: Db) {
    forall l | l in db.leases :: LeaseBacked(db.requests, db.entitlements, db.leases[l])
  }

  /** Each lease used up permissions of its own; those have ended, and no two leases used up the same. */
  ghost predicate UsesSound(s: State) {
    && (forall l | l in s.db.leases :: l in s.usedBy)
    && (forall l, i | l in s.usedBy && i in s.usedBy[l] ::
          l in s.db.leases && i in s.db.leases[l].entitlements && i in s.db.entitlements && !Open(s.db.entitlements[i]))
    && (forall l, m, i | l in s.usedBy && m in s.usedBy && i in s.usedBy[l] && i in s.usedBy[m] :: l == m)
  }

  /** A permission that the lease did not use up is good for more than one use, and the lease expires
      no later than it does. */
  predicate Bounds(e: Entitlement, l: Lease) {
    !e.lifetime.Once? && (e.lifetime.Until? ==> l.expiresAt <= e.lifetime.t)
  }

  ghost predicate AllBounded(s: State) {
    forall l, i | l in s.db.leases && l in s.usedBy && i in s.db.leases[l].entitlements && i !in s.usedBy[l] && i in s.db.entitlements ::
      Bounds(s.db.entitlements[i], s.db.leases[l])
  }

  ghost predicate Safe(s: State, timely: bool) {
    && UniqueOpen(s.db.entitlements)
    && WorkFollows(s, timely)
    && AllBacked(s.db) && UsesSound(s)
    && (timely ==> AllBounded(s))
  }

  // ---- Leases already stored ----

  lemma BackedLater(a: Db, b: Db, l: Lease, m: Lease, timely: bool)
    requires Advances(a, b, timely) && m == l.(revokedAt := m.revokedAt)
    requires LeaseBacked(a.requests, a.entitlements, l)
    ensures LeaseBacked(b.requests, b.entitlements, m)
  {
    forall s | s in m.scopes ensures exists i :: i in m.entitlements && b.entitlements[i].scope == s {
      var i :| i in l.entitlements && a.entitlements[i].scope == s;
      assert i in m.entitlements;
    }
  }

  /** Taking connections off requests and permissions alike leaves each lease backed. */
  lemma BackedDetached(db: Db, gone: set<Id>, l: Lease)
    requires LeaseBacked(db.requests, db.entitlements, l)
    ensures LeaseBacked(Detached(db, gone).requests, Detached(db, gone).entitlements, l)
  {
    var f := Detached(db, gone);
    forall s | s in l.scopes ensures exists i :: i in l.entitlements && f.entitlements[i].scope == s {
      var i :| i in l.entitlements && db.entitlements[i].scope == s;
      assert f.entitlements[i].scope == s;
    }
  }

  lemma OldLeasesBacked(s: State, step: Step, t: State, timely: bool)
    requires Next(s, step, t) && AllBacked(s.db) && (!step.Detach? ==> Advances(s.db, t.db, timely))
    requires forall l | l in t.db.leases :: l in s.db.leases
    ensures AllBacked(t.db)
  {
    forall l | l in t.db.leases ensures LeaseBacked(t.db.requests, t.db.entitlements, t.db.leases[l]) {
      if step.Detach? {
        BackedDetached(s.db, step.connections, s.db.leases[l]);
      } else {
        BackedLater(s.db, t.db, s.db.leases[l], t.db.leases[l], timely);
      }
    }
  }

  lemma BoundsLater(e: Entitlement, f: Entitlement, l: Lease, m: Lease)
    requires RowMoves(e, f, true) && Bounds(e, l) && m == l.(revokedAt := m.revokedAt)
    ensures Bounds(f, m)
  {
  }

  lemma OldLeasesBounded(s: State, t: State)
    requires Later(s.db, t.db, true) && AllBacked(s.db) && UsesSound(s) && AllBounded(s) && t.usedBy == s.usedBy
    requires forall l | l in t.db.leases :: l in s.db.leases
    ensures AllBounded(t)
  {
    forall l, i | l in t.db.leases && l in t.usedBy && i in t.db.leases[l].entitlements && i !in t.usedBy[l] && i in t.db.entitlements
      ensures Bounds(t.db.entitlements[i], t.db.leases[l])
    {
      assert LeaseBacked(s.db.requests, s.db.entitlements, s.db.leases[l]);
      assert s.db.leases[l].entitlements == t.db.leases[l].entitlements;
      BoundsLater(s.db.entitlements[i], t.db.entitlements[i], s.db.leases[l], t.db.leases[l]);
    }
  }

  lemma OldUsesSound(s: State, t: State, timely: bool)
    requires Later(s.db, t.db, timely) && UsesSound(s) && t.usedBy == s.usedBy
    requires forall l | l in t.db.leases :: l in s.db.leases
    ensures UsesSound(t)
  {
    forall l, i | l in t.usedBy && i in t.usedBy[l]
      ensures l in t.db.leases && i in t.db.leases[l].entitlements && i in t.db.entitlements && !Open(t.db.entitlements[i])
    {
      assert RowMoves(s.db.entitlements[i], t.db.entitlements[i], timely);
    }
  }

  // ---- The lease being stored ----

  lemma BackingRow(db: Db, id: Id, d: Draft, i: Id)
    requires CanIssue(db, id, d.lease, d.boundary) && i in d.lease.entitlements
    ensures Backs(db, i, d.boundary, d.lease.createdAt) && i in db.entitlements && Open(db.entitlements[i])
  {
    var k :| 0 <= k < |d.lease.entitlements| && d.lease.entitlements[k] == i;
  }

  lemma NewLeaseBacked(db: Db, id: Id, d: Draft, seen: map<Id, Entitlement>, timely: bool)
    requires CanIssue(db, id, d.lease, d.boundary)
    requires DraftHolds(db.requests, d, seen) && Moves(seen, db.entitlements, timely)
    ensures LeaseBacked(db.requests, db.entitlements, d.lease)
  {
    var ids := d.lease.entitlements;
    forall i | i in ids ensures Backs(db, i, d.boundary, d.lease.createdAt) {
      BackingRow(db, id, d, i);
    }
    forall s | s in d.lease.scopes ensures exists i :: i in ids && db.entitlements[i].scope == s {
      var j :| 0 <= j < |d.lease.scopes| && d.lease.scopes[j] == s;
      var k :| 0 <= k < |ids| && ids[k] in db.entitlements && db.entitlements[ids[k]].scope == d.boundary.scopes[j];
      assert ids[k] in ids;
    }
  }

  lemma IssueBacked(db: Db, f: Db, id: Id, d: Draft, seen: map<Id, Entitlement>, timely: bool)
    requires UniqueOpen(db.entitlements) && AllBacked(db) && CanIssue(db, id, d.lease, d.boundary)
    requires DraftHolds(db.requests, d, seen) && Moves(seen, db.entitlements, timely)
    requires f == IssueTokenLease(db, id, d.lease, d.boundary, d.consume)
    ensures AllBacked(f)
  {
    IssueEvolves(db, id, d.lease, d.boundary, d.consume, timely);
    NewLeaseBacked(db, id, d, seen, timely);
    BackedLater(db, f, d.lease, d.lease, timely);
    forall l | l in f.leases ensures LeaseBacked(f.requests, f.entitlements, f.leases[l]) {
      if l != id { BackedLater(db, f, db.leases[l], f.leases[l], timely); }
    }
  }

  /** A permission read as good for one use has just ended; any other is as long as it was read. */
  lemma NewLeaseBounded(db: Db, f: Db, id: Id, d: Draft, seen: map<Id, Entitlement>, i: Id)
    requires CanIssue(db, id, d.lease, d.boundary) && i in d.lease.entitlements
    requires DraftHolds(db.requests, d, seen) && Moves(seen, db.entitlements, true)
    requires f == IssueTokenLease(db, id, d.lease, d.boundary, d.consume)
    ensures i in f.entitlements && (i !in d.consume ==> Bounds(f.entitlements[i], d.lease))
  {
    BackingRow(db, id, d, i);
    assert RowMoves(seen[i], db.entitlements[i], true);
  }

  lemma IssueUses(s: State, w: nat, id: Id, t: State, timely: bool)
    requires Next(s, CommitIssue(w, id), t) && UsesSound(s) && UniqueOpen(s.db.entitlements)
    requires CanIssue(s.db, id, s.work[w].draft.lease, s.work[w].draft.boundary)
    requires DraftHolds(s.db.requests, s.work[w].draft, s.work[w].seen)
    ensures UsesSound(t)
  {
    var d := s.work[w].draft;
    forall i | i in d.consume
      ensures i in d.lease.entitlements && i in t.db.entitlements && !Open(t.db.entitlements[i])
      ensures forall l | l in s.usedBy :: i !in s.usedBy[l]
    {
      BackingRow(s.db, id, d, i);
    }
    IssueEvolves(s.db, id, d.lease, d.boundary, d.consume, timely);
    UsesWithNew(s, t, id, d.lease, d.consume, timely);
  }

  lemma UsesWithNew(s: State, t: State, id: Id, lease: Lease, consume: set<Id>, timely: bool)
    requires UsesSound(s) && Advances(s.db, t.db, timely) && id !in s.db.leases
    requires t.db.leases == s.db.leases[id := lease] && t.usedBy == s.usedBy[id := consume]
    requires forall i | i in consume :: i in lease.entitlements && i in t.db.entitlements && !Open(t.db.entitlements[i])
    requires forall i, l | i in consume && l in s.usedBy :: i !in s.usedBy[l]
    ensures UsesSound(t)
  {
    forall l, i | l in t.usedBy && i in t.usedBy[l]
      ensures l in t.db.leases && i in t.db.leases[l].entitlements && i in t.db.entitlements && !Open(t.db.entitlements[i])
    {
      if l != id { assert RowEvolves(s.db.entitlements[i], t.db.entitlements[i], timely); }
    }
  }

  lemma IssueBounded(s: State, w: nat, id: Id, t: State)
    requires Next(s, CommitIssue(w, id), t) && UniqueOpen(s.db.entitlements) && AllBacked(s.db) && UsesSound(s) && AllBounded(s)
    requires CanIssue(s.db, id, s.work[w].draft.lease, s.work[w].draft.boundary)
    requires DraftHolds(s.db.requests, s.work[w].draft, s.work[w].seen) && Moves(s.work[w].seen, s.db.entitlements, true)
    ensures AllBounded(t)
  {
    var d := s.work[w].draft;
    IssueEvolves(s.db, id, d.lease, d.boundary, d.consume, true);
    forall l, i | l in t.db.leases && l in t.usedBy && i in t.db.leases[l].entitlements && i !in t.usedBy[l] && i in t.db.entitlements
      ensures Bounds(t.db.entitlements[i], t.db.leases[l])
    {
      if l == id {
        NewLeaseBounded(s.db, t.db, id, d, s.work[w].seen, i);
      } else {
        assert LeaseBacked(s.db.requests, s.db.entitlements, s.db.leases[l]);
        BoundsLater(s.db.entitlements[i], t.db.entitlements[i], s.db.leases[l], t.db.leases[l]);
      }
    }
  }

  // ---- Steps and runs ----

  lemma OnlyIssueAddsLeases(s: State, step: Step, t: State)
    requires Next(s, step, t) && !step.CommitIssue?
    ensures forall l | l in t.db.leases :: l in s.db.leases
    ensures t.usedBy == s.usedBy
  {
    if step.CommitDecide? { ApprovalLeases(s.db, s.work[step.w].reading); }
  }

  lemma ApprovalLeases(db: Db, r: Reading)
    requires |r.scopes| <= |r.newIds|
    ensures StoreApproval(db, r).0.leases == db.leases
  {
    BatchLeases(db, PlanBelow(r, |r.scopes|).rows, PlanBelow(r, |r.scopes|).updates, r.request, DecisionFor(r));
  }

  lemma BatchLeases(db: Db, rows: seq<NewRow>, updates: seq<RowUpdate>, request: Id, d: Decision)
    ensures ApproveAccessRequest(db, rows, updates, request, d).0.leases == db.leases
  {
    InsertAllFrame(db, rows, request);
    UpdateAllFrame(InsertAll(db, rows, request), updates);
  }

  lemma StepSafe(s: State, step: Step, t: State, timely: bool)
    requires Next(s, step, t) && (timely ==> TimelyStep(s, step)) && Safe(s, timely)
    ensures Safe(t, timely) && Later(s.db, t.db, timely)
  {
    StepMovesOn(s, step, t, timely);
    StepWorkFollows(s, step, t, timely);
    if step.CommitIssue? && CanIssue(s.db, step.id, s.work[step.w].draft.lease, s.work[step.w].draft.boundary) {
      IssueSafe(s, step.w, step.id, t, timely);
    } else {
      NoIssueSafe(s, step, t, timely);
    }
  }

  lemma IssueSafe(s: State, w: nat, id: Id, t: State, timely: bool)
    requires Next(s, CommitIssue(w, id), t) && Safe(s, timely)
    requires CanIssue(s.db, id, s.work[w].draft.lease, s.work[w].draft.boundary)
    ensures AllBacked(t.db) && UsesSound(t) && (timely ==> AllBounded(t))
  {
    var work := s.work[w];
    assert Follows(s.db, work, timely);
    IssueBacked(s.db, t.db, id, work.draft, work.seen, timely);
    IssueUses(s, w, id, t, timely);
    if timely { IssueBounded(s, w, id, t); }
  }

  lemma NoIssueSafe(s: State, step: Step, t: State, timely: bool)
    requires Next(s, step, t) && (timely ==> TimelyStep(s, step)) && Safe(s, timely) && Later(s.db, t.db, timely)
    requires step.CommitIssue? ==> !CanIssue(s.db, step.id, s.work[step.w].draft.lease, s.work[step.w].draft.boundary)
    ensures AllBacked(t.db) && UsesSound(t) && (timely ==> AllBounded(t))
  {
    if !step.CommitIssue? { OnlyIssueAddsLeases(s, step, t); }
    if !step.Detach? { StepEvolves(s, step, t, timely); }
    OldLeasesBacked(s, step, t, timely);
    OldUsesSound(s, t, timely);
    if timely { OldLeasesBounded(s, t); }
  }

  datatype Run = Run(states: seq<State>, steps: seq<Step>)

  ghost predicate Starts(s: State) {
    s.work == map[] && s.db.leases == map[] && s.usedBy == map[] && UniqueOpen(s.db.entitlements)
  }

  ghost predicate IsRun(run: Run, timely: bool) {
    && |run.states| == |run.steps| + 1
    && forall k | 0 <= k < |run.steps| :: Linked(run, timely, k)
  }

  ghost predicate Linked(run: Run, timely: bool, k: nat)
    requires k < |run.steps| && |run.states| == |run.steps| + 1
  {
    Next(run.states[k], run.steps[k], run.states[k + 1]) && (timely ==> TimelyStep(run.states[k], run.steps[k]))
  }

  ghost predicate RunFrom(run: Run, timely: bool) {
    IsRun(run, timely) && Starts(run.states[0])
  }

  /** In every run, at every moment: permissions are unique per context and scope, each lease has
      exactly the scopes of permissions of its own request's target, and no two leases have used up
      the same permission. If every approval and every grant was stored timely, a lease does not
      outlive a permission that it did not use up, and none of those is good for one use only. */
  lemma {:induction false} RunsAreSafe(run: Run, timely: bool, k: nat)
    requires RunFrom(run, timely) && k < |run.states|
    ensures Safe(run.states[k], timely)
  {
    if k > 0 {
      RunsAreSafe(run, timely, k - 1);
      assert Linked(run, timely, k - 1);
      StepSafe(run.states[k - 1], run.steps[k - 1], run.states[k], timely);
    }
  }

  /** So with timely writes a permission good for one use backs at most one lease. */
  lemma OneUseBacksOneLease(run: Run, k: nat, i: Id, l: Id, m: Id)
    requires RunFrom(run, true) && k < |run.states|
    requires var db := run.states[k].db;
             && i in db.entitlements && db.entitlements[i].lifetime.Once? && l in db.leases && m in db.leases
             && i in db.leases[l].entitlements && i in db.leases[m].entitlements
    ensures l == m && !Open(run.states[k].db.entitlements[i])
  {
    RunsAreSafe(run, true, k);
    var s := run.states[k];
    assert i !in s.usedBy[l] ==> Bounds(s.db.entitlements[i], s.db.leases[l]);
    assert i !in s.usedBy[m] ==> Bounds(s.db.entitlements[i], s.db.leases[m]);
  }

  lemma RunStep(run: Run, timely: bool, k: nat)
    requires RunFrom(run, timely) && k < |run.steps|
    ensures Safe(run.states[k], timely) && Later(run.states[k].db, run.states[k + 1].db, timely)
    ensures Next(run.states[k], run.steps[k], run.states[k + 1])
  {
    RunsAreSafe(run, timely, k);
    assert Linked(run, timely, k);
    StepSafe(run.states[k], run.steps[k], run.states[k + 1], timely);
  }

  /** Between two moments of a run no record is forgotten, no ended permission reopened, no revoked
      lease restored, no settled request unsettled. */
  lemma {:induction false} RunsMoveOn(run: Run, timely: bool, j: nat, k: nat)
    requires RunFrom(run, timely) && j <= k < |run.states|
    ensures Later(run.states[j].db, run.states[k].db, timely)
    decreases k - j
  {
    if j == k {
      EvolvesReflexive(run.states[j].db.entitlements, timely);
    } else {
      RunsMoveOn(run, timely, j, k - 1);
      RunStep(run, timely, k - 1);
      LaterTransitive(run.states[j].db, run.states[k - 1].db, run.states[k].db, timely);
    }
  }

  /** A token stored after others have written: every permission it read is still active, and a
      permission of the context it lacks was not active there when it read. */
  lemma OverlappedIssue(a: Db, b: Db, id: Id, d: Draft, issuer: Issuer, readAt: nat, timely: bool)
    requires Drafted(a, d, issuer, readAt) && Later(a, b, timely) && CanIssue(b, id, d.lease, d.boundary)
    ensures forall i :: i in d.lease.entitlements <==> i in ContextEntitlements(a, d.lease.request, readAt)
    ensures forall i | i in d.lease.entitlements ::
              i in ContextEntitlements(b, d.lease.request, d.lease.createdAt) && b.entitlements[i].contextHash == d.lease.details
    ensures forall i | i in ContextEntitlements(b, d.lease.request, d.lease.createdAt) && i !in d.lease.entitlements && i in a.entitlements ::
              !ActiveAt(a.entitlements[i], readAt) || a.entitlements[i].connection != d.boundary.connection
  {
    forall i | i in d.lease.entitlements
      ensures i in ContextEntitlements(b, d.lease.request, d.lease.createdAt) && b.entitlements[i].contextHash == d.lease.details
    {
      BackingRow(b, id, d, i);
      assert i in ContextEntitlements(a, d.lease.request, readAt);
      assert RowMoves(a.entitlements[i], b.entitlements[i], timely);
    }
    forall i | i in ContextEntitlements(b, d.lease.request, d.lease.createdAt) && i !in d.lease.entitlements && i in a.entitlements
      ensures !ActiveAt(a.entitlements[i], readAt) || a.entitlements[i].connection != d.boundary.connection
    {
      assert i !in ContextEntitlements(a, d.lease.request, readAt);
      assert RowMoves(a.entitlements[i], b.entitlements[i], timely);
    }
  }
}
