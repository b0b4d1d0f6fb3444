/** Which writes shorten a permission, and which rewrite one that has ended: exactly those stored over
    a row that has changed since it was read. */
module StaleWrites {
  import opened Options
  import opened Lifetimes
  import opened Texts
  import opened AccessDatabase
  import opened ApprovalBatch
  import opened AccessDecisions
  import opened DirectGrants
  import opened RecordChanges
  import opened ApprovalEvolution
  import opened AccessRuns
  import opened AccessSafety

  // ---- The approval batch row by row, over any tables ----

  lemma {:induction false} InsertAllKeepsRows(db: Db, rows: seq<NewRow>, request: Id)
    ensures forall i | i in db.entitlements ::
              i in InsertAll(db, rows, request).entitlements && InsertAll(db, rows, request).entitlements[i] == db.entitlements[i]
    decreases |rows|
  {
    if rows != [] { InsertAllKeepsRows(InsertEntitlement(db, rows[0].id, rows[0].row, request), rows[1..], request); }
  }

  lemma {:induction false} UpdateAllElsewhere(db: Db, updates: seq<RowUpdate>, i: Id)
    requires i in db.entitlements && forall j | 0 <= j < |updates| :: updates[j].id == i ==> !Open(db.entitlements[i])
    ensures i in UpdateAll(db, updates).entitlements && UpdateAll(db, updates).entitlements[i] == db.entitlements[i]
    decreases |updates|
  {
    if updates != [] {
      assert forall j | 0 <= j < |updates[1..]| :: updates[1..][j] == updates[j + 1];
      UpdateAllElsewhere(UpdateEntitlement(db, updates[0]), updates[1..], i);
    }
  }

  lemma {:induction false} UpdateAllAt(db: Db, updates: seq<RowUpdate>, j: nat)
    requires j < |updates| && UpdateApplies(db, updates[j])
    requires forall a, b | 0 <= a < b < |updates| :: updates[a].id != updates[b].id
    ensures var i := updates[j].id;
            i in UpdateAll(db, updates).entitlements
            && UpdateAll(db, updates).entitlements[i] == Revised(db.entitlements[i], updates[j])
    decreases |updates|
  {
    var d, rest := UpdateEntitlement(db, updates[0]), updates[1..];
    assert forall k | 0 <= k < |rest| :: rest[k] == updates[k + 1];
    if j == 0 {
      UpdateAllElsewhere(d, rest, updates[0].id);
    } else {
      UpdateAllAt(d, rest, j - 1);
    }
  }

  lemma BatchRows(db: Db, rows: seq<NewRow>, updates: seq<RowUpdate>, request: Id, d: Decision)
    ensures var (f, outcome) := ApproveAccessRequest(db, rows, updates, request, d);
            f.entitlements == if outcome == ConstraintFailed then db.entitlements
                              else UpdateAll(InsertAll(db, rows, request), updates).entitlements
  {
  }

  ghost predicate ReadingSound(r: Reading) {
    Distinct(r.scopes) && |r.scopes| <= |r.newIds|
  }

  lemma BatchOverwrites(db: Db, rows: seq<NewRow>, updates: seq<RowUpdate>, request: Id, d: Decision, u: RowUpdate)
    requires u in updates && UpdateApplies(db, u)
    requires forall a, b | 0 <= a < b < |updates| :: updates[a].id != updates[b].id
    requires ApproveAccessRequest(db, rows, updates, request, d).1 != ConstraintFailed
    ensures var f := ApproveAccessRequest(db, rows, updates, request, d).0;
            u.id in f.entitlements && f.entitlements[u.id] == Revised(db.entitlements[u.id], u)
  {
    var j :| 0 <= j < |updates| && updates[j] == u;
    InsertAllKeepsRows(db, rows, request);
    UpdateAllAt(InsertAll(db, rows, request), updates, j);
    BatchRows(db, rows, updates, request, d);
  }

  lemma PlanHasUpdate(r: Reading, k: nat)
    requires k < |r.scopes| <= |r.newIds| && Changes(r, k)
    ensures UpdateFor(r, k) in PlanBelow(r, |r.scopes|).updates
  {
    var ks := ChangesBelow(r, |r.scopes|);
    var j :| 0 <= j < |ks| && ks[j] == k;
    assert PlanBelow(r, |r.scopes|).updates[j] == UpdateFor(r, k);
  }

  /** Whatever has happened since it was planned: an approval that is not refused leaves each row it
      rewrites with the lifetime computed from the reading, however long the row has become. */
  lemma ApprovalOverwrites(db: Db, r: Reading, k: nat)
    requires ReadingSound(r) && k < |r.scopes| && Changes(r, k)
    requires UpdateApplies(db, UpdateFor(r, k)) && StoreApproval(db, r).1 != ConstraintFailed
    ensures var i := Current(r, k).value;
            var f := StoreApproval(db, r).0;
            && i in f.entitlements && f.entitlements[i] == Revised(db.entitlements[i], UpdateFor(r, k))
            && f.entitlements[i].lifetime == Extended(r.entitlements[i].lifetime, r.approval.lifetime)
  {
    PlanHasUpdate(r, k);
    PlanUpdatesApart(r);
    BatchOverwrites(db, PlanBelow(r, |r.scopes|).rows, PlanBelow(r, |r.scopes|).updates, r.request, DecisionFor(r), UpdateFor(r, k));
  }

  /** The approval rewrites row i when it serves scope k. */
  predicate Rewrites(r: Reading, k: nat, i: Id)
    requires k < |r.scopes|
  {
    Changes(r, k) && Current(r, k) == Some(i)
  }

  lemma ApprovalElsewhere(db: Db, r: Reading, i: Id)
    requires ReadingSound(r) && i in db.entitlements
    requires Open(db.entitlements[i]) ==> forall k | 0 <= k < |r.scopes| :: !Rewrites(r, k, i)
    ensures i in StoreApproval(db, r).0.entitlements && StoreApproval(db, r).0.entitlements[i] == db.entitlements[i]
  {
    var rows, updates, ks := PlanBelow(r, |r.scopes|).rows, PlanBelow(r, |r.scopes|).updates, ChangesBelow(r, |r.scopes|);
    InsertAllKeepsRows(db, rows, r.request);
    forall j | 0 <= j < |updates| && updates[j].id == i ensures !Open(db.entitlements[i]) {
      assert Rewrites(r, ks[j], i);
    }
    UpdateAllElsewhere(InsertAll(db, rows, r.request), updates, i);
    BatchRows(db, rows, updates, r.request, DecisionFor(r));
  }

  /** What the approval makes of the lifetime it read. */
  function PlannedLifetime(r: Reading, i: Id): Lifetime
    requires i in r.entitlements
  {
    Extended(r.entitlements[i].lifetime, r.approval.lifetime)
  }

  ghost predicate ApprovalShortens(db: Db, r: Reading, i: Id)
    requires ReadingSound(r) && i in db.entitlements
  {
    && StoreApproval(db, r).1 != ConstraintFailed && Open(db.entitlements[i])
    && exists k :: 0 <= k < |r.scopes| && Rewrites(r, k, i) && !Leq(db.entitlements[i].lifetime, PlannedLifetime(r, i))
  }

  /** An approval shortens a row exactly if it is stored, rewrites that row, and the row has become
      longer than what the approval planned for it. */
  lemma ApprovalShortensExactly(db: Db, r: Reading, i: Id)
    requires ReadingSound(r) && i in db.entitlements
    ensures i in StoreApproval(db, r).0.entitlements
    ensures !Leq(db.entitlements[i].lifetime, StoreApproval(db, r).0.entitlements[i].lifetime) <==> ApprovalShortens(db, r, i)
  {
    var e := db.entitlements[i];
    LeqOrders(e.lifetime, e.lifetime, e.lifetime);
    if Open(e) && StoreApproval(db, r).1 != ConstraintFailed && exists k :: 0 <= k < |r.scopes| && Rewrites(r, k, i) {
      var k :| 0 <= k < |r.scopes| && Rewrites(r, k, i);
      ApprovalOverwrites(db, r, k);
    } else if Open(e) && StoreApproval(db, r).1 == ConstraintFailed {
      BatchRows(db, PlanBelow(r, |r.scopes|).rows, PlanBelow(r, |r.scopes|).updates, r.request, DecisionFor(r));
    } else {
      ApprovalElsewhere(db, r, i);
    }
  }

  // ---- Steps ----

  ghost predicate GrantShortens(db: Db, row: NewRow, found: Found, now: nat, i: Id)
    requires found.id in db.entitlements
  {
    && found.id == i && !HasExpired(found.row.lifetime, now) && WriteAllowed(db, row, found, now)
    && !Leq(row.row.lifetime, found.row.lifetime) && !Leq(db.entitlements[i].lifetime, row.row.lifetime)
  }

  /** The step shortens permission i. */
  ghost predicate Shortens(s: State, step: Step, i: Id)
    requires WorkFollows(s, false) && i in s.db.entitlements
  {
    || (step.CommitDecide? && step.w in s.work && s.work[step.w].Deciding? && Follows(s.db, s.work[step.w], false)
        && ApprovalShortens(s.db, s.work[step.w].reading, i))
    || (step.CommitGrant? && step.w in s.work && s.work[step.w].Granting? && s.work[step.w].found.Some?
        && Follows(s.db, s.work[step.w], false)
        && GrantShortens(s.db, s.work[step.w].row, s.work[step.w].found.value, s.work[step.w].grantedAt, i))
  }

  /** No step shortens a permission but an approval or a grant stored over a row that has become
      longer than what it was about to write; and those do. */
  lemma StepShortensExactly(s: State, step: Step, t: State, i: Id)
    requires Next(s, step, t) && UniqueOpen(s.db.entitlements) && WorkFollows(s, false) && i in s.db.entitlements
    ensures i in t.db.entitlements
    ensures !Leq(s.db.entitlements[i].lifetime, t.db.entitlements[i].lifetime) <==> Shortens(s, step, i)
  {
    if step.CommitDecide? {
      assert Follows(s.db, s.work[step.w], false);
      ApprovalShortensExactly(s.db, s.work[step.w].reading, i);
    } else if step.CommitGrant? {
      GrantStepShortens(s, step, t, i);
    } else {
      QuietStep(s, step, t);
    }
  }

  lemma GrantStepShortens(s: State, step: Step, t: State, i: Id)
    requires Next(s, step, t) && step.CommitGrant? && WorkFollows(s, false) && i in s.db.entitlements
    ensures i in t.db.entitlements
    ensures !Leq(s.db.entitlements[i].lifetime, t.db.entitlements[i].lifetime) <==> Shortens(s, step, i)
  {
    var work := s.work[step.w];
    assert Follows(s.db, work, false);
    GrantShortensExactly(s.db, work.row, work.found.value, work.grantedAt);
    LeqOrders(s.db.entitlements[i].lifetime, s.db.entitlements[i].lifetime, Once);
  }

  lemma QuietStep(s: State, step: Step, t: State)
    requires Next(s, step, t) && UniqueOpen(s.db.entitlements) && !step.CommitDecide? && !step.CommitGrant?
    ensures Moves(s.db.entitlements, t.db.entitlements, true)
  {
    if step.CommitIssue? {
      IssueStepEvolves(s, step.w, step.id, t, true);
    } else if step.CommitRevoke? || step.EndPermission? || step.CommitEnds? {
      EndStepEvolves(s, step, t, true);
    } else if step.TryInsertGrant? {
      GrantStepEvolves(s, step, t, true);
    } else if step.Detach? {
      DetachMoves(s, step.connections, t, true);
    } else {
      OtherStepEvolves(s, step, t, true);
    }
  }

  /** The lifetime that the step writes into the permission it shortens. */
  ghost function Written(s: State, step: Step, i: Id): Lifetime
    requires WorkFollows(s, false) && i in s.db.entitlements && Shortens(s, step, i)
  {
    if step.CommitDecide? then PlannedLifetime(s.work[step.w].reading, i) else s.work[step.w].row.row.lifetime
  }

  predicate EndsBefore(lifetime: Lifetime, expiresAt: nat) {
    lifetime.Once? || (lifetime.Until? && lifetime.t < expiresAt)
  }

  /** The step shortens permission i to a time before `expiresAt`. */
  ghost predicate ShortensBelow(s: State, step: Step, i: Id, expiresAt: nat)
    requires WorkFollows(s, false) && i in s.db.entitlements
  {
    Shortens(s, step, i) && EndsBefore(Written(s, step, i), expiresAt)
  }

  lemma ShortenedToWritten(s: State, step: Step, t: State, i: Id)
    requires Next(s, step, t) && WorkFollows(s, false) && i in s.db.entitlements && Shortens(s, step, i)
    ensures i in t.db.entitlements && t.db.entitlements[i].lifetime == Written(s, step, i)
  {
    if step.CommitDecide? {
      var r := s.work[step.w].reading;
      var k :| 0 <= k < |r.scopes| && Rewrites(r, k, i);
      ApprovalOverwrites(s.db, r, k);
    }
  }

  lemma StoredLeaseKept(s: State, step: Step, t: State, l: Id, i: Id)
    requires Next(s, step, t) && Safe(s, false) && AllBounded(s)
    requires l in s.db.leases && i in s.db.leases[l].entitlements && i !in s.usedBy[l]
    ensures i in s.db.entitlements && Bounds(s.db.entitlements[i], s.db.leases[l])
    ensures l in t.db.leases && t.db.leases[l].expiresAt == s.db.leases[l].expiresAt
  {
    StepSafe(s, step, t, false);
    assert LeaseBacked(s.db.requests, s.db.entitlements, s.db.leases[l]);
    KeptUses(s, step, t, l);
  }

  lemma BoundsLostExactly(e: Entitlement, f: Entitlement, l: Lease, m: Lease, written: Lifetime)
    requires Bounds(e, l) && m.expiresAt == l.expiresAt && (!Leq(e.lifetime, f.lifetime) ==> f.lifetime == written)
    ensures !Bounds(f, m) <==> !Leq(e.lifetime, f.lifetime) && EndsBefore(written, l.expiresAt)
  {
  }

  /** A stored lease comes to outlive a permission that it did not use up exactly if the step shortens
      the permission to a time before the lease expires. */
  lemma OutlivedExactly(s: State, step: Step, t: State, l: Id, i: Id)
    requires Next(s, step, t) && Safe(s, false) && AllBounded(s)
    requires l in s.db.leases && i in s.db.leases[l].entitlements && i !in s.usedBy[l]
    ensures i in s.db.entitlements && l in t.db.leases && i in t.db.entitlements
    ensures !Bounds(t.db.entitlements[i], t.db.leases[l]) <==> ShortensBelow(s, step, i, s.db.leases[l].expiresAt)
  {
    StoredLeaseKept(s, step, t, l, i);
    StepShortensExactly(s, step, t, i);
    var shortened := Shortens(s, step, i);
    if shortened { ShortenedToWritten(s, step, t, i); }
    BoundsLostExactly(s.db.entitlements[i], t.db.entitlements[i], s.db.leases[l], t.db.leases[l],
                      if shortened then Written(s, step, i) else Once);
  }

  /** A lease comes to outlive a permission that it did not use up only by a step that shortens the
      permission, or by being issued on a reading of a permission that has been shortened since. */
  lemma OutlivedOnlyByShortening(s: State, step: Step, t: State, l: Id, i: Id)
    requires Next(s, step, t) && Safe(s, false) && AllBounded(s)
    requires l in t.db.leases && l in t.usedBy && i in t.db.leases[l].entitlements && i !in t.usedBy[l] && i in t.db.entitlements
    requires !Bounds(t.db.entitlements[i], t.db.leases[l])
    ensures i in s.db.entitlements
    ensures l in s.db.leases ==> ShortensBelow(s, step, i, s.db.leases[l].expiresAt)
    ensures l !in s.db.leases ==>
              && step.CommitIssue? && step.w in s.work && s.work[step.w].Issuing? && i in s.work[step.w].seen
              && !Leq(s.work[step.w].seen[i].lifetime, s.db.entitlements[i].lifetime)
  {
    StepSafe(s, step, t, false);
    if l in s.db.leases {
      KeptUses(s, step, t, l);
      OutlivedExactly(s, step, t, l, i);
    } else {
      if !step.CommitIssue? { OnlyIssueAddsLeases(s, step, t); }
      NewlyOutlived(s, step, t, l, i);
    }
  }

  lemma KeptUses(s: State, step: Step, t: State, l: Id)
    requires Next(s, step, t) && Later(s.db, t.db, false) && UsesSound(s) && l in s.db.leases
    ensures l in s.usedBy && l in t.usedBy && t.usedBy[l] == s.usedBy[l]
    ensures l in t.db.leases && t.db.leases[l].entitlements == s.db.leases[l].entitlements
    ensures t.db.leases[l].expiresAt == s.db.leases[l].expiresAt
  {
    if !step.CommitIssue? { OnlyIssueAddsLeases(s, step, t); }
  }

  lemma NewlyOutlived(s: State, step: Step, t: State, l: Id, i: Id)
    requires Next(s, step, t) && step.CommitIssue? && Safe(s, false)
    requires l in t.db.leases && l !in s.db.leases && l in t.usedBy && i in t.db.leases[l].entitlements && i !in t.usedBy[l]
    requires i in t.db.entitlements && !Bounds(t.db.entitlements[i], t.db.leases[l])
    ensures i in s.db.entitlements && i in s.work[step.w].seen
    ensures !Leq(s.work[step.w].seen[i].lifetime, s.db.entitlements[i].lifetime)
  {
    var work := s.work[step.w];
    assert Follows(s.db, work, false);
    BackingRow(s.db, step.id, work.draft, i);
  }

  // ---- Rows that have ended ----

  /** The step rewrites permission i although it has ended. */
  ghost predicate RewritesEnded(s: State, step: Step, i: Id)
    requires i in s.db.entitlements
  {
    match step
    case CommitGrant(w) =>
      && w in s.work && s.work[w].Granting? && s.work[w].found.Some? && s.work[w].found.value.id == i
      && GrantRewritesEnded(s.db, s.work[w].row, s.work[w].found.value, s.work[w].grantedAt)
    case CommitEnds(w, now) =>
      w in s.work && s.work[w].Ending? && i in s.work[w].listed && s.db.entitlements[i].ended != Some(End(now, Revoked))
    case Detach(gone) =>
      && UniqueOpen(Detached(s.db, gone).entitlements)
      && s.db.entitlements[i].connection.Some? && s.db.entitlements[i].connection.value in gone
    case _ => false
  }

  /** No step rewrites a permission that has ended but a grant whose row ended after it was read, an
      unguarded end, and the loss of its connection; and none reopens it. */
  lemma EndedRewrittenExactly(s: State, step: Step, t: State, i: Id)
    requires Next(s, step, t) && WorkFollows(s, false) && i in s.db.entitlements && !Open(s.db.entitlements[i])
    ensures i in t.db.entitlements && !Open(t.db.entitlements[i])
    ensures t.db.entitlements[i] != s.db.entitlements[i] <==> RewritesEnded(s, step, i)
  {
    if step.CommitDecide? {
      assert Follows(s.db, s.work[step.w], false);
      ApprovalElsewhere(s.db, s.work[step.w].reading, i);
    } else if step.CommitGrant? {
      GrantOverAnother(s, step, t, i);
    }
  }

  lemma GrantOverAnother(s: State, step: Step, t: State, i: Id)
    requires Next(s, step, t) && step.CommitGrant? && WorkFollows(s, false) && i in s.db.entitlements && !Open(s.db.entitlements[i])
    ensures i in t.db.entitlements && !Open(t.db.entitlements[i])
    ensures t.db.entitlements[i] != s.db.entitlements[i] <==> RewritesEnded(s, step, i)
  {
    var work := s.work[step.w];
    assert Follows(s.db, work, false);
    if work.found.value.id == i { GrantOverEnded(s.db, work.row, work.found.value, work.grantedAt); }
  }
}
