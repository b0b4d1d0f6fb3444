/** Revoking a permission: its leases are listed first, and ended together with it later. */
module PermissionRevocation {
  import opened Options
  import opened AccessDatabase
  import opened TokenLeases
  import opened RecordChanges
  import opened AccessRuns
  import opened AccessSafety

  /** Some lease of the permission is active at `now`. */
  ghost predicate StillLeased(db: Db, i: Id, now: nat) {
    exists l :: l in db.leases && i in db.leases[l].entitlements && LeaseActive(db.leases[l], now)
  }

  /** A lease of the permission, active at `now`, was stored after `before`. */
  ghost predicate LeasedSince(before: Db, db: Db, i: Id, now: nat) {
    exists l :: l in db.leases && l !in before.leases && i in db.leases[l].entitlements && LeaseActive(db.leases[l], now)
  }

  /** `a` is the database when the leases were listed and `b` when the permission is ended. */
  lemma RevocationExact(a: Db, b: Db, i: Id, at: nat, now: nat, timely: bool)
    requires Later(a, b, timely) && at <= now
    ensures var t := EndEntitlement(b, i, Revoked, ActiveLeasesOf(a, i, at), at);
            StillLeased(t, i, now) <==> LeasedSince(a, b, i, now)
  {
    var t := EndEntitlement(b, i, Revoked, ActiveLeasesOf(a, i, at), at);
    if StillLeased(t, i, now) {
      var l :| l in t.leases && i in t.leases[l].entitlements && LeaseActive(t.leases[l], now);
      assert b.leases[l] == t.leases[l];
    }
    if LeasedSince(a, b, i, now) {
      var l :| l in b.leases && l !in a.leases && i in b.leases[l].entitlements && LeaseActive(b.leases[l], now);
      assert t.leases[l] == b.leases[l];
    }
  }

  /** A token issued in between escapes the revocation. */
  lemma TokenEscapesRevocation(a: Db, id: Id, d: Draft, i: Id, at: nat, now: nat)
    requires CanIssue(a, id, d.lease, d.boundary) && i in d.lease.entitlements
    requires d.lease.revokedAt == None && now < d.lease.expiresAt
    ensures var b := IssueTokenLease(a, id, d.lease, d.boundary, d.consume);
            var t := EndEntitlement(b, i, Revoked, ActiveLeasesOf(a, i, at), at);
            StillLeased(t, i, now)
  {
    var b := IssueTokenLease(a, id, d.lease, d.boundary, d.consume);
    var t := EndEntitlement(b, i, Revoked, ActiveLeasesOf(a, i, at), at);
    assert id in t.leases && t.leases[id] == d.lease;
  }

  // ---- After the revocation ----

  lemma EndedGainsNoLease(s: State, step: Step, t: State, i: Id)
    requires Next(s, step, t) && i in s.db.entitlements && !Open(s.db.entitlements[i])
    ensures forall l | l in t.db.leases && i in t.db.leases[l].entitlements :: l in s.db.leases
  {
    if step.CommitIssue? {
      var d := s.work[step.w].draft;
      EndedBacksNothing(s.db, step.id, d, i);
    } else {
      OnlyIssueAddsLeases(s, step, t);
    }
  }

  lemma EndedBacksNothing(db: Db, id: Id, d: Draft, i: Id)
    requires i in db.entitlements && !Open(db.entitlements[i])
    ensures CanIssue(db, id, d.lease, d.boundary) ==> i !in d.lease.entitlements
  {
  }

  lemma {:induction false} EndedStaysUnleased(run: Run, timely: bool, j: nat, k: nat, i: Id, now: nat)
    requires RunFrom(run, timely) && j <= k < |run.states|
    requires i in run.states[j].db.entitlements && !Open(run.states[j].db.entitlements[i])
    requires !StillLeased(run.states[j].db, i, now)
    ensures !StillLeased(run.states[k].db, i, now)
    decreases k - j
  {
    if j < k {
      EndedStaysUnleased(run, timely, j, k - 1, i, now);
      RunsMoveOn(run, timely, j, k - 1);
      UnleasedStep(run, timely, k - 1, i, now);
    }
  }

  lemma UnleasedStep(run: Run, timely: bool, k: nat, i: Id, now: nat)
    requires RunFrom(run, timely) && k < |run.steps|
    requires i in run.states[k].db.entitlements && !Open(run.states[k].db.entitlements[i])
    requires !StillLeased(run.states[k].db, i, now)
    ensures !StillLeased(run.states[k + 1].db, i, now)
  {
    RunStep(run, timely, k);
    EndedGainsNoLease(run.states[k], run.steps[k], run.states[k + 1], i);
    UnleasedOn(run.states[k].db, run.states[k + 1].db, i, now, timely);
  }

  lemma UnleasedOn(a: Db, b: Db, i: Id, now: nat, timely: bool)
    requires Later(a, b, timely) && !StillLeased(a, i, now)
    requires forall l | l in b.leases && i in b.leases[l].entitlements :: l in a.leases
    ensures !StillLeased(b, i, now)
  {
    forall l | l in b.leases && i in b.leases[l].entitlements ensures !LeaseActive(b.leases[l], now) {
      assert l in a.leases && i in a.leases[l].entitlements;
    }
  }

  lemma EndsPermission(db: Db, i: Id, reason: EndReason, leases: set<Id>, at: nat)
    requires i in db.entitlements
    ensures var f := EndEntitlement(db, i, reason, leases, at);
            i in f.entitlements && !Open(f.entitlements[i])
  {
  }

  /** A revocation that began at moment j and was stored at moment k of a run. From then on no lease
      of the permission is active, exactly if no lease of it was stored between j and k. */
  lemma RevocationHolds(run: Run, timely: bool, j: nat, k: nat, m: nat, w: nat, i: Id, at: nat, now: nat)
    requires RunFrom(run, timely) && j < k < m < |run.states| && at <= now
    requires run.steps[j] == BeginRevoke(w, i, at) && run.steps[k] == CommitRevoke(w)
    requires w in run.states[j + 1].work && w in run.states[k].work && run.states[k].work[w] == run.states[j + 1].work[w]
    ensures StillLeased(run.states[k + 1].db, i, now)
            <==> LeasedSince(run.states[j].db, run.states[k].db, i, now)
    ensures !LeasedSince(run.states[j].db, run.states[k].db, i, now) ==> !StillLeased(run.states[m].db, i, now)
  {
    RevocationAt(run, timely, j, k, w, i, at, now);
    if !LeasedSince(run.states[j].db, run.states[k].db, i, now) {
      EndedStaysUnleased(run, timely, k + 1, m, i, now);
    }
  }

  lemma RevocationAt(run: Run, timely: bool, j: nat, k: nat, w: nat, i: Id, at: nat, now: nat)
    requires RunFrom(run, timely) && j < k < |run.steps| && at <= now
    requires run.steps[j] == BeginRevoke(w, i, at) && run.steps[k] == CommitRevoke(w)
    requires w in run.states[j + 1].work && w in run.states[k].work && run.states[k].work[w] == run.states[j + 1].work[w]
    ensures StillLeased(run.states[k + 1].db, i, now) <==> LeasedSince(run.states[j].db, run.states[k].db, i, now)
    ensures i in run.states[k + 1].db.entitlements && !Open(run.states[k + 1].db.entitlements[i])
  {
    RunsMoveOn(run, timely, j, k);
    RunStep(run, timely, j);
    RunStep(run, timely, k);
    var a, b := run.states[j].db, run.states[k].db;
    BeginReads(run.states[j], w, i, at, run.states[j + 1]);
    CommitEnds(run.states[k], w, run.states[k + 1]);
    RevocationExact(a, b, i, at, now, timely);
    EndsPermission(b, i, Revoked, ActiveLeasesOf(a, i, at), at);
  }

  lemma BeginReads(s: State, w: nat, i: Id, at: nat, t: State)
    requires Next(s, BeginRevoke(w, i, at), t)
    ensures w in t.work && t.work[w] == Revoking(i, ActiveLeasesOf(s.db, i, at), at) && i in s.db.entitlements
  {
  }

  lemma CommitEnds(s: State, w: nat, t: State)
    requires Next(s, CommitRevoke(w), t)
    ensures w in s.work && s.work[w].Revoking?
    ensures t.db == EndEntitlement(s.db, s.work[w].entitlement, Revoked, s.work[w].leases, s.work[w].at)
  {
  }
}
