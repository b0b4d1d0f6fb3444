/** The approval batch over whatever is stored by the time it runs. */
module ApprovalEvolution {
  import opened Lifetimes
  import opened Texts
  import opened AccessDatabase
  import opened ApprovalBatch
  import opened AccessDecisions
  import opened RecordChanges

  /** An approval about to be stored finds the lifetimes it read unchanged. */
  ghost predicate TimelyApproval(db: Db, r: Reading) {
    forall k | 0 <= k < |r.scopes| && Changes(r, k) ::
      var i := Current(r, k).value;
      i in db.entitlements && Open(db.entitlements[i]) ==> db.entitlements[i].lifetime == r.entitlements[i].lifetime
  }

  /** Storing `u` does not shorten the row it names. */
  ghost predicate Grows(db: Db, u: RowUpdate) {
    UpdateApplies(db, u) ==> Leq(db.entitlements[u.id].lifetime, u.lifetime)
  }

  lemma {:induction false} InsertAllKeeps(db: Db, rows: seq<NewRow>, request: Id, timely: bool)
    requires UniqueOpen(db.entitlements)
    ensures var d := InsertAll(db, rows, request);
            && UniqueOpen(d.entitlements) && Evolves(db.entitlements, d.entitlements, timely) && SameBut(db, d)
            && (forall i | i in db.entitlements :: i in d.entitlements && d.entitlements[i] == db.entitlements[i])
    decreases |rows|
  {
    EvolvesReflexive(db.entitlements, timely);
    if rows != [] {
      var d := InsertEntitlement(db, rows[0].id, rows[0].row, request);
      InsertKeepsUnique(db, rows[0], request);
      InsertAllKeeps(d, rows[1..], request, timely);
    }
  }

  lemma InsertKeepsUnique(db: Db, row: NewRow, request: Id)
    requires UniqueOpen(db.entitlements)
    ensures UniqueOpen(InsertEntitlement(db, row.id, row.row, request).entitlements)
  {
  }

  lemma UpdateKeepsUnique(db: Db, u: RowUpdate)
    requires UniqueOpen(db.entitlements) && !UpdateConflicts(db, u)
    ensures UniqueOpen(UpdateEntitlement(db, u).entitlements)
  {
  }

  lemma UpdateEvolves(db: Db, u: RowUpdate, timely: bool)
    requires timely ==> Grows(db, u)
    ensures Evolves(db.entitlements, UpdateEntitlement(db, u).entitlements, timely)
  {
    EvolvesReflexive(db.entitlements, timely);
  }

  lemma {:induction false} UpdateAllKeeps(db: Db, updates: seq<RowUpdate>, timely: bool)
    requires UniqueOpen(db.entitlements) && !SomeConflict(db, updates)
    requires forall i, j | 0 <= i < j < |updates| :: updates[i].id != updates[j].id
    requires timely ==> forall j | 0 <= j < |updates| :: Grows(db, updates[j])
    ensures var d := UpdateAll(db, updates);
            UniqueOpen(d.entitlements) && Evolves(db.entitlements, d.entitlements, timely) && SameBut(db, d)
    decreases |updates|
  {
    EvolvesReflexive(db.entitlements, timely);
    if updates != [] {
      var d, rest := UpdateEntitlement(db, updates[0]), updates[1..];
      UpdateKeepsUnique(db, updates[0]);
      UpdateEvolves(db, updates[0], timely);
      if timely {
        forall j | 0 <= j < |rest| ensures Grows(d, rest[j]) {
          assert rest[j] == updates[j + 1] && Grows(db, updates[j + 1]);
        }
      }
      UpdateAllKeeps(d, rest, timely);
      EvolvesTransitive(db.entitlements, d.entitlements, UpdateAll(d, rest).entitlements, timely);
    }
  }

  /** The updates of a plan name different rows. */
  lemma PlanUpdatesApart(r: Reading)
    requires Distinct(r.scopes) && |r.scopes| <= |r.newIds|
    ensures var us := PlanBelow(r, |r.scopes|).updates;
            forall i, j | 0 <= i < j < |us| :: us[i].id != us[j].id
  {
    var us, ks := PlanBelow(r, |r.scopes|).updates, ChangesBelow(r, |r.scopes|);
    forall i, j | 0 <= i < j < |us| ensures us[i].id != us[j].id {
      assert r.scopes[ks[i]] != r.scopes[ks[j]];
    }
  }

  lemma TimelyUpdatesGrow(db: Db, d: Db, r: Reading)
    requires |r.scopes| <= |r.newIds| && TimelyApproval(db, r)
    requires forall i | i in r.entitlements :: i in db.entitlements
    requires forall i | i in db.entitlements :: i in d.entitlements && d.entitlements[i] == db.entitlements[i]
    ensures var us := PlanBelow(r, |r.scopes|).updates; forall j | 0 <= j < |us| :: Grows(d, us[j])
  {
    var us, ks := PlanBelow(r, |r.scopes|).updates, ChangesBelow(r, |r.scopes|);
    forall j | 0 <= j < |us| ensures Grows(d, us[j]) {
      var i := us[j].id;
      assert us[j] == UpdateFor(r, ks[j]) && i in r.entitlements;
      ExtendedIsLeastUpperBound(r.entitlements[i].lifetime, r.approval.lifetime, Persistent);
    }
  }

  lemma DecideEvolves(db: Db, request: Id, d: Decision)
    requires DecisionAllowed(db, request, d)
    ensures RequestsEvolve(db.requests, DecideRequest(db, request, d).requests)
    ensures DecideRequest(db, request, d).entitlements == db.entitlements
    ensures DecideRequest(db, request, d).leases == db.leases
  {
  }

  lemma BatchEvolves(db: Db, rows: seq<NewRow>, updates: seq<RowUpdate>, request: Id, decision: Decision, timely: bool)
    requires UniqueOpen(db.entitlements)
    requires forall i, j | 0 <= i < j < |updates| :: updates[i].id != updates[j].id
    requires timely ==> forall j | 0 <= j < |updates| :: Grows(InsertAll(db, rows, request), updates[j])
    ensures var f := ApproveAccessRequest(db, rows, updates, request, decision).0;
            UniqueOpen(f.entitlements) && Advances(db, f, timely)
  {
    var d := InsertAll(db, rows, request);
    EvolvesReflexive(db.entitlements, timely);
    InsertAllKeeps(db, rows, request, timely);
    if !SomeConflict(d, updates) {
      UpdateAllKeeps(d, updates, timely);
      var u := UpdateAll(d, updates);
      EvolvesTransitive(db.entitlements, d.entitlements, u.entitlements, timely);
      if DecisionAllowed(u, request, decision) { DecideEvolves(u, request, decision); }
    }
  }

  lemma ApprovalEvolves(db: Db, r: Reading, timely: bool)
    requires UniqueOpen(db.entitlements) && Distinct(r.scopes) && |r.scopes| <= |r.newIds|
    requires forall i | i in r.entitlements :: i in db.entitlements
    requires timely ==> TimelyApproval(db, r)
    ensures var f := StoreApproval(db, r).0;
            UniqueOpen(f.entitlements) && Advances(db, f, timely)
  {
    var rows, updates := PlanBelow(r, |r.scopes|).rows, PlanBelow(r, |r.scopes|).updates;
    PlanUpdatesApart(r);
    InsertAllKeeps(db, rows, r.request, timely);
    if timely { TimelyUpdatesGrow(db, InsertAll(db, rows, r.request), r); }
    BatchEvolves(db, rows, updates, r.request, DecisionFor(r), timely);
  }
}
