/** Approving a pending access request on top of the permissions that already exist. */
module AccessDecisions {
  import opened Options
  import opened Lifetimes
  import opened Texts
  import opened Listings
  import opened AccessDatabase
  import opened ApprovalBatch

  /** What the controller approves; the context hash is that of `details` in this order. */
  datatype Approval = Approval(lifetime: Lifetime, connection: Option<Id>, details: Context)

  /** existing.find((entitlement) => entitlement.scope === scope) */
  function Find(entitlements: map<Id, Entitlement>, listing: seq<Id>, scope: Scope): (found: Option<Id>)
    ensures found.Some? ==> found.value in listing && found.value in entitlements && entitlements[found.value].scope == scope
    ensures found.None? ==> forall i | i in listing && i in entitlements :: entitlements[i].scope != scope
  {
    if listing == [] then None
    else if listing[0] in entitlements && entitlements[listing[0]].scope == scope then Some(listing[0])
    else
      assert forall i | i in listing :: i == listing[0] || i in listing[1..];
      Find(entitlements, listing[1..], scope)
  }

  datatype Plan = Plan(rows: seq<NewRow>, updates: seq<RowUpdate>, approved: seq<ApprovedScope>)

  /** Everything the planning loop reads. */
  datatype Reading = Reading(
    agent: Id,
    resource: Id,
    request: Id,
    scopes: seq<Scope>,
    entitlements: map<Id, Entitlement>,
    listing: seq<Id>,
    newIds: seq<Id>,
    approval: Approval)

  function Current(r: Reading, k: nat): Option<Id>
    requires k < |r.scopes|
  {
    Find(r.entitlements, r.listing, r.scopes[k])
  }

  predicate Missing(r: Reading, k: nat)
    requires k < |r.scopes|
  {
    Current(r, k).None?
  }

  predicate Changes(r: Reading, k: nat)
    requires k < |r.scopes|
  {
    var c := Current(r, k);
    c.Some? && var e := r.entitlements[c.value];
    Extended(e.lifetime, r.approval.lifetime) != e.lifetime || e.contextHash != r.approval.details
  }

  function RowFor(r: Reading, k: nat): NewRow
    requires k < |r.scopes| && k < |r.newIds|
  {
    NewRow(r.newIds[k],
           Entitlement(r.agent, r.resource, r.approval.connection, r.approval.details, r.approval.details,
                       r.scopes[k], r.approval.lifetime, None, Some(r.request)))
  }

  function UpdateFor(r: Reading, k: nat): RowUpdate
    requires k < |r.scopes| && Current(r, k).Some?
  {
    var id := Current(r, k).value;
    RowUpdate(id, Extended(r.entitlements[id].lifetime, r.approval.lifetime), r.approval.details)
  }

  function ApprovedFor(r: Reading, k: nat): ApprovedScope
    requires k < |r.scopes| && k < |r.newIds|
  {
    ApprovedScope(r.scopes[k], if Missing(r, k) then r.newIds[k] else Current(r, k).value)
  }

  // The indices that lead to an insert and those that lead to an update.

  function MissingBelow(r: Reading, n: nat): (ks: seq<nat>)
    requires n <= |r.scopes|
    ensures forall j | 0 <= j < |ks| :: ks[j] < n && Missing(r, ks[j])
    ensures forall j, l | 0 <= j < l < |ks| :: ks[j] < ks[l]
    ensures forall k | 0 <= k < n && Missing(r, k) :: k in ks
  {
    if n == 0 then [] else MissingBelow(r, n - 1) + if Missing(r, n - 1) then [n - 1] else []
  }

  function ChangesBelow(r: Reading, n: nat): (ks: seq<nat>)
    requires n <= |r.scopes|
    ensures forall j | 0 <= j < |ks| :: ks[j] < n && Changes(r, ks[j])
    ensures forall j, l | 0 <= j < l < |ks| :: ks[j] < ks[l]
    ensures forall k | 0 <= k < n && Changes(r, k) :: k in ks
  {
    if n == 0 then [] else ChangesBelow(r, n - 1) + if Changes(r, n - 1) then [n - 1] else []
  }

  function PlanBelow(r: Reading, n: nat): (p: Plan)
    requires n <= |r.scopes| <= |r.newIds|
    ensures |p.approved| == n
  {
    var inserts, updates := MissingBelow(r, n), ChangesBelow(r, n);
    Plan(seq(|inserts|, j requires 0 <= j < |inserts| => RowFor(r, inserts[j])),
         seq(|updates|, j requires 0 <= j < |updates| => UpdateFor(r, updates[j])),
         seq(n, k requires 0 <= k < n => ApprovedFor(r, k)))
  }

  /** The planning loop of decideAgentAccessRequest. */
  method PlanApproval(r: Reading) returns (rows: seq<NewRow>, updates: seq<RowUpdate>, approved: seq<ApprovedScope>)
    requires |r.scopes| <= |r.newIds|
    ensures Plan(rows, updates, approved) == PlanBelow(r, |r.scopes|)
  {
    rows, updates, approved := [], [], [];
    var k := 0;
    while k < |r.scopes|
      invariant 0 <= k <= |r.scopes|
      invariant rows == PlanBelow(r, k).rows
      invariant updates == PlanBelow(r, k).updates
      invariant approved == PlanBelow(r, k).approved
    {
      PlanStep(r, k);
      var scope := r.scopes[k];
      var current := Find(r.entitlements, r.listing, scope);
      if current.Some? {
        var e := r.entitlements[current.value];
        var shouldPersist := r.approval.lifetime.Persistent? && !e.lifetime.Persistent?;
        var shouldExtend := r.approval.lifetime.Until? && !e.lifetime.Persistent?
                            && (e.lifetime.Once? || e.lifetime.t < r.approval.lifetime.t);
        if shouldPersist || shouldExtend || e.contextHash != r.approval.details {
          var lifetime := if shouldPersist then Persistent else if shouldExtend then r.approval.lifetime else e.lifetime;
          assert RowUpdate(current.value, lifetime, r.approval.details) == UpdateFor(r, k);
          updates := updates + [RowUpdate(current.value, lifetime, r.approval.details)];
        }
        approved := approved + [ApprovedScope(scope, current.value)];
      } else {
        var row := Entitlement(r.agent, r.resource, r.approval.connection, r.approval.details, r.approval.details,
                               scope, r.approval.lifetime, None, Some(r.request));
        rows := rows + [NewRow(r.newIds[k], row)];
        approved := approved + [ApprovedScope(scope, r.newIds[k])];
      }
      k := k + 1;
    }
  }

  lemma PlanStep(r: Reading, k: nat)
    requires k < |r.scopes| <= |r.newIds|
    ensures var p, q := PlanBelow(r, k), PlanBelow(r, k + 1);
            && q.rows == p.rows + (if Missing(r, k) then [RowFor(r, k)] else [])
            && q.updates == p.updates + (if Changes(r, k) then [UpdateFor(r, k)] else [])
            && q.approved == p.approved + [ApprovedFor(r, k)]
  {
    PlanStepRows(r, k);
    PlanStepUpdates(r, k);
    PlanStepApproved(r, k);
  }

  lemma PlanStepRows(r: Reading, k: nat)
    requires k < |r.scopes| <= |r.newIds|
    ensures PlanBelow(r, k + 1).rows == PlanBelow(r, k).rows + (if Missing(r, k) then [RowFor(r, k)] else [])
  {
  }

  lemma PlanStepUpdates(r: Reading, k: nat)
    requires k < |r.scopes| <= |r.newIds|
    ensures PlanBelow(r, k + 1).updates == PlanBelow(r, k).updates + (if Changes(r, k) then [UpdateFor(r, k)] else [])
  {
  }

  lemma PlanStepApproved(r: Reading, k: nat)
    requires k < |r.scopes| <= |r.newIds|
    ensures PlanBelow(r, k + 1).approved == PlanBelow(r, k).approved + [ApprovedFor(r, k)]
  {
  }

  // ---- One undisturbed approval: read, plan, store ----

  function DecisionFor(r: Reading): Decision
    requires |r.scopes| <= |r.newIds|
  {
    Decision(PlanBelow(r, |r.scopes|).approved, r.approval.connection, r.approval.details)
  }

  /** The batch that the plan of `r` leads to, on the database as it is by then. */
  function StoreApproval(db: Db, r: Reading): (Db, ApproveOutcome)
    requires |r.scopes| <= |r.newIds|
  {
    var p := PlanBelow(r, |r.scopes|);
    ApproveAccessRequest(db, p.rows, p.updates, r.request, DecisionFor(r))
  }

  /** The reading is of this very database, for a pending request whose target is available. */
  ghost predicate ReadFrom(db: Db, r: Reading, now: nat) {
    && r.entitlements == db.entitlements
    && r.request in db.requests
    && db.requests[r.request].status == Pending
    && db.requests[r.request].agent == r.agent && db.requests[r.request].resource == r.resource
    && db.requests[r.request].scopes == r.scopes && Distinct(r.scopes)
    && Reachable(db, r.resource, r.approval.connection)
    && Lists(r.listing, ActiveInContext(db, r.agent, r.resource, r.approval.connection, r.approval.details, now))
    && |r.newIds| == |r.scopes| && Distinct(r.newIds)
    && forall k | 0 <= k < |r.newIds| :: r.newIds[k] !in db.entitlements
  }

  /** Nothing else is stored between reading and storing. */
  ghost predicate Undisturbed(db: Db, r: Reading, now: nat) {
    UniqueOpen(db.entitlements) && ReadFrom(db, r, now)
  }

  function TargetKey(r: Reading, k: nat): Key
    requires k < |r.scopes|
  {
    Key(r.agent, r.resource, r.approval.connection, r.approval.details, r.scopes[k])
  }

  /** No open row holds the key of scope k, except the one the approval builds on. */
  predicate Unblocked(r: Reading, k: nat)
    requires k < |r.scopes|
  {
    KeyFree(r.entitlements, TargetKey(r, k), Current(r, k))
  }

  lemma CurrentFacts(db: Db, r: Reading, now: nat, k: nat)
    requires Undisturbed(db, r, now) && k < |r.scopes| && Current(r, k).Some?
    ensures var id := Current(r, k).value;
            && id in db.entitlements
            && var e := db.entitlements[id];
            && InContext(e, r.agent, r.resource, r.approval.connection, r.approval.details)
            && ActiveAt(e, now) && e.scope == r.scopes[k]
            && KeyOf(e.(contextHash := r.approval.details)) == TargetKey(r, k)
  {
    assert Current(r, k).value in r.listing;
  }

  lemma MissingInserts(db: Db, r: Reading, now: nat, k: nat)
    requires Undisturbed(db, r, now) && k < |r.scopes| && Missing(r, k)
    ensures CanInsert(db, RowFor(r, k).id, RowFor(r, k).row, r.request) <==> Unblocked(r, k)
    ensures KeyOf(RowFor(r, k).row) == TargetKey(r, k)
  {
  }

  lemma ChangesConflict(db: Db, r: Reading, now: nat, k: nat)
    requires Undisturbed(db, r, now) && k < |r.scopes| && Changes(r, k)
    ensures UpdateApplies(db, UpdateFor(r, k))
    ensures UpdateConflicts(db, UpdateFor(r, k)) <==> !Unblocked(r, k)
  {
    CurrentFacts(db, r, now, k);
  }

  /** An approval that has nothing to change is not blocked: its row already holds the key. */
  lemma KeptUnblocked(db: Db, r: Reading, now: nat, k: nat)
    requires Undisturbed(db, r, now) && k < |r.scopes| && !Missing(r, k) && !Changes(r, k)
    ensures Unblocked(r, k)
  {
    CurrentFacts(db, r, now, k);
    var id := Current(r, k).value;
    forall i | i in db.entitlements && Open(db.entitlements[i]) && KeyOf(db.entitlements[i]) == TargetKey(r, k)
      ensures i == id
    {
      assert KeyOf(db.entitlements[id]) == TargetKey(r, k);
    }
  }

  lemma PlanApart(db: Db, r: Reading, now: nat)
    requires Undisturbed(db, r, now)
    ensures Apart(PlanBelow(r, |r.scopes|).rows)
    ensures Independent(db, PlanBelow(r, |r.scopes|).updates)
  {
    var n := |r.scopes|;
    var p, ks, us := PlanBelow(r, n), MissingBelow(r, n), ChangesBelow(r, n);
    forall i, j | 0 <= i < j < |p.rows|
      ensures p.rows[i].id != p.rows[j].id && KeyOf(p.rows[i].row) != KeyOf(p.rows[j].row)
    {
      assert r.newIds[ks[i]] != r.newIds[ks[j]] && r.scopes[ks[i]] != r.scopes[ks[j]];
    }
    forall j | 0 <= j < |p.updates| ensures UpdateApplies(db, p.updates[j]) {
      ChangesConflict(db, r, now, us[j]);
    }
    forall i, j | 0 <= i < j < |p.updates|
      ensures p.updates[i].id != p.updates[j].id
      ensures db.entitlements[p.updates[i].id].scope != db.entitlements[p.updates[j].id].scope
    {
      CurrentFacts(db, r, now, us[i]);
      CurrentFacts(db, r, now, us[j]);
      assert r.scopes[us[i]] != r.scopes[us[j]];
    }
  }

  /** The inserts of one approval do not disturb its updates. */
  lemma UpdatesAfterInserts(db: Db, d: Db, r: Reading, now: nat)
    requires Undisturbed(db, r, now)
    requires Inserted(db, d, PlanBelow(r, |r.scopes|).rows, r.request)
    ensures Independent(d, PlanBelow(r, |r.scopes|).updates)
    ensures NoConflict(d, PlanBelow(r, |r.scopes|).updates) <==> NoConflict(db, PlanBelow(r, |r.scopes|).updates)
  {
    PlanApart(db, r, now);
    var n := |r.scopes|;
    var p, us := PlanBelow(r, n), ChangesBelow(r, n);
    forall j | 0 <= j < |p.updates| ensures UpdateConflicts(d, p.updates[j]) <==> UpdateConflicts(db, p.updates[j]) {
      UpdateAfterInserts(db, d, r, now, us[j]);
    }
  }

  lemma UpdateAfterInserts(db: Db, d: Db, r: Reading, now: nat, k: nat)
    requires Undisturbed(db, r, now) && k < |r.scopes| && Changes(r, k)
    requires Inserted(db, d, PlanBelow(r, |r.scopes|).rows, r.request)
    ensures UpdateConflicts(d, UpdateFor(r, k)) <==> UpdateConflicts(db, UpdateFor(r, k))
  {
    CurrentFacts(db, r, now, k);
    var n := |r.scopes|;
    var p, ks := PlanBelow(r, n), MissingBelow(r, n);
    forall i | i in d.entitlements && i !in db.entitlements ensures KeyOf(d.entitlements[i]) != TargetKey(r, k) {
      var j :| 0 <= j < |p.rows| && p.rows[j].id == i && CanInsert(db, p.rows[j].id, p.rows[j].row, r.request);
      assert ks[j] != k;
      assert r.scopes[ks[j]] != r.scopes[k];
    }
  }

  ghost predicate AllUnblocked(r: Reading) {
    forall k | 0 <= k < |r.scopes| :: Unblocked(r, k)
  }

  /** Some row that the approval would rewrite has its new key taken. */
  ghost predicate RewriteBlocked(r: Reading) {
    exists k :: 0 <= k < |r.scopes| && Changes(r, k) && !Unblocked(r, k)
  }

  /** The row that serves scope k once the approval is stored. */
  function ServingRow(r: Reading, k: nat): Entitlement
    requires k < |r.scopes| <= |r.newIds|
  {
    if Missing(r, k) then Stored(RowFor(r, k).row, r.request)
    else if Changes(r, k) then Revised(r.entitlements[Current(r, k).value], UpdateFor(r, k))
    else r.entitlements[Current(r, k).value]
  }

  /** The entitlements after inserting and updating: each unblocked scope has its serving row,
      rows that serve no scope are as they were, and nothing else was added. */
  ghost predicate Granted(before: map<Id, Entitlement>, after: map<Id, Entitlement>, r: Reading)
    requires |r.scopes| <= |r.newIds|
  {
    && (forall k | 0 <= k < |r.scopes| && (Missing(r, k) ==> Unblocked(r, k)) ::
          ApprovedFor(r, k).entitlement in after && after[ApprovedFor(r, k).entitlement] == ServingRow(r, k))
    && (forall i | i in before && (forall k | 0 <= k < |r.scopes| :: Current(r, k) != Some(i)) ::
          i in after && after[i] == before[i])
    && (forall i | i in after && i !in before ::
          exists k :: 0 <= k < |r.scopes| && Missing(r, k) && Unblocked(r, k) && r.newIds[k] == i)
  }

  lemma InsertsExactlyUnblocked(db: Db, r: Reading, now: nat)
    requires Undisturbed(db, r, now)
    ensures AllAcceptable(db, PlanBelow(r, |r.scopes|).rows, r.request)
            <==> forall k | 0 <= k < |r.scopes| && Missing(r, k) :: Unblocked(r, k)
  {
    var n := |r.scopes|;
    var p, ks := PlanBelow(r, n), MissingBelow(r, n);
    if AllAcceptable(db, p.rows, r.request) {
      forall k | 0 <= k < n && Missing(r, k) ensures Unblocked(r, k) {
        var j :| 0 <= j < |ks| && ks[j] == k;
        assert p.rows[j] == RowFor(r, k);
        MissingInserts(db, r, now, k);
      }
    }
    if forall k | 0 <= k < n && Missing(r, k) :: Unblocked(r, k) {
      forall j | 0 <= j < |p.rows| ensures CanInsert(db, p.rows[j].id, p.rows[j].row, r.request) {
        MissingInserts(db, r, now, ks[j]);
      }
    }
  }

  lemma ConflictsExactlyBlocked(db: Db, r: Reading, now: nat)
    requires Undisturbed(db, r, now)
    ensures NoConflict(db, PlanBelow(r, |r.scopes|).updates) <==> !RewriteBlocked(r)
  {
    var n := |r.scopes|;
    var p, us := PlanBelow(r, n), ChangesBelow(r, n);
    if RewriteBlocked(r) {
      var k :| 0 <= k < n && Changes(r, k) && !Unblocked(r, k);
      var j :| 0 <= j < |us| && us[j] == k;
      assert p.updates[j] == UpdateFor(r, k);
      ChangesConflict(db, r, now, k);
    } else {
      forall j | 0 <= j < |p.updates| ensures !UpdateConflicts(db, p.updates[j]) {
        ChangesConflict(db, r, now, us[j]);
      }
    }
  }

  /** Serving row of scope k after the two halves of the batch. */
  lemma BatchServes(db: Db, d: Db, f: Db, r: Reading, now: nat, k: nat)
    requires Undisturbed(db, r, now) && k < |r.scopes| && (Missing(r, k) ==> Unblocked(r, k))
    requires Inserted(db, d, PlanBelow(r, |r.scopes|).rows, r.request)
    requires Updated(d, f, PlanBelow(r, |r.scopes|).updates)
    ensures ApprovedFor(r, k).entitlement in f.entitlements
    ensures f.entitlements[ApprovedFor(r, k).entitlement] == ServingRow(r, k)
  {
    var n := |r.scopes|;
    var p, us := PlanBelow(r, n), ChangesBelow(r, n);
    if Missing(r, k) {
      BatchServesNew(db, d, f, r, now, k);
    } else {
      CurrentFacts(db, r, now, k);
      var id := Current(r, k).value;
      if Changes(r, k) {
        var j :| 0 <= j < |us| && us[j] == k;
        assert p.updates[j] == UpdateFor(r, k);
      } else {
        forall l | 0 <= l < |p.updates| ensures p.updates[l].id != id {
          CurrentFacts(db, r, now, us[l]);
          assert us[l] != k ==> r.scopes[us[l]] != r.scopes[k];
        }
      }
    }
  }

  lemma BatchServesNew(db: Db, d: Db, f: Db, r: Reading, now: nat, k: nat)
    requires Undisturbed(db, r, now) && k < |r.scopes| && Missing(r, k) && Unblocked(r, k)
    requires Inserted(db, d, PlanBelow(r, |r.scopes|).rows, r.request)
    requires Updated(d, f, PlanBelow(r, |r.scopes|).updates)
    ensures ApprovedFor(r, k).entitlement in f.entitlements
    ensures f.entitlements[ApprovedFor(r, k).entitlement] == ServingRow(r, k)
  {
    var p, ks, us := PlanBelow(r, |r.scopes|), MissingBelow(r, |r.scopes|), ChangesBelow(r, |r.scopes|);
    var j :| 0 <= j < |ks| && ks[j] == k;
    assert p.rows[j] == RowFor(r, k);
    MissingInserts(db, r, now, k);
    assert r.newIds[k] in d.entitlements;
    forall l | 0 <= l < |p.updates| ensures p.updates[l].id != r.newIds[k] {
      CurrentFacts(db, r, now, us[l]);
    }
  }

  lemma BatchFrames(db: Db, d: Db, f: Db, r: Reading, now: nat)
    requires Undisturbed(db, r, now)
    requires Inserted(db, d, PlanBelow(r, |r.scopes|).rows, r.request)
    requires Updated(d, f, PlanBelow(r, |r.scopes|).updates)
    ensures Granted(db.entitlements, f.entitlements, r)
  {
    forall k | 0 <= k < |r.scopes| && (Missing(r, k) ==> Unblocked(r, k))
      ensures ApprovedFor(r, k).entitlement in f.entitlements
      ensures f.entitlements[ApprovedFor(r, k).entitlement] == ServingRow(r, k)
    {
      BatchServes(db, d, f, r, now, k);
    }
    forall i | i in db.entitlements && (forall k | 0 <= k < |r.scopes| :: Current(r, k) != Some(i))
      ensures i in f.entitlements && f.entitlements[i] == db.entitlements[i]
    {
      BatchSpares(db, d, f, r, i);
    }
    forall i | i in f.entitlements && i !in db.entitlements
      ensures exists k :: 0 <= k < |r.scopes| && Missing(r, k) && Unblocked(r, k) && r.newIds[k] == i
    {
      BatchAdds(db, d, f, r, now, i);
    }
  }

  lemma BatchSpares(db: Db, d: Db, f: Db, r: Reading, i: Id)
    requires |r.scopes| <= |r.newIds| && i in db.entitlements && forall k | 0 <= k < |r.scopes| :: Current(r, k) != Some(i)
    requires Inserted(db, d, PlanBelow(r, |r.scopes|).rows, r.request)
    requires Updated(d, f, PlanBelow(r, |r.scopes|).updates)
    ensures i in f.entitlements && f.entitlements[i] == db.entitlements[i]
  {
    var updates, ks := PlanBelow(r, |r.scopes|).updates, ChangesBelow(r, |r.scopes|);
    assert forall l | 0 <= l < |updates| :: updates[l] == UpdateFor(r, ks[l]) && Current(r, ks[l]) != Some(i);
  }

  lemma BatchAdds(db: Db, d: Db, f: Db, r: Reading, now: nat, i: Id)
    requires Undisturbed(db, r, now) && i in f.entitlements && i !in db.entitlements
    requires Inserted(db, d, PlanBelow(r, |r.scopes|).rows, r.request)
    requires Updated(d, f, PlanBelow(r, |r.scopes|).updates)
    ensures exists k :: 0 <= k < |r.scopes| && Missing(r, k) && Unblocked(r, k) && r.newIds[k] == i
  {
    var rows, ks := PlanBelow(r, |r.scopes|).rows, MissingBelow(r, |r.scopes|);
    var j :| 0 <= j < |rows| && rows[j].id == i && CanInsert(db, rows[j].id, rows[j].row, r.request);
    MissingInserts(db, r, now, ks[j]);
  }

  lemma ServingRowFits(db: Db, r: Reading, now: nat, k: nat)
    requires Undisturbed(db, r, now) && k < |r.scopes|
    ensures var e := ServingRow(r, k);
            && KeyOf(e) == TargetKey(r, k) && Open(e) && multiset(e.details) == multiset(r.approval.details)
            && Leq(r.approval.lifetime, e.lifetime)
    ensures Current(r, k).Some? ==> Current(r, k).value in db.entitlements
                                    && Leq(db.entitlements[Current(r, k).value].lifetime, ServingRow(r, k).lifetime)
  {
    if Current(r, k).Some? {
      CurrentFacts(db, r, now, k);
      ExtendedIsLeastUpperBound(db.entitlements[Current(r, k).value].lifetime, r.approval.lifetime, Persistent);
    }
    LeqOrders(r.approval.lifetime, r.approval.lifetime, r.approval.lifetime);
  }

  predicate RowFits(entitlements: map<Id, Entitlement>, a: ApprovedScope, agent: Id, resource: Id, connection: Option<Id>) {
    a.entitlement in entitlements &&
    var e := entitlements[a.entitlement];
    e.agent == agent && e.resource == resource && e.connection == connection && e.scope == a.scope && Open(e)
  }

  lemma ApprovedRowFits(db: Db, f: Db, r: Reading, now: nat, k: nat)
    requires Undisturbed(db, r, now) && Granted(db.entitlements, f.entitlements, r) && k < |r.scopes|
    ensures RowFits(f.entitlements, ApprovedFor(r, k), r.agent, r.resource, r.approval.connection)
            <==> (Missing(r, k) ==> Unblocked(r, k))
  {
    if Missing(r, k) && !Unblocked(r, k) {
      NotInserted(db, f, r, now, k);
    } else {
      ServingRowFits(db, r, now, k);
    }
  }

  lemma DecisionAllowedExactly(db: Db, f: Db, r: Reading, now: nat)
    requires Undisturbed(db, r, now) && SameBut(db, f) && Granted(db.entitlements, f.entitlements, r)
    ensures DecisionAllowed(f, r.request, DecisionFor(r))
            <==> forall k | 0 <= k < |r.scopes| && Missing(r, k) :: Unblocked(r, k)
  {
    var d := DecisionFor(r);
    forall k | 0 <= k < |r.scopes|
      ensures RowFits(f.entitlements, d.approved[k], r.agent, r.resource, r.approval.connection)
              <==> (Missing(r, k) ==> Unblocked(r, k))
    {
      ApprovedRowFits(db, f, r, now, k);
    }
    AllowedByRows(f, r.request, d);
  }

  lemma AllowedByRows(f: Db, request: Id, d: Decision)
    requires request in f.requests && f.requests[request].status == Pending
    requires f.requests[request].resource in f.activeResources && |d.approved| == |f.requests[request].scopes|
    ensures DecisionAllowed(f, request, d)
            <==> forall i | 0 <= i < |d.approved| ::
                   RowFits(f.entitlements, d.approved[i], f.requests[request].agent, f.requests[request].resource, d.connection)
  {
  }

  lemma NotInserted(db: Db, f: Db, r: Reading, now: nat, k: nat)
    requires Undisturbed(db, r, now) && Granted(db.entitlements, f.entitlements, r)
    requires k < |r.scopes| && Missing(r, k) && !Unblocked(r, k)
    ensures r.newIds[k] !in f.entitlements
  {
  }

  /** The request as an approval leaves it. */
  function DecidedRequest(db: Db, r: Reading): Request
    requires r.request in db.requests && |r.scopes| <= |r.newIds|
  {
    db.requests[r.request].(status := Approved, approved := DecisionFor(r).approved,
                            connection := r.approval.connection, details := r.approval.details)
  }

  /** What one undisturbed approval does. It succeeds exactly when no open row, apart from those it
      builds on, holds the key of a requested scope. A refused approval leaves the request pending,
      but the rows of its unblocked scopes stay granted unless a rewrite was what failed. */
  lemma ApprovalOutcome(db: Db, r: Reading, now: nat)
    requires Undisturbed(db, r, now)
    ensures var (f, outcome) := StoreApproval(db, r);
            && (outcome == RequestApproved <==> AllUnblocked(r))
            && (outcome == ConstraintFailed <==> RewriteBlocked(r))
            && (outcome == EntitlementsChanged <==> !AllUnblocked(r) && !RewriteBlocked(r))
    ensures var (f, outcome) := StoreApproval(db, r);
            && (RewriteBlocked(r) ==> f == db)
            && (!RewriteBlocked(r) ==> Granted(db.entitlements, f.entitlements, r))
            && f.requests == (if AllUnblocked(r) then db.requests[r.request := DecidedRequest(db, r)] else db.requests)
            && f.leases == db.leases
  {
    var f := Planned(db, r);
    ApprovalResult(db, r, now, f);
    DecideKeeps(db, f, r);
  }

  /** The tables after the inserts and the updates of the batch. */
  function Planned(db: Db, r: Reading): Db
    requires |r.scopes| <= |r.newIds|
  {
    UpdateAll(InsertAll(db, PlanBelow(r, |r.scopes|).rows, r.request), PlanBelow(r, |r.scopes|).updates)
  }

  lemma ApprovalResult(db: Db, r: Reading, now: nat, f: Db)
    requires Undisturbed(db, r, now) && f == Planned(db, r)
    ensures SameBut(db, f) && Granted(db.entitlements, f.entitlements, r)
    ensures AllUnblocked(r) ==> !RewriteBlocked(r) && DecisionAllowed(f, r.request, DecisionFor(r))
    ensures StoreApproval(db, r)
            == if RewriteBlocked(r) then (db, ConstraintFailed)
               else if AllUnblocked(r) then (DecideRequest(f, r.request, DecisionFor(r)), RequestApproved)
               else (f, EntitlementsChanged)
  {
    var rows, updates := PlanBelow(r, |r.scopes|).rows, PlanBelow(r, |r.scopes|).updates;
    BatchParts(db, r, now, rows, updates, InsertAll(db, rows, r.request));
    UnblockedSplits(db, r, now);
    DecisionAllowedExactly(db, f, r, now);
    BatchOutcome(db, rows, updates, r.request, DecisionFor(r), f);
  }

  lemma DecideKeeps(db: Db, f: Db, r: Reading)
    requires |r.scopes| <= |r.newIds| && r.request in db.requests && SameBut(db, f)
    ensures DecisionAllowed(f, r.request, DecisionFor(r)) ==>
              var d := DecideRequest(f, r.request, DecisionFor(r));
              && d.entitlements == f.entitlements && d.leases == db.leases
              && d.requests == db.requests[r.request := DecidedRequest(db, r)]
  {
  }

  lemma BatchOutcome(db: Db, rows: seq<NewRow>, updates: seq<RowUpdate>, request: Id, d: Decision, f: Db)
    requires f == UpdateAll(InsertAll(db, rows, request), updates)
    requires AllUpdated(InsertAll(db, rows, request), updates)
    requires DecisionAllowed(f, request, d) <==> AllInserted(db, rows, request)
    ensures ApproveAccessRequest(db, rows, updates, request, d)
            == if SomeConflict(InsertAll(db, rows, request), updates) then (db, ConstraintFailed)
               else if AllInserted(db, rows, request) then (DecideRequest(f, request, d), RequestApproved)
               else (f, EntitlementsChanged)
  {
  }

  /** The inserts and the updates of the batch, each for itself. */
  lemma BatchParts(db: Db, r: Reading, now: nat, rows: seq<NewRow>, updates: seq<RowUpdate>, inserted: Db)
    requires Undisturbed(db, r, now)
    requires rows == PlanBelow(r, |r.scopes|).rows && updates == PlanBelow(r, |r.scopes|).updates
    requires inserted == InsertAll(db, rows, r.request)
    ensures AllInserted(db, rows, r.request) <==> forall k | 0 <= k < |r.scopes| && Missing(r, k) :: Unblocked(r, k)
    ensures SomeConflict(inserted, updates) <==> RewriteBlocked(r)
    ensures AllUpdated(inserted, updates)
    ensures SameBut(db, UpdateAll(inserted, updates))
    ensures Granted(db.entitlements, UpdateAll(inserted, updates).entitlements, r)
  {
    PlanApart(db, r, now);
    InsertAllFacts(db, rows, r.request);
    InsertsExactlyUnblocked(db, r, now);
    UpdatesAfterInserts(db, inserted, r, now);
    ConflictsExactlyBlocked(db, r, now);
    UpdateAllFacts(inserted, updates);
    BatchFrames(db, inserted, UpdateAll(inserted, updates), r, now);
  }

  lemma UnblockedSplits(db: Db, r: Reading, now: nat)
    requires Undisturbed(db, r, now)
    ensures AllUnblocked(r)
            <==> !RewriteBlocked(r) && forall k | 0 <= k < |r.scopes| && Missing(r, k) :: Unblocked(r, k)
  {
    forall k | 0 <= k < |r.scopes| && !Missing(r, k) && !Changes(r, k) ensures Unblocked(r, k) {
      KeptUnblocked(db, r, now, k);
    }
  }

  /** Every scope of an approved request ends with at least the approved lifetime, under the
      approved context hash, and no lifetime shrinks. */
  lemma ApprovalGrants(db: Db, r: Reading, now: nat)
    requires Undisturbed(db, r, now) && StoreApproval(db, r).1 == RequestApproved
    ensures var f := StoreApproval(db, r).0;
            && r.request in f.requests && f.requests[r.request].status == Approved
            && |f.requests[r.request].approved| == |r.scopes|
            && forall k | 0 <= k < |r.scopes| ::
                 var a := f.requests[r.request].approved[k];
                 && a.scope == r.scopes[k] && a.entitlement in f.entitlements
                 && var e := f.entitlements[a.entitlement];
                 && KeyOf(e) == TargetKey(r, k) && Open(e) && Leq(r.approval.lifetime, e.lifetime)
    ensures var f := StoreApproval(db, r).0;
            forall i | i in db.entitlements ::
              i in f.entitlements && Leq(db.entitlements[i].lifetime, f.entitlements[i].lifetime)
  {
    ApprovalOutcome(db, r, now);
    var f := StoreApproval(db, r).0;
    forall k | 0 <= k < |r.scopes|
      ensures f.requests[r.request].approved[k] == ApprovedFor(r, k)
      ensures ApprovedFor(r, k).entitlement in f.entitlements
      ensures f.entitlements[ApprovedFor(r, k).entitlement] == ServingRow(r, k)
    {
      assert Unblocked(r, k);
    }
    forall k | 0 <= k < |r.scopes| ensures KeyOf(ServingRow(r, k)) == TargetKey(r, k) && Open(ServingRow(r, k)) && Leq(r.approval.lifetime, ServingRow(r, k).lifetime)
    {
      ServingRowFits(db, r, now, k);
    }
    forall i | i in db.entitlements
      ensures i in f.entitlements && Leq(db.entitlements[i].lifetime, f.entitlements[i].lifetime)
    {
      LifetimeKept(db, f, r, now, i);
    }
  }

  lemma LifetimeKept(db: Db, f: Db, r: Reading, now: nat, i: Id)
    requires Undisturbed(db, r, now) && Granted(db.entitlements, f.entitlements, r) && i in db.entitlements
    ensures i in f.entitlements && Leq(db.entitlements[i].lifetime, f.entitlements[i].lifetime)
  {
    if k :| 0 <= k < |r.scopes| && Current(r, k) == Some(i) {
      ServingRowFits(db, r, now, k);
      assert ApprovedFor(r, k).entitlement == i;
    } else {
      LeqOrders(db.entitlements[i].lifetime, db.entitlements[i].lifetime, Once);
    }
  }

  /** A time-limited permission that ran out but was never ended keeps its key, and so refuses
      every later approval of the same scope in the same context. */
  lemma ExpiredRowBlocksApproval(db: Db, r: Reading, now: nat, k: nat, i: Id)
    requires Undisturbed(db, r, now) && k < |r.scopes|
    requires i in db.entitlements && Open(db.entitlements[i]) && HasExpired(db.entitlements[i].lifetime, now)
    requires KeyOf(db.entitlements[i]) == TargetKey(r, k)
    ensures StoreApproval(db, r).1 != RequestApproved
  {
    ApprovalOutcome(db, r, now);
    if Unblocked(r, k) {
      CurrentFacts(db, r, now, k);
    }
  }

  /** Deciding again on what is stored by then: the same request, context and lifetime. */
  ghost predicate SameApproval(r: Reading, again: Reading) {
    && again.agent == r.agent && again.resource == r.resource && again.request == r.request
    && again.scopes == r.scopes && again.approval == r.approval
  }

  /** The one retry that follows a refused approval is refused too, unless something else has
      changed the permissions in between. */
  lemma RetryRefused(db: Db, r: Reading, now: nat, again: Reading, later: nat)
    requires Undisturbed(db, r, now) && StoreApproval(db, r).1 == EntitlementsChanged
    requires SameApproval(r, again) && now <= later && Undisturbed(StoreApproval(db, r).0, again, later)
    ensures StoreApproval(StoreApproval(db, r).0, again).1 != RequestApproved
  {
    var f := StoreApproval(db, r).0;
    ApprovalOutcome(db, r, now);
    UnblockedSplits(db, r, now);
    var k :| 0 <= k < |r.scopes| && Missing(r, k) && !Unblocked(r, k);
    StillBlocked(db, f, r, now, again, later, k);
    ApprovalOutcome(f, again, later);
  }

  lemma StillBlocked(db: Db, f: Db, r: Reading, now: nat, again: Reading, later: nat, k: nat)
    requires Undisturbed(db, r, now) && SameApproval(r, again) && now <= later && Undisturbed(f, again, later)
    requires Granted(db.entitlements, f.entitlements, r)
    requires k < |r.scopes| && Missing(r, k) && !Unblocked(r, k)
    ensures !Unblocked(again, k)
  {
    var i :| i in db.entitlements && Open(db.entitlements[i]) && KeyOf(db.entitlements[i]) == TargetKey(r, k);
    assert i !in r.listing;
    forall j | 0 <= j < |r.scopes| ensures Current(r, j) != Some(i) {
    }
    assert f.entitlements[i] == db.entitlements[i];
    assert i !in again.listing;
  }

  /** A refused approval is not without effect. When another scope's insert is what failed, every
      scope whose key was free is granted for good although the request stays pending. */
  lemma RefusedApprovalStillGrants(db: Db, r: Reading, now: nat, k: nat)
    requires Undisturbed(db, r, now) && !AllUnblocked(r) && !RewriteBlocked(r)
    requires k < |r.scopes| && Missing(r, k) && Unblocked(r, k)
    ensures var (f, outcome) := StoreApproval(db, r);
            && outcome == EntitlementsChanged && f.requests == db.requests
            && r.newIds[k] in f.entitlements
            && f.entitlements[r.newIds[k]] == Stored(RowFor(r, k).row, r.request)
  {
    ApprovalOutcome(db, r, now);
    assert ApprovedFor(r, k).entitlement == r.newIds[k];
  }

  const CONTEXT: Context := [[0x63]]
  const READ: Scope := [0x72]
  const WRITE: Scope := [0x77]

  /** Agent and resource of the example are arbitrary; `read` ran out at time 5 but was never ended. */
  function ExampleDb(agent: Id, api: Id): Db {
    Db(map["old" := Entitlement(agent, api, None, CONTEXT, CONTEXT, READ, Until(5), None, None)],
       map["request" := Request(agent, api, None, [READ, WRITE], CONTEXT, Pending, [], 20)],
       map[], {api}, {})
  }

  function ExampleReading(agent: Id, api: Id): Reading {
    Reading(agent, api, "request", [READ, WRITE], ExampleDb(agent, api).entitlements, [], ["new1", "new2"],
            Approval(Persistent, None, CONTEXT))
  }

  /** Such a case exists: approving `read` and `write` permanently at time 10 is refused over
      `read`, and `write` (scope 1) is granted all the same. */
  lemma RefusedApprovalExample(agent: Id, api: Id)
    ensures Undisturbed(ExampleDb(agent, api), ExampleReading(agent, api), 10)
    ensures var r := ExampleReading(agent, api);
            !AllUnblocked(r) && !RewriteBlocked(r) && Missing(r, 1) && Unblocked(r, 1)
  {
    ExampleUndisturbed(agent, api);
    ExampleBlocked(agent, api, ExampleReading(agent, api));
  }

  lemma ExampleUndisturbed(agent: Id, api: Id)
    ensures Undisturbed(ExampleDb(agent, api), ExampleReading(agent, api), 10)
  {
    var db, r := ExampleDb(agent, api), ExampleReading(agent, api);
    assert ActiveInContext(db, agent, api, None, CONTEXT, 10) == {};
    assert r.scopes[0] != r.scopes[1] && r.newIds[0] != r.newIds[1];
  }

  lemma ExampleBlocked(agent: Id, api: Id, r: Reading)
    requires r == ExampleReading(agent, api)
    ensures Missing(r, 1) && Unblocked(r, 1)
    ensures !RewriteBlocked(r) && !AllUnblocked(r)
  {
    assert r.scopes[0] == READ && r.scopes[1] == WRITE;
    assert KeyOf(r.entitlements["old"]) == TargetKey(r, 0);
    assert Missing(r, 0) && !Unblocked(r, 0);
    assert r.entitlements["old"].scope != TargetKey(r, 1).scope;
  }
}
