/** Runs of the access protocol in which any number of requests, decisions, grants, token issues,
    revocations and configuration changes overlap. An operation that reads the tables in one
    statement and writes them in another takes two steps here, or more. */
module AccessRuns {
  import opened Options
  import opened Lifetimes
  import opened Texts
  import opened AccessDatabase
  import opened AccessDecisions
  import opened TokenLeases
  import opened DirectGrants
  import opened RecordChanges
  import opened ApprovalEvolution

  /** What an operation under way holds in memory. */
  datatype Work =
    | Deciding(reading: Reading)
    | Granting(row: NewRow, grantedAt: nat, found: Option<Found>)
    | Issuing(draft: Draft, seen: map<Id, Entitlement>)
    | Revoking(entitlement: Id, leases: set<Id>, at: nat)
    | Ending(listed: set<Id>)

  /** `usedBy` records, for each lease, the permissions that its issue used up. */
  datatype State = State(db: Db, work: map<nat, Work>, usedBy: map<Id, set<Id>>)

  datatype Step =
    | Create(id: Id, request: Request)
    | Deny(id: Id)
    | BeginDecide(w: nat, reading: Reading, now: nat)
    | CommitDecide(w: nat)
    | BeginGrant(w: nat, row: NewRow, now: nat, found: Option<Found>)
    | TryInsertGrant(w: nat)
    | CommitGrant(w: nat)
    | BeginIssue(w: nat, draft: Draft, issuer: Issuer, now: nat)
    | CommitIssue(w: nat, id: Id)
    | BeginRevoke(w: nat, entitlement: Id, now: nat)
    | CommitRevoke(w: nat)
    | BeginEnds(w: nat, listed: set<Id>)
    | CommitEnds(w: nat, now: nat)
    | EndPermission(id: Id, reason: EndReason, now: nat)
    | RevokeLease(id: Id, now: nat)
    | Detach(connections: set<Id>)
    | Configure(resources: set<Id>, connections: set<Id>)

  // ---- Statements without a guard ----

  /** update ... set ended_at where id = ?, for each id listed, ended already or not */
  function EndListed(m: map<Id, Entitlement>, listed: set<Id>, now: nat): map<Id, Entitlement> {
    map i | i in m :: if i in listed then m[i].(ended := Some(End(now, Revoked))) else m[i]
  }

  function Without(connection: Option<Id>, gone: set<Id>): Option<Id> {
    if connection.Some? && connection.value in gone then None else connection
  }

  /** revokeResourceAuthorizationsByConnector takes the connection off requests and permissions,
      whatever their state. */
  function Detached(db: Db, gone: set<Id>): Db {
    db.(entitlements := (map i | i in db.entitlements ::
          db.entitlements[i].(connection := Without(db.entitlements[i].connection, gone))),
        requests := (map i | i in db.requests ::
          db.requests[i].(connection := Without(db.requests[i].connection, gone))),
        activeConnections := db.activeConnections - gone)
  }

  // ---- Steps ----

  ghost predicate Next(s: State, step: Step, t: State) {
    match step
    case Create(id, r) =>
      && id !in s.db.requests && r.resource in s.db.activeResources && (r.status == Pending || r.status == Approved)
      && t == s.(db := s.db.(requests := s.db.requests[id := r]))
    case Deny(id) =>
      && id in s.db.requests && s.db.requests[id].status == Pending
      && t == s.(db := s.db.(requests := s.db.requests[id := s.db.requests[id].(status := Denied, approved := [])]))
    case BeginDecide(w, reading, now) =>
      && w !in s.work && ReadFrom(s.db, reading, now)
      && t == s.(work := s.work[w := Deciding(reading)])
    case CommitDecide(w) =>
      && w in s.work && s.work[w].Deciding? && |s.work[w].reading.scopes| <= |s.work[w].reading.newIds|
      && t == s.(db := StoreApproval(s.db, s.work[w].reading).0, work := s.work - {w})
    case BeginGrant(w, row, now, found) =>
      && Finds(s.db, row, found)
      && (w in s.work ==> s.work[w] == Granting(row, now, None))
      && t == s.(work := s.work[w := Granting(row, now, found)])
    case TryInsertGrant(w) =>
      && w in s.work && s.work[w].Granting? && s.work[w].found.None?
      && t == s.(db := InsertGrant(s.db, s.work[w].row),
                 work := if CanInsertGrant(s.db, s.work[w].row) then s.work - {w} else s.work)
    case CommitGrant(w) =>
      && w in s.work && s.work[w].Granting? && s.work[w].found.Some?
      && t == s.(db := CompleteGrant(s.db, s.work[w].row, s.work[w].found.value, s.work[w].grantedAt), work := s.work - {w})
    case BeginIssue(w, draft, issuer, now) =>
      && w !in s.work && Drafted(s.db, draft, issuer, now)
      && t == s.(work := s.work[w := Issuing(draft, s.db.entitlements)])
    case CommitIssue(w, id) =>
      && w in s.work && s.work[w].Issuing?
      && var d := s.work[w].draft;
      t == State(IssueTokenLease(s.db, id, d.lease, d.boundary, d.consume), s.work - {w},
                 if CanIssue(s.db, id, d.lease, d.boundary) then s.usedBy[id := d.consume] else s.usedBy)
    case BeginRevoke(w, i, now) =>
      && w !in s.work && i in s.db.entitlements && Open(s.db.entitlements[i])
      && t == s.(work := s.work[w := Revoking(i, ActiveLeasesOf(s.db, i, now), now)])
    case CommitRevoke(w) =>
      && w in s.work && s.work[w].Revoking?
      && var k := s.work[w];
      t == s.(db := EndEntitlement(s.db, k.entitlement, Revoked, k.leases, k.at), work := s.work - {w})
    case BeginEnds(w, listed) =>
      && w !in s.work && (forall i | i in listed :: i in s.db.entitlements && Open(s.db.entitlements[i]))
      && t == s.(work := s.work[w := Ending(listed)])
    case CommitEnds(w, now) =>
      && w in s.work && s.work[w].Ending?
      && t == s.(db := s.db.(entitlements := EndListed(s.db.entitlements, s.work[w].listed, now)), work := s.work - {w})
    case EndPermission(i, reason, now) =>
      t == s.(db := EndEntitlement(s.db, i, reason, {}, now))
    case RevokeLease(id, now) =>
      t == s.(db := RevokeTokenLease(s.db, id, now))
    case Detach(connections) =>
      t == s.(db := if UniqueOpen(Detached(s.db, connections).entitlements) then Detached(s.db, connections) else s.db)
    case Configure(resources, connections) =>
      t == s.(db := s.db.(activeResources := resources, activeConnections := connections))
  }

  /** The row a grant is about to raise is open and as long as when it was read. */
  predicate TimelyGrant(db: Db, row: NewRow, found: Found, now: nat) {
    found.id in db.entitlements && !HasExpired(found.row.lifetime, now) && Raises(found.row, row.row) ==>
      Open(db.entitlements[found.id]) && db.entitlements[found.id].lifetime == found.row.lifetime
  }

  /** An approval or a grant is stored over the lifetimes it read. */
  ghost predicate TimelyStep(s: State, step: Step) {
    && (step.CommitDecide? && step.w in s.work && s.work[step.w].Deciding? ==> TimelyApproval(s.db, s.work[step.w].reading))
    && (step.CommitGrant? && step.w in s.work && s.work[step.w].Granting? && s.work[step.w].found.Some? ==>
          TimelyGrant(s.db, s.work[step.w].row, s.work[step.w].found.value, s.work[step.w].grantedAt))
  }

  // ---- What every step does to the tables ----

  /** What an operation under way has read stays behind the tables, not apart from them. */
  ghost predicate WorkFollows(s: State, timely: bool) {
    forall w | w in s.work :: Follows(s.db, s.work[w], timely)
  }

  ghost predicate Follows(db: Db, work: Work, timely: bool) {
    match work
    case Deciding(r) => Moves(r.entitlements, db.entitlements, timely) && Distinct(r.scopes) && |r.scopes| <= |r.newIds|
    case Granting(_, _, found) =>
      found.Some? ==> found.value.id in db.entitlements && RowMoves(found.value.row, db.entitlements[found.value.id], timely)
    case Issuing(d, seen) => Moves(seen, db.entitlements, timely) && DraftHolds(db.requests, d, seen)
    case Revoking(_, _, _) => true
    case Ending(_) => true
  }

  /** What a draft says of the rows it was made from. */
  ghost predicate DraftHolds(requests: map<Id, Request>, d: Draft, seen: map<Id, Entitlement>) {
    && d.lease.request in requests && Settled(requests[d.lease.request])
    && d.lease.details == requests[d.lease.request].details
    && d.boundary.scopes == d.lease.scopes && d.lease.entitlements != []
    && d.consume <= (set i | i in d.lease.entitlements)
    && (forall i | i in d.lease.entitlements ::
          && i in seen
          && InContext(seen[i], d.boundary.agent, d.boundary.resource, d.boundary.connection, d.lease.details)
          && (i in d.consume <==> seen[i].lifetime.Once?)
          && (seen[i].lifetime.Until? ==> d.lease.expiresAt <= seen[i].lifetime.t))
  }

  lemma DraftedHolds(db: Db, d: Draft, issuer: Issuer, now: nat)
    requires Drafted(db, d, issuer, now)
    ensures DraftHolds(db.requests, d, db.entitlements)
  {
    forall i | i in d.lease.entitlements
      ensures InContext(db.entitlements[i], d.boundary.agent, d.boundary.resource, d.boundary.connection, d.lease.details)
    {
      assert i in ContextEntitlements(db, d.lease.request, now);
    }
  }

  lemma EndRowsKeeps(m: map<Id, Entitlement>, ids: set<Id>, at: nat, reason: EndReason, timely: bool)
    requires UniqueOpen(m)
    ensures UniqueOpen(EndRows(m, ids, at, reason)) && Evolves(m, EndRows(m, ids, at, reason), timely)
  {
    EvolvesReflexive(m, timely);
  }

  lemma EndListedKeeps(m: map<Id, Entitlement>, listed: set<Id>, now: nat, timely: bool)
    requires UniqueOpen(m)
    ensures UniqueOpen(EndListed(m, listed, now)) && Evolves(m, EndListed(m, listed, now), timely)
  {
    EvolvesReflexive(m, timely);
  }

  lemma InsertGrantKeeps(db: Db, row: NewRow, timely: bool)
    requires UniqueOpen(db.entitlements)
    ensures var f := InsertGrant(db, row); UniqueOpen(f.entitlements) && Advances(db, f, timely)
  {
    EvolvesReflexive(db.entitlements, timely);
  }

  lemma ReplacedKeepsUnique(m: map<Id, Entitlement>, id: Id, now: nat, row: NewRow)
    requires UniqueOpen(m) && id in m && KeyFree(Expire(m, id, now), KeyOf(row.row), None)
    ensures UniqueOpen(Expire(m, id, now)[row.id := row.row.(ended := None)])
  {
    var n := Expire(m, id, now);
    assert forall i | i in n && Open(n[i]) :: n[i] == m[i] && KeyOf(n[i]) != KeyOf(row.row);
  }

  lemma RaisedKeepsUnique(m: map<Id, Entitlement>, id: Id, raised: Entitlement)
    requires UniqueOpen(m) && id in m && (Open(raised) ==> KeyFree(m, KeyOf(raised), Some(id)))
    ensures UniqueOpen(m[id := raised])
  {
  }

  /** A grant written late keeps permissions unique and reopens none; if it is timely it shortens none. */
  lemma GrantKeeps(db: Db, row: NewRow, found: Found, now: nat, timely: bool)
    requires UniqueOpen(db.entitlements) && (timely ==> TimelyGrant(db, row, found, now))
    ensures var f := CompleteGrant(db, row, found, now);
            UniqueOpen(f.entitlements) && Advances(db, f, timely)
  {
    EvolvesReflexive(db.entitlements, timely);
    if found.id in db.entitlements && WriteAllowed(db, row, found, now) {
      if HasExpired(found.row.lifetime, now) {
        ReplacedKeepsUnique(db.entitlements, found.id, now, row);
      } else {
        RaisedKeepsUnique(db.entitlements, found.id, Raised(db.entitlements[found.id], found.row, row.row));
        if timely && Raises(found.row, row.row) { UnchangedRowGrows(db, row, found, now); }
      }
    }
  }

  lemma IssueEvolves(db: Db, id: Id, l: Lease, b: Boundary, consume: set<Id>, timely: bool)
    requires UniqueOpen(db.entitlements)
    ensures var f := IssueTokenLease(db, id, l, b, consume); UniqueOpen(f.entitlements) && Advances(db, f, timely)
  {
    EvolvesReflexive(db.entitlements, timely);
    EndRowsKeeps(db.entitlements, consume, l.createdAt, Consumed, timely);
  }

  lemma EndEvolves(db: Db, id: Id, reason: EndReason, leases: set<Id>, now: nat, timely: bool)
    requires UniqueOpen(db.entitlements)
    ensures var f := EndEntitlement(db, id, reason, leases, now); UniqueOpen(f.entitlements) && Advances(db, f, timely)
  {
    EndRowsKeeps(db.entitlements, {id}, now, reason, timely);
  }

  /** Whatever overlaps, each step keeps the permissions unique, forgets no row, and never reopens an
      ended permission, an undecided request or a revoked lease. */
  lemma StepEvolves(s: State, step: Step, t: State, timely: bool)
    requires Next(s, step, t) && (timely ==> TimelyStep(s, step)) && !step.Detach?
    requires UniqueOpen(s.db.entitlements) && WorkFollows(s, timely)
    ensures UniqueOpen(t.db.entitlements) && Advances(s.db, t.db, timely)
  {
    if step.CommitDecide? {
      DecideStepEvolves(s, step.w, t, timely);
    } else if step.CommitIssue? {
      IssueStepEvolves(s, step.w, step.id, t, timely);
    } else if step.CommitRevoke? || step.EndPermission? || step.CommitEnds? {
      EndStepEvolves(s, step, t, timely);
    } else if step.TryInsertGrant? || step.CommitGrant? {
      GrantStepEvolves(s, step, t, timely);
    } else {
      OtherStepEvolves(s, step, t, timely);
    }
  }

  lemma IssueStepEvolves(s: State, w: nat, id: Id, t: State, timely: bool)
    requires Next(s, CommitIssue(w, id), t) && UniqueOpen(s.db.entitlements)
    ensures UniqueOpen(t.db.entitlements) && Advances(s.db, t.db, timely)
  {
    var d := s.work[w].draft;
    IssueEvolves(s.db, id, d.lease, d.boundary, d.consume, timely);
  }

  lemma EndStepEvolves(s: State, step: Step, t: State, timely: bool)
    requires Next(s, step, t) && (step.CommitRevoke? || step.EndPermission? || step.CommitEnds?) && UniqueOpen(s.db.entitlements)
    ensures UniqueOpen(t.db.entitlements) && Advances(s.db, t.db, timely)
  {
    if step.EndPermission? {
      EndEvolves(s.db, step.id, step.reason, {}, step.now, timely);
    } else if step.CommitEnds? {
      EndListedKeeps(s.db.entitlements, s.work[step.w].listed, step.now, timely);
    } else {
      EndEvolves(s.db, s.work[step.w].entitlement, Revoked, s.work[step.w].leases, s.work[step.w].at, timely);
    }
  }

  lemma GrantStepEvolves(s: State, step: Step, t: State, timely: bool)
    requires Next(s, step, t) && (step.TryInsertGrant? || step.CommitGrant?) && (timely ==> TimelyStep(s, step))
    requires UniqueOpen(s.db.entitlements)
    ensures UniqueOpen(t.db.entitlements) && Advances(s.db, t.db, timely)
  {
    var work := s.work[step.w];
    if step.CommitGrant? {
      GrantKeeps(s.db, work.row, work.found.value, work.grantedAt, timely);
    } else {
      InsertGrantKeeps(s.db, work.row, timely);
    }
  }

  lemma OtherStepEvolves(s: State, step: Step, t: State, timely: bool)
    requires Next(s, step, t) && UniqueOpen(s.db.entitlements)
    requires !step.CommitDecide? && !step.CommitIssue? && !step.CommitRevoke? && !step.EndPermission? && !step.CommitEnds?
    requires !step.TryInsertGrant? && !step.CommitGrant? && !step.Detach?
    ensures UniqueOpen(t.db.entitlements) && Advances(s.db, t.db, timely)
  {
    EvolvesReflexive(s.db.entitlements, timely);
    if step.Create? || step.Deny? {
      RequestStepMoves(s, step, t);
    } else if step.RevokeLease? {
      LeaseStepPersists(s, step, t);
    } else {
      ReadingStepKeeps(s, step, t);
    }
  }

  lemma RequestStepMoves(s: State, step: Step, t: State)
    requires Next(s, step, t) && (step.Create? || step.Deny?)
    ensures t.db.entitlements == s.db.entitlements && t.db.leases == s.db.leases && RequestsEvolve(s.db.requests, t.db.requests)
  {
  }

  lemma LeaseStepPersists(s: State, step: Step, t: State)
    requires Next(s, step, t) && step.RevokeLease?
    ensures t.db.entitlements == s.db.entitlements && t.db.requests == s.db.requests && LeasesPersist(s.db.leases, t.db.leases)
  {
  }

  lemma ReadingStepKeeps(s: State, step: Step, t: State)
    requires Next(s, step, t)
    requires step.BeginDecide? || step.BeginGrant? || step.BeginIssue? || step.BeginRevoke? || step.BeginEnds? || step.Configure?
    ensures t.db.entitlements == s.db.entitlements && t.db.requests == s.db.requests && t.db.leases == s.db.leases
  {
  }

  lemma DecideStepEvolves(s: State, w: nat, t: State, timely: bool)
    requires Next(s, CommitDecide(w), t) && (timely ==> TimelyStep(s, CommitDecide(w)))
    requires UniqueOpen(s.db.entitlements) && WorkFollows(s, timely)
    ensures UniqueOpen(t.db.entitlements) && Advances(s.db, t.db, timely)
  {
    assert Follows(s.db, s.work[w], timely);
    ApprovalEvolves(s.db, s.work[w].reading, timely);
  }

  lemma DetachMoves(s: State, connections: set<Id>, t: State, timely: bool)
    requires Next(s, Detach(connections), t) && UniqueOpen(s.db.entitlements)
    ensures UniqueOpen(t.db.entitlements) && Later(s.db, t.db, timely)
  {
    forall i | i in s.db.entitlements ensures RowMoves(s.db.entitlements[i], t.db.entitlements[i], timely) {
      LeqOrders(s.db.entitlements[i].lifetime, s.db.entitlements[i].lifetime, Once);
    }
  }

  /** Between the two moments of any step nothing is forgotten or undone. */
  lemma StepMovesOn(s: State, step: Step, t: State, timely: bool)
    requires Next(s, step, t) && (timely ==> TimelyStep(s, step))
    requires UniqueOpen(s.db.entitlements) && WorkFollows(s, timely)
    ensures UniqueOpen(t.db.entitlements) && Later(s.db, t.db, timely)
  {
    if step.Detach? {
      DetachMoves(s, step.connections, t, timely);
    } else {
      StepEvolves(s, step, t, timely);
      AdvancesLater(s.db, t.db, timely);
    }
  }

  lemma StepWorkFollows(s: State, step: Step, t: State, timely: bool)
    requires Next(s, step, t) && WorkFollows(s, timely) && Later(s.db, t.db, timely)
    ensures WorkFollows(t, timely)
  {
    forall w | w in t.work ensures Follows(t.db, t.work[w], timely) {
      if w in s.work && t.work[w] == s.work[w] {
        FollowsOn(s.db, t.db, s.work[w], timely);
      } else {
        BeginFollows(s, step, t, w, timely);
      }
    }
  }

  lemma BeginFollows(s: State, step: Step, t: State, w: nat, timely: bool)
    requires Next(s, step, t) && w in t.work && (w in s.work ==> t.work[w] != s.work[w])
    ensures Follows(t.db, t.work[w], timely)
  {
    OnlyBeginsAddWork(s, step, t, w);
    EvolvesReflexive(t.db.entitlements, timely);
    if step.BeginIssue? { DraftedHolds(s.db, step.draft, step.issuer, step.now); }
  }

  lemma OnlyBeginsAddWork(s: State, step: Step, t: State, w: nat)
    requires Next(s, step, t) && w in t.work && (w in s.work ==> t.work[w] != s.work[w])
    ensures t.db == s.db
    ensures match step
            case BeginDecide(_, r, now) => t.work[w] == Deciding(r) && ReadFrom(s.db, r, now)
            case BeginGrant(_, row, now, found) => t.work[w] == Granting(row, now, found) && Finds(s.db, row, found)
            case BeginIssue(_, d, issuer, now) => t.work[w] == Issuing(d, s.db.entitlements) && Drafted(s.db, d, issuer, now)
            case BeginRevoke(_, _, _) => t.work[w].Revoking?
            case BeginEnds(_, _) => t.work[w].Ending?
            case _ => false
  {
  }

  lemma FollowsOn(a: Db, b: Db, work: Work, timely: bool)
    requires Follows(a, work, timely) && Later(a, b, timely)
    ensures Follows(b, work, timely)
  {
    match work
    case Deciding(r) => MovesTransitive(r.entitlements, a.entitlements, b.entitlements, timely);
    case Granting(_, _, found) =>
      if found.Some? {
        var i := found.value.id;
        LeqOrders(found.value.row.lifetime, a.entitlements[i].lifetime, b.entitlements[i].lifetime);
      }
    case Issuing(d, seen) => MovesTransitive(seen, a.entitlements, b.entitlements, timely);
    case Revoking(_, _, _) =>
    case Ending(_) =>
  }
}
