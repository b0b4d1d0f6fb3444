/** The access tables of the database, and each statement or batch that changes them. A D1 batch
    runs as one transaction, so each is one atomic step. */
module AccessDatabase {
  import opened Options
  import opened Lifetimes
  import opened Texts

  type Id = string
  type Scope = Text

  /** The canonical forms of a context's details, in order. The context hash is the hash of the
      canonical JSON of this list, taken to be collision-free: it stands for the list itself. */
  type Context = seq<Text>

  datatype EndReason = Revoked | Consumed | Expired
  datatype End = End(at: nat, reason: EndReason)

  /** A row of resource_scope_entitlement that belongs to an Agent. */
  datatype Entitlement = Entitlement(
    agent: Id,
    resource: Id,
    connection: Option<Id>,
    details: Context,
    contextHash: Context,
    scope: Scope,
    lifetime: Lifetime,
    ended: Option<End>,
    source: Option<Id>)

  datatype Status = Pending | Approved | Denied | RequestConsumed

  datatype ApprovedScope = ApprovedScope(scope: Scope, entitlement: Id)

  /** A row of agent_access_request. */
  datatype Request = Request(
    agent: Id,
    resource: Id,
    connection: Option<Id>,
    scopes: seq<Scope>,
    details: Context,
    status: Status,
    approved: seq<ApprovedScope>,
    expiresAt: nat)

  /** A row of external_token_lease. */
  datatype Lease = Lease(
    entitlements: seq<Id>,
    request: Id,
    scopes: seq<Scope>,
    details: Context,
    expiresAt: nat,
    createdAt: nat,
    revokedAt: Option<nat>)

  datatype Db = Db(
    entitlements: map<Id, Entitlement>,
    requests: map<Id, Request>,
    leases: map<Id, Lease>,
    activeResources: set<Id>,
    activeConnections: set<Id>)

  predicate Open(e: Entitlement) { e.ended.None? }

  predicate HasExpired(l: Lifetime, now: nat) { l.Until? && l.t <= now }

  /** What listActiveEntitlementsByAgent selects. */
  predicate ActiveAt(e: Entitlement, now: nat) { Open(e) && !HasExpired(e.lifetime, now) }

  predicate LeaseActive(l: Lease, now: nat) { l.revokedAt.None? && l.expiresAt > now }

  /** The columns of the partial unique index over rows that have not ended. */
  datatype Key = Key(agent: Id, resource: Id, connection: Option<Id>, contextHash: Context, scope: Scope)

  function KeyOf(e: Entitlement): Key {
    Key(e.agent, e.resource, e.connection, e.contextHash, e.scope)
  }

  /** No open row other than `except` has the key. */
  predicate KeyFree(entitlements: map<Id, Entitlement>, key: Key, except: Option<Id>) {
    forall i | i in entitlements :: Open(entitlements[i]) && KeyOf(entitlements[i]) == key ==> except == Some(i)
  }

  ghost predicate UniqueOpen(entitlements: map<Id, Entitlement>) {
    forall i, j | i in entitlements && j in entitlements && Open(entitlements[i]) && Open(entitlements[j]) ::
      KeyOf(entitlements[i]) == KeyOf(entitlements[j]) ==> i == j
  }

  predicate Reachable(db: Db, resource: Id, connection: Option<Id>) {
    resource in db.activeResources && (connection.Some? ==> connection.value in db.activeConnections)
  }

  // ---- approveAccessRequestWithEntitlements ----

  /** The select that feeds the insert finds its row, and no constraint refuses it. */
  predicate CanInsert(db: Db, id: Id, e: Entitlement, request: Id) {
    && Reachable(db, e.resource, e.connection)
    && request in db.requests
    && db.requests[request].resource == e.resource
    && db.requests[request].agent == e.agent
    && db.requests[request].status == Pending
    && id !in db.entitlements
    && KeyFree(db.entitlements, KeyOf(e), None)
  }

  /** insert ... select ... on conflict do nothing */
  function InsertEntitlement(db: Db, id: Id, e: Entitlement, request: Id): Db {
    if CanInsert(db, id, e, request)
    then db.(entitlements := db.entitlements[id := e.(source := Some(request), ended := None)])
    else db
  }

  datatype NewRow = NewRow(id: Id, row: Entitlement)

  datatype RowUpdate = RowUpdate(id: Id, lifetime: Lifetime, contextHash: Context)

  /** update ... where id = ? and ended_at is null; a key that another open row holds is an error. */
  predicate UpdateConflicts(db: Db, u: RowUpdate) {
    u.id in db.entitlements && Open(db.entitlements[u.id]) &&
    !KeyFree(db.entitlements, KeyOf(db.entitlements[u.id].(contextHash := u.contextHash)), Some(u.id))
  }

  predicate UpdateApplies(db: Db, u: RowUpdate) {
    u.id in db.entitlements && Open(db.entitlements[u.id])
  }

  function UpdateEntitlement(db: Db, u: RowUpdate): Db {
    if UpdateApplies(db, u)
    then db.(entitlements := db.entitlements[u.id :=
               db.entitlements[u.id].(lifetime := u.lifetime, contextHash := u.contextHash)])
    else db
  }

  datatype Decision = Decision(approved: seq<ApprovedScope>, connection: Option<Id>, details: Context)

  predicate DecisionAllowed(db: Db, request: Id, d: Decision) {
    && request in db.requests
    && db.requests[request].status == Pending
    && db.requests[request].resource in db.activeResources
    && |d.approved| == |db.requests[request].scopes|
    && forall i | 0 <= i < |d.approved| ::
         var a := d.approved[i];
         && a.entitlement in db.entitlements
         && var e := db.entitlements[a.entitlement];
         && e.agent == db.requests[request].agent
         && e.resource == db.requests[request].resource
         && e.connection == d.connection
         && e.scope == a.scope
         && Open(e)
  }

  function DecideRequest(db: Db, request: Id, d: Decision): Db
    requires DecisionAllowed(db, request, d)
  {
    db.(requests := db.requests[request :=
          db.requests[request].(status := Approved, approved := d.approved, connection := d.connection, details := d.details)])
  }

  datatype ApproveOutcome = RequestApproved | EntitlementsChanged | ResourceUnavailable | RequestChanged | ConstraintFailed

  function InsertAll(db: Db, rows: seq<NewRow>, request: Id): Db
    decreases |rows|
  {
    if rows == [] then db else InsertAll(InsertEntitlement(db, rows[0].id, rows[0].row, request), rows[1..], request)
  }

  /** Whether each insert returned its row. */
  predicate AllInserted(db: Db, rows: seq<NewRow>, request: Id)
    decreases |rows|
  {
    rows == [] ||
    (CanInsert(db, rows[0].id, rows[0].row, request) &&
     AllInserted(InsertEntitlement(db, rows[0].id, rows[0].row, request), rows[1..], request))
  }

  function UpdateAll(db: Db, updates: seq<RowUpdate>): Db
    decreases |updates|
  {
    if updates == [] then db else UpdateAll(UpdateEntitlement(db, updates[0]), updates[1..])
  }

  predicate AllUpdated(db: Db, updates: seq<RowUpdate>)
    decreases |updates|
  {
    updates == [] || (UpdateApplies(db, updates[0]) && AllUpdated(UpdateEntitlement(db, updates[0]), updates[1..]))
  }

  /** Some update violates the unique index: the whole batch is rolled back. */
  predicate SomeConflict(db: Db, updates: seq<RowUpdate>)
    decreases |updates|
  {
    updates != [] && (UpdateConflicts(db, updates[0]) || SomeConflict(UpdateEntitlement(db, updates[0]), updates[1..]))
  }

  function ApproveAccessRequest(db: Db, rows: seq<NewRow>, updates: seq<RowUpdate>, request: Id, d: Decision)
    : (r: (Db, ApproveOutcome))
  {
    var inserted := InsertAll(db, rows, request);
    if SomeConflict(inserted, updates) then (db, ConstraintFailed)
    else
      var updated := UpdateAll(inserted, updates);
      var decided := if DecisionAllowed(updated, request, d) then DecideRequest(updated, request, d) else updated;
      (decided,
       if !AllInserted(db, rows, request) then EntitlementsChanged
       else if !AllUpdated(inserted, updates) then ResourceUnavailable
       else if !DecisionAllowed(updated, request, d) then RequestChanged
       else RequestApproved)
  }

  // ---- issueTokenLeaseWithAudit ----

  datatype Boundary = Boundary(agent: Id, resource: Id, connection: Option<Id>, contextHash: Context, scopes: seq<Scope>)

  /** The conditions of the insert over the supplied entitlements. */
  predicate Backs(db: Db, id: Id, b: Boundary, now: nat) {
    && id in db.entitlements
    && var e := db.entitlements[id];
    && e.agent == b.agent && e.resource == b.resource && e.connection == b.connection
    && e.contextHash == b.contextHash
    && ActiveAt(e, now)
    && e.scope in b.scopes
  }

  /** Every scope is that of a named row. */
  predicate Covers(entitlements: map<Id, Entitlement>, ids: seq<Id>, scopes: seq<Scope>) {
    forall s | 0 <= s < |scopes| ::
      exists i :: 0 <= i < |ids| && ids[i] in entitlements && entitlements[ids[i]].scope == scopes[s]
  }

  predicate CanIssue(db: Db, id: Id, l: Lease, b: Boundary) {
    && id !in db.leases
    && l.request in db.requests
    && var r := db.requests[l.request];
    && (r.status == Approved || r.status == RequestConsumed)
    && r.agent == b.agent && r.resource == b.resource && r.connection == b.connection
    && Reachable(db, r.resource, r.connection)
    && |l.entitlements| == |b.scopes|
    && (forall i | 0 <= i < |l.entitlements| :: Backs(db, l.entitlements[i], b, l.createdAt))
    && Covers(db.entitlements, l.entitlements, b.scopes)
  }

  function EndRow(e: Entitlement, at: nat, reason: EndReason): Entitlement {
    if Open(e) then e.(ended := Some(End(at, reason))) else e
  }

  /** update ... where id in (...) and ended_at is null */
  function EndRows(entitlements: map<Id, Entitlement>, ids: set<Id>, at: nat, reason: EndReason): map<Id, Entitlement> {
    map i | i in entitlements :: if i in ids then EndRow(entitlements[i], at, reason) else entitlements[i]
  }

  function IssueTokenLease(db: Db, id: Id, l: Lease, b: Boundary, consume: set<Id>): Db {
    if !CanIssue(db, id, l, b) then db
    else
      var r := db.requests[l.request];
      db.(leases := db.leases[id := l],
          requests := db.requests[l.request := if r.status == Approved then r.(status := RequestConsumed) else r],
          entitlements := EndRows(db.entitlements, consume, l.createdAt, Consumed))
  }

  // ---- Ending and revoking ----

  function RevokeLeases(leases: map<Id, Lease>, ids: set<Id>, at: nat): map<Id, Lease> {
    map i | i in leases :: if i in ids && leases[i].revokedAt.None? then leases[i].(revokedAt := Some(at)) else leases[i]
  }

  /** endEntitlementWithAudit */
  function EndEntitlement(db: Db, id: Id, reason: EndReason, leases: set<Id>, now: nat): Db {
    db.(entitlements := EndRows(db.entitlements, {id}, now, reason), leases := RevokeLeases(db.leases, leases, now))
  }

  /** revokeTokenLease: sets revoked_at of an unexpired lease, again if it was set already. */
  function RevokeTokenLease(db: Db, id: Id, now: nat): Db {
    if id in db.leases && db.leases[id].expiresAt > now
    then db.(leases := db.leases[id := db.leases[id].(revokedAt := Some(now))])
    else db
  }

  /** What listActiveTokenLeasesByEntitlement selects. */
  function ActiveLeasesOf(db: Db, entitlement: Id, now: nat): set<Id> {
    set i | i in db.leases && entitlement in db.leases[i].entitlements && LeaseActive(db.leases[i], now)
  }

  /** What activeContextEntitlements selects; details are compared as multisets of forms. */
  function ActiveInContext(db: Db, agent: Id, resource: Id, connection: Option<Id>, details: Context, now: nat): set<Id> {
    set i | i in db.entitlements && InContext(db.entitlements[i], agent, resource, connection, details) &&
            ActiveAt(db.entitlements[i], now)
  }

  predicate InContext(e: Entitlement, agent: Id, resource: Id, connection: Option<Id>, details: Context) {
    && e.agent == agent && e.resource == resource && e.connection == connection
    && multiset(e.details) == multiset(details)
  }
}
