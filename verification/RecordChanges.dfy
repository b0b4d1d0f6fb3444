/** How stored records may change from one moment to a later one. */
module RecordChanges {
  import opened Options
  import opened Lifetimes
  import opened AccessDatabase

  /** A row keeps its identity and is never reopened. Where every write is timely its lifetime never
      shrinks, and is final once the row has ended. */
  predicate RowEvolves(e: Entitlement, f: Entitlement, timely: bool) {
    && f.connection == e.connection && RowMoves(e, f, timely)
  }

  /** The same, except that the row may have lost its connection. */
  predicate RowMoves(e: Entitlement, f: Entitlement, timely: bool) {
    && f.agent == e.agent && f.resource == e.resource && f.scope == e.scope && f.details == e.details
    && (f.connection == e.connection || f.connection == None)
    && (!Open(e) ==> !Open(f))
    && (timely ==> Leq(e.lifetime, f.lifetime) && (!Open(e) ==> f.lifetime == e.lifetime))
  }

  ghost predicate Evolves(m: map<Id, Entitlement>, n: map<Id, Entitlement>, timely: bool) {
    forall i | i in m :: i in n && RowEvolves(m[i], n[i], timely)
  }

  ghost predicate Moves(m: map<Id, Entitlement>, n: map<Id, Entitlement>, timely: bool) {
    forall i | i in m :: i in n && RowMoves(m[i], n[i], timely)
  }

  predicate Settled(r: Request) { r.status == Approved || r.status == RequestConsumed }

  predicate RequestEvolves(r: Request, q: Request) {
    RequestMoves(r, q) && (r.status != Pending ==> q.connection == r.connection)
  }

  /** A decided request stays decided as it was, but may lose its connection. */
  predicate RequestMoves(r: Request, q: Request) {
    && q.agent == r.agent && q.resource == r.resource && q.scopes == r.scopes
    && (r.status != Pending ==>
          && q.status != Pending && q == r.(status := q.status, connection := q.connection)
          && (q.connection == r.connection || q.connection == None))
    && (Settled(r) ==> Settled(q))
  }

  ghost predicate RequestsEvolve(m: map<Id, Request>, n: map<Id, Request>) {
    forall i | i in m :: i in n && RequestEvolves(m[i], n[i])
  }

  ghost predicate RequestsMove(m: map<Id, Request>, n: map<Id, Request>) {
    forall i | i in m :: i in n && RequestMoves(m[i], n[i])
  }

  /** Only the revocation time of a stored lease ever changes, and it is never cleared. */
  ghost predicate LeasesPersist(m: map<Id, Lease>, n: map<Id, Lease>) {
    forall i | i in m :: i in n && n[i] == m[i].(revokedAt := n[i].revokedAt) && (m[i].revokedAt.Some? ==> n[i].revokedAt.Some?)
  }

  /** What every step does that leaves connections alone. */
  ghost predicate Advances(a: Db, b: Db, timely: bool) {
    && Evolves(a.entitlements, b.entitlements, timely)
    && RequestsEvolve(a.requests, b.requests)
    && LeasesPersist(a.leases, b.leases)
  }

  /** What holds between any two moments. */
  ghost predicate Later(a: Db, b: Db, timely: bool) {
    && Moves(a.entitlements, b.entitlements, timely)
    && RequestsMove(a.requests, b.requests)
    && LeasesPersist(a.leases, b.leases)
  }

  lemma AdvancesLater(a: Db, b: Db, timely: bool)
    requires Advances(a, b, timely)
    ensures Later(a, b, timely)
  {
  }

  lemma EvolvesReflexive(m: map<Id, Entitlement>, timely: bool)
    ensures Evolves(m, m, timely)
  {
    forall i | i in m ensures RowEvolves(m[i], m[i], timely) {
      LeqOrders(m[i].lifetime, m[i].lifetime, m[i].lifetime);
    }
  }

  lemma EvolvesTransitive(a: map<Id, Entitlement>, b: map<Id, Entitlement>, c: map<Id, Entitlement>, timely: bool)
    requires Evolves(a, b, timely) && Evolves(b, c, timely)
    ensures Evolves(a, c, timely)
  {
    forall i | i in a ensures i in c && RowEvolves(a[i], c[i], timely) {
      LeqOrders(a[i].lifetime, b[i].lifetime, c[i].lifetime);
    }
  }

  lemma MovesTransitive(a: map<Id, Entitlement>, b: map<Id, Entitlement>, c: map<Id, Entitlement>, timely: bool)
    requires Moves(a, b, timely) && Moves(b, c, timely)
    ensures Moves(a, c, timely)
  {
    forall i | i in a ensures i in c && RowMoves(a[i], c[i], timely) {
      LeqOrders(a[i].lifetime, b[i].lifetime, c[i].lifetime);
    }
  }

  lemma LaterTransitive(a: Db, b: Db, c: Db, timely: bool)
    requires Later(a, b, timely) && Later(b, c, timely)
    ensures Later(a, c, timely)
  {
    MovesTransitive(a.entitlements, b.entitlements, c.entitlements, timely);
  }
}
