/** Exchanging the permissions of one authorization context for a short-lived token. */
module TokenLeases {
  import opened Options
  import opened Lifetimes
  import opened Listings
  import opened AccessDatabase
  import opened AuthorizationDetails

  const NATIVE_LIFETIME := 5 * 60 * 1000
  const LONGEST_EXTERNAL_LIFETIME := 3600

  function ScopesOf(entitlements: map<Id, Entitlement>, ids: seq<Id>): (scopes: seq<Scope>)
    requires forall i | i in ids :: i in entitlements
    ensures |scopes| == |ids|
  {
    seq(|ids|, k requires 0 <= k < |ids| => entitlements[ids[k]].scope)
  }

  /** The least of the expiry times, if any permission has one. */
  function EarliestExpiry(entitlements: map<Id, Entitlement>, ids: seq<Id>): (t: Option<nat>)
    requires forall i | i in ids :: i in entitlements
    ensures t.None? ==> forall i | i in ids :: !entitlements[i].lifetime.Until?
    ensures t.Some? ==> forall i | i in ids && entitlements[i].lifetime.Until? :: t.value <= entitlements[i].lifetime.t
    ensures t.Some? ==> exists i :: i in ids && entitlements[i].lifetime == Until(t.value)
  {
    if ids == [] then None
    else
      assert forall i | i in ids :: i == ids[0] || i in ids[1..];
      var rest := EarliestExpiry(entitlements, ids[1..]);
      match entitlements[ids[0]].lifetime
      case Until(t) => Some(if rest.Some? && rest.value < t then rest.value else t)
      case _ => rest
  }

  /** Whether the token is signed here, and what the resource's own server answered if not. */
  datatype Issuer = Native | External(expiresIn: nat)

  /** The lease that an issue is about to store, and the permissions it means to use up. */
  datatype Draft = Draft(lease: Lease, boundary: Boundary, consume: set<Id>)

  /** When the token expires. A token of another server that lives too long is refused, and so
      leads to no draft. */
  predicate ExpiryFits(earliest: Option<nat>, issuer: Issuer, readAt: nat, l: Lease) {
    match issuer
    case Native =>
      && readAt <= l.createdAt
      && var maximum := l.createdAt + NATIVE_LIFETIME;
      l.expiresAt == (if earliest.Some? && earliest.value < maximum then earliest.value else maximum)
    case External(expiresIn) =>
      && readAt == l.createdAt
      && 0 < expiresIn <= LONGEST_EXTERNAL_LIFETIME
      && l.expiresAt == l.createdAt + expiresIn * 1000
      && (earliest.Some? ==> l.expiresAt <= earliest.value)
  }

  function ContextEntitlements(db: Db, request: Id, now: nat): set<Id>
    requires request in db.requests
  {
    var r := db.requests[request];
    ActiveInContext(db, r.agent, r.resource, r.connection, r.details, now)
  }

  /** What issueTargetAccessToken makes of the tables as it reads them at `readAt`. */
  ghost predicate Drafted(db: Db, d: Draft, issuer: Issuer, readAt: nat) {
    && d.lease.request in db.requests
    && var r := db.requests[d.lease.request];
    && (r.status == Approved || r.status == RequestConsumed)
    && (issuer.External? <==> r.connection.Some?)
    && d.lease.entitlements != []
    && Lists(d.lease.entitlements, ContextEntitlements(db, d.lease.request, readAt))
    && (forall i | i in d.lease.entitlements :: i in db.entitlements)
    && d.lease.scopes == SortTexts(ScopesOf(db.entitlements, d.lease.entitlements))
    && d.lease.details == r.details
    && d.lease.revokedAt == None
    && d.boundary == Boundary(r.agent, r.resource, r.connection, r.details, d.lease.scopes)
    && d.consume == (set i | i in d.lease.entitlements && db.entitlements[i].lifetime.Once?)
    && ExpiryFits(EarliestExpiry(db.entitlements, d.lease.entitlements), issuer, readAt, d.lease)
  }

  lemma SameScopes(m: map<Id, Entitlement>, ids: seq<Id>, scopes: seq<Scope>)
    requires forall i | i in ids :: i in m
    requires scopes == SortTexts(ScopesOf(m, ids))
    ensures |scopes| == |ids|
    ensures forall k | 0 <= k < |ids| :: m[ids[k]].scope in scopes
    ensures forall s | 0 <= s < |scopes| :: exists k :: 0 <= k < |ids| && m[ids[k]].scope == scopes[s]
  {
    var held := ScopesOf(m, ids);
    SortTextsSorts(held);
    assert |multiset(scopes)| == |scopes| && |multiset(held)| == |held|;
    forall k | 0 <= k < |ids| ensures m[ids[k]].scope in scopes {
      assert held[k] in multiset(scopes);
    }
    forall s | 0 <= s < |scopes| ensures exists k :: 0 <= k < |ids| && m[ids[k]].scope == scopes[s] {
      assert scopes[s] in multiset(held);
      var k :| 0 <= k < |held| && held[k] == scopes[s];
    }
  }

  /** The rows a lease names are of its boundary's target, and their scopes are the boundary's. */
  ghost predicate RowsMatch(m: map<Id, Entitlement>, ids: seq<Id>, b: Boundary) {
    && |ids| == |b.scopes|
    && (forall k | 0 <= k < |ids| ::
          && ids[k] in m && m[ids[k]].agent == b.agent && m[ids[k]].resource == b.resource
          && m[ids[k]].connection == b.connection && m[ids[k]].scope in b.scopes)
    && Covers(m, ids, b.scopes)
  }

  lemma AcceptedByRows(db: Db, id: Id, l: Lease, b: Boundary)
    requires l.request in db.requests && RowsMatch(db.entitlements, l.entitlements, b)
    requires var r := db.requests[l.request];
             && (r.status == Approved || r.status == RequestConsumed)
             && r.agent == b.agent && r.resource == b.resource && r.connection == b.connection
    ensures CanIssue(db, id, l, b)
            <==> id !in db.leases && Reachable(db, b.resource, b.connection)
                 && forall k | 0 <= k < |l.entitlements| :: Backs(db, l.entitlements[k], b, l.createdAt)
  {
  }

  lemma DraftedRows(db: Db, d: Draft, issuer: Issuer, readAt: nat)
    requires Drafted(db, d, issuer, readAt)
    ensures RowsMatch(db.entitlements, d.lease.entitlements, d.boundary)
    ensures forall i :: i in d.lease.entitlements <==> i in ContextEntitlements(db, d.lease.request, readAt)
  {
    var ids := d.lease.entitlements;
    SameScopes(db.entitlements, ids, d.lease.scopes);
    forall k | 0 <= k < |ids| ensures ids[k] in ContextEntitlements(db, d.lease.request, readAt) {
      assert ids[k] in ids;
    }
  }

  /** When a draft is stored before anything else changes, the database accepts it exactly when the
      target is available and every active permission of the context has stayed active and was
      granted with the details in the order of this request. */
  lemma IssueAccepted(db: Db, id: Id, d: Draft, issuer: Issuer, readAt: nat)
    requires Drafted(db, d, issuer, readAt)
    ensures CanIssue(db, id, d.lease, d.boundary)
            <==> && id !in db.leases
                 && Reachable(db, d.boundary.resource, d.boundary.connection)
                 && forall i | i in ContextEntitlements(db, d.lease.request, readAt) ::
                      ActiveAt(db.entitlements[i], d.lease.createdAt) && db.entitlements[i].contextHash == d.lease.details
  {
    var ids := d.lease.entitlements;
    DraftedRows(db, d, issuer, readAt);
    AcceptedByRows(db, id, d.lease, d.boundary);
    forall i | i in ContextEntitlements(db, d.lease.request, readAt)
      ensures exists k :: 0 <= k < |ids| && ids[k] == i
    {
      assert i in ids;
    }
  }

  lemma ScopesExact(db: Db, d: Draft, issuer: Issuer, readAt: nat, s: Scope)
    requires Drafted(db, d, issuer, readAt)
    ensures s in d.lease.scopes
            <==> exists i :: i in ContextEntitlements(db, d.lease.request, readAt) && db.entitlements[i].scope == s
  {
    var ids, context := d.lease.entitlements, ContextEntitlements(db, d.lease.request, readAt);
    SameScopes(db.entitlements, ids, d.lease.scopes);
    ScopeOfListed(db.entitlements, ids, context, d.lease.scopes, s);
  }

  lemma ScopeOfListed(m: map<Id, Entitlement>, ids: seq<Id>, context: set<Id>, scopes: seq<Scope>, s: Scope)
    requires Lists(ids, context) && forall i | i in ids :: i in m
    requires forall k | 0 <= k < |ids| :: m[ids[k]].scope in scopes
    requires forall j | 0 <= j < |scopes| :: exists k :: 0 <= k < |ids| && m[ids[k]].scope == scopes[j]
    ensures s in scopes <==> exists i :: i in context && i in m && m[i].scope == s
  {
    if s in scopes {
      var j :| 0 <= j < |scopes| && scopes[j] == s;
      var k :| 0 <= k < |ids| && m[ids[k]].scope == scopes[j];
      assert ids[k] in context;
    }
    if i :| i in context && i in m && m[i].scope == s {
      assert i in ids;
      var k :| 0 <= k < |ids| && ids[k] == i;
    }
  }

  lemma ConsumesOnce(db: Db, id: Id, d: Draft, issuer: Issuer, readAt: nat)
    requires Drafted(db, d, issuer, readAt) && CanIssue(db, id, d.lease, d.boundary)
    ensures var f := IssueTokenLease(db, id, d.lease, d.boundary, d.consume);
            forall i | i in db.entitlements :: i in f.entitlements &&
              f.entitlements[i] == if i in d.lease.entitlements && db.entitlements[i].lifetime.Once?
                                   then db.entitlements[i].(ended := Some(End(d.lease.createdAt, Consumed)))
                                   else db.entitlements[i]
  {
    DraftedRows(db, d, issuer, readAt);
    assert forall i | i in d.lease.entitlements :: i in ContextEntitlements(db, d.lease.request, readAt);
  }

  /** The lease it then stores: exactly the active permissions of the context and their scopes, no
      longer than any of them. Those good for one use are used up, and the rest stay as they are. */
  lemma IssueStores(db: Db, id: Id, d: Draft, issuer: Issuer, readAt: nat)
    requires Drafted(db, d, issuer, readAt) && CanIssue(db, id, d.lease, d.boundary)
    ensures IssueTokenLease(db, id, d.lease, d.boundary, d.consume).leases == db.leases[id := d.lease]
    ensures forall i :: i in d.lease.entitlements <==> i in ContextEntitlements(db, d.lease.request, readAt)
    ensures forall s :: s in d.lease.scopes
              <==> exists i :: i in ContextEntitlements(db, d.lease.request, readAt) && db.entitlements[i].scope == s
    ensures forall i | i in d.lease.entitlements && db.entitlements[i].lifetime.Until? ::
              d.lease.expiresAt <= db.entitlements[i].lifetime.t
    ensures var f := IssueTokenLease(db, id, d.lease, d.boundary, d.consume);
            forall i | i in db.entitlements :: i in f.entitlements &&
              f.entitlements[i] == if i in d.lease.entitlements && db.entitlements[i].lifetime.Once?
                                   then db.entitlements[i].(ended := Some(End(d.lease.createdAt, Consumed)))
                                   else db.entitlements[i]
  {
    ConsumesOnce(db, id, d, issuer, readAt);
    forall s ensures s in d.lease.scopes
      <==> exists i :: i in ContextEntitlements(db, d.lease.request, readAt) && db.entitlements[i].scope == s
    {
      ScopesExact(db, d, issuer, readAt, s);
    }
  }
}
