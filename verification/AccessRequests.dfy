/** Asking for access: what an Agent already holds is reused. */
module AccessRequests {
  import opened Options
  import opened Lifetimes
  import opened Texts
  import opened Listings
  import opened AccessDatabase
  import opened ApprovalBatch
  import opened AccessDecisions
  import opened TokenLeases
  import opened AuthorizationDetails

  lemma KeepsRequests(db: Db, r: Reading)
    requires |r.scopes| <= |r.newIds|
    ensures forall i | i in db.requests :: i in StoreApproval(db, r).0.requests
                                           && StoreApproval(db, r).0.requests[i].scopes == db.requests[i].scopes
  {
    var rows, updates := PlanBelow(r, |r.scopes|).rows, PlanBelow(r, |r.scopes|).updates;
    InsertAllFrame(db, rows, r.request);
    UpdateAllFrame(InsertAll(db, rows, r.request), updates);
    BatchRequests(db, rows, updates, r.request, DecisionFor(r));
  }

  lemma BatchRequests(db: Db, rows: seq<NewRow>, updates: seq<RowUpdate>, request: Id, d: Decision)
    ensures var f := ApproveAccessRequest(db, rows, updates, request, d).0;
            forall i | i in db.requests :: i in f.requests && f.requests[i].scopes == db.requests[i].scopes
  {
    InsertAllFrame(db, rows, request);
    UpdateAllFrame(InsertAll(db, rows, request), updates);
  }

  const REQUEST_LIFETIME := 10 * 60 * 1000

  /** What an Agent asks for. For an account connection only the account's own scopes are reused. */
  datatype Ask = Ask(
    agent: Id,
    resource: Id,
    connection: Option<Id>,
    scopes: seq<Scope>,
    details: Context,
    accountScopes: Option<seq<Scope>>)

  predicate Reusable(e: Entitlement, a: Ask, now: nat) {
    && InContext(e, a.agent, a.resource, a.connection, a.details) && ActiveAt(e, now)
    && (a.accountScopes.Some? ==> e.scope in a.accountScopes.value)
  }

  function ReusableRows(entitlements: map<Id, Entitlement>, a: Ask, now: nat): set<Id> {
    set i | i in entitlements && Reusable(entitlements[i], a, now)
  }

  /** Every scope asked for is already held. */
  ghost predicate AlreadyAuthorized(entitlements: map<Id, Entitlement>, a: Ask, now: nat) {
    forall s | s in a.scopes :: exists i :: i in ReusableRows(entitlements, a, now) && entitlements[i].scope == s
  }

  /** `approved` names, scope by scope, permissions that are already held. */
  ghost predicate NamesHeld(approved: seq<ApprovedScope>, scopes: seq<Scope>, entitlements: map<Id, Entitlement>, a: Ask, now: nat) {
    && |approved| == |scopes|
    && forall k | 0 <= k < |scopes| ::
         && approved[k].scope == scopes[k] && approved[k].entitlement in ReusableRows(entitlements, a, now)
         && entitlements[approved[k].entitlement].scope == scopes[k]
  }

  /** Collects a held permission for each scope, skipping scopes that have none. */
  method Reuse(entitlements: map<Id, Entitlement>, listing: seq<Id>, a: Ask, now: nat) returns (approved: seq<ApprovedScope>)
    requires Lists(listing, ReusableRows(entitlements, a, now))
    ensures |approved| == |a.scopes| <==> AlreadyAuthorized(entitlements, a, now)
    ensures |approved| == |a.scopes| ==> NamesHeld(approved, a.scopes, entitlements, a, now)
  {
    approved := [];
    ghost var skipped := false;
    var k := 0;
    while k < |a.scopes|
      invariant 0 <= k <= |a.scopes|
      invariant |approved| <= k && (|approved| == k <==> !skipped)
      invariant skipped ==> exists j :: 0 <= j < k && forall i | i in listing :: entitlements[i].scope != a.scopes[j]
      invariant !skipped ==> NamesHeld(approved, a.scopes[..k], entitlements, a, now)
    {
      var found := Find(entitlements, listing, a.scopes[k]);
      if found.Some? {
        approved := approved + [ApprovedScope(a.scopes[k], found.value)];
      } else {
        skipped := true;
      }
      k := k + 1;
    }
    assert a.scopes[..k] == a.scopes;
    if skipped {
      var j :| 0 <= j < k && forall i | i in listing :: entitlements[i].scope != a.scopes[j];
      assert a.scopes[j] in a.scopes;
    } else {
      HeldAuthorizes(approved, entitlements, a, now);
    }
  }

  lemma HeldAuthorizes(approved: seq<ApprovedScope>, entitlements: map<Id, Entitlement>, a: Ask, now: nat)
    requires NamesHeld(approved, a.scopes, entitlements, a, now)
    ensures AlreadyAuthorized(entitlements, a, now)
  {
    forall s | s in a.scopes ensures exists i :: i in ReusableRows(entitlements, a, now) && entitlements[i].scope == s {
      var k :| 0 <= k < |a.scopes| && a.scopes[k] == s;
      assert approved[k].entitlement in ReusableRows(entitlements, a, now);
    }
  }

  /** A pending request for the same thing, not yet expired. */
  predicate SamePending(r: Request, a: Ask, now: nat) {
    && r.agent == a.agent && r.status == Pending && now < r.expiresAt
    && r.resource == a.resource && r.connection == a.connection
    && multiset(r.scopes) == multiset(a.scopes) && multiset(r.details) == multiset(a.details)
  }

  function RequestFor(a: Ask, now: nat, status: Status, approved: seq<ApprovedScope>): Request {
    Request(a.agent, a.resource, a.connection, a.scopes, a.details, status, approved, now + REQUEST_LIFETIME)
  }

  /** The first of the listed requests that is the same, if any. */
  method FindPending(requests: map<Id, Request>, listing: seq<Id>, a: Ask, now: nat) returns (found: Option<Id>)
    requires forall i | i in listing :: i in requests
    ensures found.Some? ==> found.value in listing && SamePending(requests[found.value], a, now)
    ensures found.None? ==> forall i | i in listing :: !SamePending(requests[i], a, now)
  {
    found := None;
    var k := 0;
    while k < |listing|
      invariant 0 <= k <= |listing|
      invariant forall i | i in listing[..k] :: !SamePending(requests[i], a, now)
    {
      if SamePending(requests[listing[k]], a, now) { return Some(listing[k]); }
      assert listing[..k + 1] == listing[..k] + [listing[k]];
      k := k + 1;
    }
    assert listing[..k] == listing;
  }

  /** A request answered from permissions already held compares details without their order, but
      the token that follows compares them in order. Used at once, it yields a token exactly if every
      active permission of the context was last granted with the details in the order asked now. */
  lemma AnsweredRequestYieldsToken(before: Db, db: Db, request: Id, a: Ask, approved: seq<ApprovedScope>, now: nat,
                                   id: Id, d: Draft, issuer: Issuer)
    requires request !in before.requests
    requires db == before.(requests := before.requests[request := RequestFor(a, now, Approved, approved)])
    requires d.lease.request == request && d.lease.createdAt == now && Drafted(db, d, issuer, now)
    requires Reachable(db, a.resource, a.connection) && id !in db.leases
    ensures CanIssue(db, id, d.lease, d.boundary)
            <==> forall i | i in before.entitlements && InContext(before.entitlements[i], a.agent, a.resource, a.connection, a.details)
                            && ActiveAt(before.entitlements[i], now) :: before.entitlements[i].contextHash == a.details
  {
    IssueAccepted(db, id, d, issuer, now);
  }

  // ---- Such a request ----

  /** A permission granted for the details [x, y]; the same scope is asked for again with [y, x]. */
  datatype Turned = Turned(agent: Id, resource: Id, scope: Scope, row: Id, request: Id, x: Text, y: Text)

  function TurnedAsk(c: Turned): Ask {
    Ask(c.agent, c.resource, None, [c.scope], [c.y, c.x], None)
  }

  function TurnedTables(c: Turned, now: nat): Db {
    Db(map[c.row := Entitlement(c.agent, c.resource, None, [c.x, c.y], [c.x, c.y], c.scope, Persistent, None, None)],
       map[c.request := RequestFor(TurnedAsk(c), now, Approved, [ApprovedScope(c.scope, c.row)])],
       map[], {c.resource}, {})
  }

  function TurnedDraft(c: Turned, now: nat): Draft {
    Draft(Lease([c.row], c.request, [c.scope], [c.y, c.x], now + NATIVE_LIFETIME, now, None),
          Boundary(c.agent, c.resource, None, [c.y, c.x], [c.scope]), {})
  }

  /** The request is answered as already approved, and the token for it is never stored. */
  lemma AnsweredRequestRefused(c: Turned, id: Id, now: nat)
    requires c.x != c.y
    ensures var db, approved := TurnedTables(c, now), [ApprovedScope(c.scope, c.row)];
            && AlreadyAuthorized(db.entitlements, TurnedAsk(c), now)
            && NamesHeld(approved, [c.scope], db.entitlements, TurnedAsk(c), now)
            && Drafted(db, TurnedDraft(c, now), Native, now)
            && !CanIssue(db, id, TurnedDraft(c, now).lease, TurnedDraft(c, now).boundary)
  {
    var m := TurnedTables(c, now).entitlements;
    assert multiset(m[c.row].details) == multiset(TurnedAsk(c).details);
    assert ReusableRows(m, TurnedAsk(c), now) == {c.row};
    HeldAuthorizes([ApprovedScope(c.scope, c.row)], m, TurnedAsk(c), now);
    assert [c.x, c.y][0] != [c.y, c.x][0];
    TurnedDrafted(c, now);
  }

  lemma TurnedDrafted(c: Turned, now: nat)
    ensures Drafted(TurnedTables(c, now), TurnedDraft(c, now), Native, now)
  {
    var db := TurnedTables(c, now);
    assert multiset(db.entitlements[c.row].details) == multiset(TurnedAsk(c).details);
    assert ContextEntitlements(db, c.request, now) == {c.row};
    assert ScopesOf(db.entitlements, [c.row]) == [c.scope];
    SortTextsAlone(c.scope);
    assert EarliestExpiry(db.entitlements, [c.row]).None?;
  }
}
