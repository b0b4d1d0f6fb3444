/** The stored access records, and the operations that change them. Each operation here runs with no
    other in between; AccessRuns treats operations that overlap. */
module AccessStores {
  import opened Options
  import opened Lifetimes
  import opened Texts
  import opened Listings
  import opened AuthorizationDetails
  import opened AccessDatabase
  import opened AccessDecisions
  import opened TokenLeases
  import opened DirectGrants
  import opened PermissionRevocation
  import opened AccessRequests

  /** The permissions that revokeUncoveredEntitlements ends. */
  predicate Uncovered(e: Entitlement, connection: Id, grantedScopes: seq<Scope>, granted: Context, detailsRequired: bool, now: nat) {
    && e.connection == Some(connection) && ActiveAt(e, now)
    && !(e.scope in grantedScopes && (detailsRequired ==> |e.details| > 0) && multiset(e.details) <= multiset(granted))
  }

  /** The tables once the permissions in `ids` are revoked, each with the leases active on it. */
  ghost predicate RevokedAll(before: Db, after: Db, ids: set<Id>, now: nat) {
    && after.requests == before.requests
    && after.activeResources == before.activeResources && after.activeConnections == before.activeConnections
    && after.entitlements == EndRows(before.entitlements, ids, now, Revoked)
    && after.leases.Keys == before.leases.Keys
    && forall l | l in before.leases ::
         after.leases[l] == if LeaseActive(before.leases[l], now) && Touches(before.leases[l], ids)
                            then before.leases[l].(revokedAt := Some(now)) else before.leases[l]
  }

  ghost predicate Touches(l: Lease, ids: set<Id>) {
    exists i :: i in ids && i in l.entitlements
  }

  lemma RevokedOne(before: Db, middle: Db, after: Db, ids: set<Id>, i: Id, now: nat)
    requires RevokedAll(before, middle, ids, now)
    requires after == EndEntitlement(middle, i, Revoked, ActiveLeasesOf(middle, i, now), now)
    ensures RevokedAll(before, after, ids + {i}, now)
  {
    forall l | l in before.leases
      ensures after.leases[l] == if LeaseActive(before.leases[l], now) && Touches(before.leases[l], ids + {i})
                                 then before.leases[l].(revokedAt := Some(now)) else before.leases[l]
    {
      assert Touches(before.leases[l], ids + {i}) <==> Touches(before.leases[l], ids) || i in before.leases[l].entitlements;
      assert middle.leases[l].entitlements == before.leases[l].entitlements;
    }
    assert after.entitlements == EndRows(before.entitlements, ids + {i}, now, Revoked);
  }

  lemma RevokedNone(db: Db, now: nat)
    ensures RevokedAll(db, db, {}, now)
  {
    assert db.entitlements == EndRows(db.entitlements, {}, now, Revoked);
  }

  class Store {
    var entitlements: map<Id, Entitlement>
    var requests: map<Id, Request>
    var leases: map<Id, Lease>
    var activeResources: set<Id>
    var activeConnections: set<Id>

    constructor ()
      ensures Tables() == Db(map[], map[], map[], {}, {})
    {
      entitlements, requests, leases, activeResources, activeConnections := map[], map[], map[], {}, {};
    }

    function Tables(): Db
      reads this
    {
      Db(entitlements, requests, leases, activeResources, activeConnections)
    }

    // ---- The repository's statements ----

    method EndEntitlementWithAudit(id: Id, reason: EndReason, tokenLeases: set<Id>, now: nat) returns (ended: bool)
      modifies this
      ensures Tables() == EndEntitlement(old(Tables()), id, reason, tokenLeases, now)
      ensures ended <==> id in old(entitlements) && Open(old(entitlements)[id])
    {
      ended := id in entitlements && Open(entitlements[id]);
      entitlements := EndRows(entitlements, {id}, now, reason);
      leases := RevokeLeases(leases, tokenLeases, now);
    }

    /** One batch: inserts, then updates, then the decision. A key conflict undoes all of it. */
    method ApproveAccessRequestWithEntitlements(rows: seq<NewRow>, updates: seq<RowUpdate>, request: Id, d: Decision)
      returns (outcome: ApproveOutcome)
      modifies this
      ensures (Tables(), outcome) == ApproveAccessRequest(old(Tables()), rows, updates, request, d)
    {
      var saved := entitlements;
      var allInserted, allUpdated := true, true;
      var k := 0;
      while k < |rows|
        invariant 0 <= k <= |rows|
        invariant InsertAll(Tables(), rows[k..], request) == InsertAll(old(Tables()), rows, request)
        invariant AllInserted(old(Tables()), rows, request) <==> allInserted && AllInserted(Tables(), rows[k..], request)
        invariant Tables().(entitlements := saved) == old(Tables())
        modifies this
      {
        var row := rows[k];
        assert rows[k..][1..] == rows[k + 1..];
        if CanInsert(Tables(), row.id, row.row, request) {
          entitlements := entitlements[row.id := row.row.(source := Some(request), ended := None)];
        } else {
          allInserted := false;
        }
        k := k + 1;
      }
      ghost var inserted := Tables();
      k := 0;
      while k < |updates|
        invariant 0 <= k <= |updates|
        invariant UpdateAll(Tables(), updates[k..]) == UpdateAll(inserted, updates)
        invariant AllUpdated(inserted, updates) <==> allUpdated && AllUpdated(Tables(), updates[k..])
        invariant SomeConflict(inserted, updates) <==> SomeConflict(Tables(), updates[k..])
        invariant Tables().(entitlements := saved) == old(Tables())
        modifies this
      {
        var u := updates[k];
        assert updates[k..][1..] == updates[k + 1..];
        if UpdateConflicts(Tables(), u) {
          entitlements := saved;
          return ConstraintFailed;
        }
        if UpdateApplies(Tables(), u) {
          entitlements := entitlements[u.id := entitlements[u.id].(lifetime := u.lifetime, contextHash := u.contextHash)];
        } else {
          allUpdated := false;
        }
        k := k + 1;
      }
      var allowed := DecisionAllowed(Tables(), request, d);
      if allowed {
        requests := requests[request := requests[request].(status := Approved, approved := d.approved,
                                                           connection := d.connection, details := d.details)];
      }
      outcome := if !allInserted then EntitlementsChanged
                 else if !allUpdated then ResourceUnavailable
                 else if !allowed then RequestChanged
                 else RequestApproved;
    }

    method IssueTokenLeaseWithAudit(id: Id, l: Lease, b: Boundary, consume: set<Id>) returns (stored: bool)
      modifies this
      ensures Tables() == IssueTokenLease(old(Tables()), id, l, b, consume)
      ensures stored <==> CanIssue(old(Tables()), id, l, b)
    {
      stored := CanIssue(Tables(), id, l, b);
      if stored {
        leases := leases[id := l];
        if requests[l.request].status == Approved {
          requests := requests[l.request := requests[l.request].(status := RequestConsumed)];
        } else {
          assert requests == requests[l.request := requests[l.request]];
        }
        entitlements := EndRows(entitlements, consume, l.createdAt, Consumed);
      }
    }

    // ---- Use cases ----

    /** createScopeEntitlement; `found` is what its select returned. */
    method CreateScopeEntitlement(row: NewRow, found: Option<Found>, now: nat) returns (granted: Option<Id>)
      requires Finds(Tables(), row, found) && row.id !in entitlements
      modifies this`entitlements
      ensures Tables() == GrantAtOnce(old(Tables()), row, found, now)
      ensures UniqueOpen(old(entitlements)) ==>
                granted == if KeyFree(old(entitlements), KeyOf(row.row), FoundId(found)) then Some(GrantTarget(row, found, now)) else None
    {
      if found.None? {
        entitlements := entitlements[row.id := row.row.(ended := None)];
        return Some(row.id);
      }
      var id, read := found.value.id, found.value.row;
      ExpiredGivesWay(entitlements, KeyOf(row.row), id, now);
      if HasExpired(read.lifetime, now) {
        if !KeyFree(Expire(entitlements, id, now), KeyOf(row.row), None) { return None; }
        entitlements := Expire(entitlements, id, now)[row.id := row.row.(ended := None)];
        return Some(row.id);
      }
      var lifetime := StrongerLifetime(read.lifetime, row.row.lifetime);
      if lifetime.None? && read.contextHash == row.row.contextHash { return Some(id); }
      var raised := read.(contextHash := row.row.contextHash);
      if lifetime.Some? { raised := raised.(lifetime := lifetime.value); }
      if !KeyFree(entitlements, KeyOf(raised), Some(id)) { return None; }
      entitlements := entitlements[id := raised];
      return Some(id);
    }

    /** Answers from permissions already held, else returns the same request if it is pending, else
        files a new one. */
    method CreateAgentAccessRequest(id: Id, a: Ask, now: nat) returns (result: Option<Id>)
      requires id !in requests
      modifies this`requests
      ensures result.None? <==> a.resource !in activeResources
      ensures result.None? ==> requests == old(requests)
      ensures result.Some? && AlreadyAuthorized(entitlements, a, now) ==>
                exists approved :: NamesHeld(approved, a.scopes, entitlements, a, now)
                                   && requests == old(requests)[id := RequestFor(a, now, Approved, approved)]
      ensures result.Some? && !AlreadyAuthorized(entitlements, a, now) && result.value != id ==>
                result.value in old(requests) && SamePending(old(requests)[result.value], a, now) && requests == old(requests)
      ensures result == Some(id) && !AlreadyAuthorized(entitlements, a, now) ==>
                && requests == old(requests)[id := RequestFor(a, now, Pending, [])]
                && forall i | i in old(requests) :: !SamePending(old(requests)[i], a, now)
    {
      if a.resource !in activeResources { return None; }
      var listing := List(ReusableRows(entitlements, a, now));
      var approved := Reuse(entitlements, listing, a, now);
      var alreadyAuthorized := |approved| == |a.scopes|;
      if !alreadyAuthorized {
        var pending := List(set i | i in requests && requests[i].agent == a.agent && requests[i].status == Pending && now < requests[i].expiresAt);
        var same := FindPending(requests, pending, a, now);
        if same.Some? { return same; }
      }
      requests := requests[id := RequestFor(a, now, if alreadyAuthorized then Approved else Pending,
                                            if alreadyAuthorized then approved else [])];
      return Some(id);
    }

    /** When the token expires, or None if the other server's token lives too long. */
    method TokenExpiry(request: Id, ids: seq<Id>, issuer: Issuer, readAt: nat, issuedAt: nat) returns (expiry: Option<nat>)
      requires request in requests && Lists(ids, ContextEntitlements(Tables(), request, readAt))
      requires if issuer.Native? then readAt <= issuedAt else readAt == issuedAt
      ensures forall i | i in ids :: i in entitlements
      ensures expiry.None? <==> issuer.External? && LivesTooLong(Tables(), request, issuer.expiresIn, readAt)
      ensures expiry.Some? ==> forall l: Lease | l.createdAt == issuedAt && l.expiresAt == expiry.value ::
                ExpiryFits(EarliestExpiry(entitlements, ids), issuer, readAt, l)
    {
      EarliestOf(Tables(), request, ids, readAt);
      var earliest := EarliestExpiry(entitlements, ids);
      match issuer
      case Native =>
        var maximum := issuedAt + NATIVE_LIFETIME;
        return Some(if earliest.Some? && earliest.value < maximum then earliest.value else maximum);
      case External(expiresIn) =>
        var expiresAt := readAt + expiresIn * 1000;
        if expiresIn == 0 || expiresIn > LONGEST_EXTERNAL_LIFETIME { return None; }
        if earliest.Some? && expiresAt > earliest.value { return None; }
        return Some(expiresAt);
    }

    /** Turns the active permissions of an approved request's context into a lease. */
    method IssueAccessToken(request: Id, agent: Id, id: Id, issuer: Issuer, readAt: nat, issuedAt: nat)
      returns (stored: bool, ghost draft: Option<Draft>)
      requires issuer.Native? ==> readAt <= issuedAt
      requires issuer.External? ==> readAt == issuedAt
      modifies this
      ensures draft.None? ==> !stored && Tables() == old(Tables())
      ensures draft.Some? ==> && Drafted(old(Tables()), draft.value, issuer, readAt)
                              && draft.value.lease.request == request && draft.value.lease.createdAt == issuedAt
                              && var d := draft.value;
                              && Tables() == IssueTokenLease(old(Tables()), id, d.lease, d.boundary, d.consume)
                              && (stored <==> CanIssue(old(Tables()), id, d.lease, d.boundary))
      ensures draft.None? <==> IssueRefused(old(Tables()), request, agent, issuer, readAt)
    {
      draft := None;
      if request !in requests || requests[request].agent != agent { return false, None; }
      var r := requests[request];
      if r.status != Approved && r.status != RequestConsumed { return false, None; }
      var ids := List(ActiveInContext(Tables(), r.agent, r.resource, r.connection, r.details, readAt));
      var reachable := if issuer.Native? then r.connection.None? else r.connection.Some? && r.connection.value in activeConnections;
      if ids == [] || r.resource !in activeResources || !reachable {
        assert forall i :: i in ActiveInContext(Tables(), r.agent, r.resource, r.connection, r.details, readAt) <==> i in ids;
        return false, None;
      }
      assert ids[0] in ids;
      var expiry := TokenExpiry(request, ids, issuer, readAt, issuedAt);
      if expiry.None? { return false, None; }
      var scopes := SortTexts(ScopesOf(entitlements, ids));
      var lease := Lease(ids, request, scopes, r.details, expiry.value, issuedAt, None);
      var boundary := Boundary(r.agent, r.resource, r.connection, r.details, scopes);
      var consume := set i | i in ids && entitlements[i].lifetime.Once?;
      draft := Some(Draft(lease, boundary, consume));
      stored := IssueTokenLeaseWithAudit(id, lease, boundary, consume);
    }

    /** Reads, plans, stores, and tries once more if permissions had changed. The identifiers are
        those that would be generated. */
    method DecideAgentAccessRequest(request: Id, approval: Approval, now: nat, newIds: seq<Id>, retryIds: seq<Id>)
      returns (outcome: Option<ApproveOutcome>, ghost first: Option<Reading>, ghost second: Option<Reading>)
      requires request in requests ==> |newIds| == |retryIds| == |requests[request].scopes|
      modifies this
      ensures first.None? <==> !Decidable(old(Tables()), request, now)
      ensures first.None? ==> outcome.None? && Tables() == old(Tables())
      ensures first.Some? ==>
        && ReadingOf(old(Tables()), first.value, request, approval, now, newIds)
        && var (f, o) := StoreApproval(old(Tables()), first.value);
        if o != EntitlementsChanged then Tables() == f && outcome == Some(o)
        else if request in f.requests && f.requests[request].status == Approved then Tables() == f && outcome == Some(RequestApproved)
        else if !Decidable(f, request, now) then Tables() == f && outcome.None?
        else && second.Some? && ReadingOf(f, second.value, request, approval, now, retryIds)
             && (Tables(), outcome) == (StoreApproval(f, second.value).0, Some(StoreApproval(f, second.value).1))
    {
      first, second := None, None;
      if !Decidable(Tables(), request, now) { return None, None, None; }
      var reading := Read(request, approval, now, newIds);
      first := Some(reading);
      var rows, updates, approved := PlanApproval(reading);
      var o := ApproveAccessRequestWithEntitlements(rows, updates, request, Decision(approved, approval.connection, approval.details));
      if o == EntitlementsChanged {
        KeepsRequests(old(Tables()), reading);
        if requests[request].status == Approved { return Some(RequestApproved), first, second; }
        if !Decidable(Tables(), request, now) { return None, first, second; }
        reading := Read(request, approval, now, retryIds);
        second := Some(reading);
        rows, updates, approved := PlanApproval(reading);
        o := ApproveAccessRequestWithEntitlements(rows, updates, request, Decision(approved, approval.connection, approval.details));
      }
      outcome := Some(o);
    }

    method Read(request: Id, approval: Approval, now: nat, newIds: seq<Id>) returns (reading: Reading)
      requires request in requests && |newIds| == |requests[request].scopes|
      ensures ReadingOf(Tables(), reading, request, approval, now, newIds)
    {
      var r := requests[request];
      var listing := List(ActiveInContext(Tables(), r.agent, r.resource, approval.connection, approval.details, now));
      reading := Reading(r.agent, r.resource, request, r.scopes, entitlements, listing, newIds, approval);
    }

    /** A missing, ended or unsourced permission is refused; any other ends with its active leases. */
    method RevokeAgentPermission(id: Id, now: nat) returns (found: bool)
      modifies this
      ensures found <==> && id in old(entitlements) && Open(old(entitlements)[id])
                         && old(entitlements)[id].source.Some? && old(entitlements)[id].source.value in old(requests)
      ensures !found ==> Tables() == old(Tables())
      ensures found ==> RevokedAll(old(Tables()), Tables(), {id}, now)
      ensures found ==> !Open(entitlements[id]) && forall later | now <= later :: !StillLeased(Tables(), id, later)
    {
      if id !in entitlements || !Open(entitlements[id]) { return false; }
      var source := entitlements[id].source;
      if source.None? || source.value !in requests { return false; }
      ghost var before := Tables();
      var _ := EndEntitlementWithAudit(id, Revoked, ActiveLeasesOf(Tables(), id, now), now);
      RevokedNone(before, now);
      RevokedOne(before, before, Tables(), {}, id, now);
      assert {} + {id} == {id};
      forall later | now <= later ensures !StillLeased(Tables(), id, later) {
        RevokedUnleased(before, Tables(), {id}, id, now, later);
      }
      return true;
    }

    /** After a connection's grant changed: ends exactly the active permissions of the connection
        that the new grant does not cover, and the leases active on them. */
    method RevokeUncoveredEntitlements(connection: Id, grantedScopes: seq<Scope>, granted: Context, detailsRequired: bool, now: nat)
      modifies this
      ensures RevokedAll(old(Tables()), Tables(),
                (set i | i in old(entitlements) && Uncovered(old(entitlements)[i], connection, grantedScopes, granted, detailsRequired, now)),
                now)
    {
      ghost var before := Tables();
      ghost var ended: set<Id> := {};
      var listing := List(set i | i in entitlements && entitlements[i].connection == Some(connection) && ActiveAt(entitlements[i], now));
      RevokedNone(before, now);
      var k := 0;
      while k < |listing|
        invariant 0 <= k <= |listing|
        invariant RevokedAll(before, Tables(), ended, now)
        invariant forall i :: i in ended <==>
          i in listing[..k] && i in before.entitlements
          && Uncovered(before.entitlements[i], connection, grantedScopes, granted, detailsRequired, now)
        modifies this
      {
        var i := listing[k];
        assert i in listing;
        NotEndedYet(before, Tables(), ended, listing, k, now);
        var e := entitlements[i];
        var covered := e.scope in grantedScopes && (!detailsRequired || |e.details| > 0);
        if covered { covered := StrikeOff(e.details, granted); }
        assert listing[..k + 1] == listing[..k] + [i];
        if !covered {
          ghost var middle := Tables();
          var _ := EndEntitlementWithAudit(i, Revoked, ActiveLeasesOf(Tables(), i, now), now);
          RevokedOne(before, middle, Tables(), ended, i, now);
          ended := ended + {i};
        }
        k := k + 1;
      }
      assert listing[..k] == listing;
      assert ended == set i | i in before.entitlements && Uncovered(before.entitlements[i], connection, grantedScopes, granted, detailsRequired, now);
    }
  }

  /** What is left after the uncovered permissions were revoked: every active permission of the
      connection is covered by the new grant, no covered one was touched, and no lease of an ended
      one is active. */
  lemma OnlyCoveredRemain(before: Db, after: Db, connection: Id, grantedScopes: seq<Scope>, granted: Context, detailsRequired: bool, now: nat)
    requires RevokedAll(before, after,
               (set i | i in before.entitlements && Uncovered(before.entitlements[i], connection, grantedScopes, granted, detailsRequired, now)),
               now)
    ensures forall i | i in after.entitlements && after.entitlements[i].connection == Some(connection) && ActiveAt(after.entitlements[i], now) ::
              var e := after.entitlements[i];
              && e.scope in grantedScopes && (detailsRequired ==> e.details != [])
              && multiset(e.details) <= multiset(granted)
    ensures forall i | i in before.entitlements ::
              && i in after.entitlements
              && (Uncovered(before.entitlements[i], connection, grantedScopes, granted, detailsRequired, now)
                  ==> !Open(after.entitlements[i]) && !StillLeased(after, i, now))
              && (!Uncovered(before.entitlements[i], connection, grantedScopes, granted, detailsRequired, now)
                  ==> after.entitlements[i] == before.entitlements[i])
  {
    var ids := set i | i in before.entitlements && Uncovered(before.entitlements[i], connection, grantedScopes, granted, detailsRequired, now);
    forall i | i in ids ensures !StillLeased(after, i, now) {
      RevokedUnleased(before, after, ids, i, now, now);
    }
  }

  lemma RevokedUnleased(before: Db, after: Db, ids: set<Id>, i: Id, now: nat, later: nat)
    requires RevokedAll(before, after, ids, now) && i in ids && now <= later
    ensures !StillLeased(after, i, later)
  {
    forall l | l in after.leases && i in after.leases[l].entitlements ensures !LeaseActive(after.leases[l], later) {
      assert before.leases[l].entitlements == after.leases[l].entitlements;
      assert Touches(before.leases[l], ids);
    }
  }

  /** A pending, unexpired request for an available resource. */
  predicate Decidable(db: Db, request: Id, now: nat) {
    && request in db.requests && db.requests[request].status == Pending && now < db.requests[request].expiresAt
    && db.requests[request].resource in db.activeResources
  }

  /** Why a token is refused before anything is stored. */
  ghost predicate IssueRefused(db: Db, request: Id, agent: Id, issuer: Issuer, readAt: nat) {
    || request !in db.requests || db.requests[request].agent != agent
    || (db.requests[request].status != Approved && db.requests[request].status != RequestConsumed)
    || ContextEntitlements(db, request, readAt) == {}
    || db.requests[request].resource !in db.activeResources
    || match issuer
       case Native => db.requests[request].connection.Some?
       case External(expiresIn) =>
         || db.requests[request].connection.None? || db.requests[request].connection.value !in db.activeConnections
         || LivesTooLong(db, request, expiresIn, readAt)
  }

  /** The lifetime that the other server gave its token is refused. */
  ghost predicate LivesTooLong(db: Db, request: Id, expiresIn: nat, readAt: nat)
    requires request in db.requests
  {
    expiresIn == 0 || expiresIn > LONGEST_EXTERNAL_LIFETIME || Outlives(db, request, readAt, readAt + expiresIn * 1000)
  }

  /** Some active permission of the context ends before `expiresAt`. */
  ghost predicate Outlives(db: Db, request: Id, readAt: nat, expiresAt: nat)
    requires request in db.requests
  {
    exists i :: i in ContextEntitlements(db, request, readAt) && db.entitlements[i].lifetime.Until?
                && db.entitlements[i].lifetime.t < expiresAt
  }

  lemma EarliestOf(db: Db, request: Id, ids: seq<Id>, readAt: nat)
    requires request in db.requests && Lists(ids, ContextEntitlements(db, request, readAt))
    ensures forall i | i in ids :: i in db.entitlements
    ensures var earliest := EarliestExpiry(db.entitlements, ids);
            forall e: nat :: Outlives(db, request, readAt, e) <==> earliest.Some? && e > earliest.value
  {
  }

  lemma NotEndedYet(before: Db, db: Db, ended: set<Id>, listing: seq<Id>, k: nat, now: nat)
    requires RevokedAll(before, db, ended, now) && Distinct(listing) && k < |listing|
    requires listing[k] in before.entitlements && forall i | i in ended :: i in listing[..k]
    ensures listing[k] in db.entitlements && db.entitlements[listing[k]] == before.entitlements[listing[k]]
  {
  }

  ghost predicate ReadingOf(db: Db, r: Reading, request: Id, approval: Approval, now: nat, newIds: seq<Id>) {
    && request in db.requests && r.request == request && r.approval == approval && r.newIds == newIds
    && r.agent == db.requests[request].agent && r.resource == db.requests[request].resource
    && r.scopes == db.requests[request].scopes && r.entitlements == db.entitlements && |r.newIds| == |r.scopes|
    && Lists(r.listing, ActiveInContext(db, r.agent, r.resource, approval.connection, approval.details, now))
  }
}
