/** Granting a permission without a request: createScopeEntitlement in
    server/adapters/repos/authorization.ts. It looks for an equivalent open row in one statement and
    writes in a later one, which names the row by its id alone. */
module DirectGrants {
  import opened Options
  import opened Lifetimes
  import opened AccessDatabase

  /** An open row of the same subject, target and scope, for the same details by hash or by text. */
  predicate SameGrant(e: Entitlement, row: Entitlement) {
    && e.agent == row.agent && e.resource == row.resource && e.connection == row.connection && e.scope == row.scope
    && Open(e) && (e.contextHash == row.contextHash || e.details == row.details)
  }

  /** A row as the select returned it. */
  datatype Found = Found(id: Id, row: Entitlement)

  /** What the select may return. It compares details as stored texts, which tell apart more than
      canonical forms do, so a row is certain to be found only if the hash agrees. */
  predicate Finds(db: Db, row: NewRow, found: Option<Found>) {
    match found
    case Some(f) => f.id in db.entitlements && f.row == db.entitlements[f.id] && SameGrant(f.row, row.row)
    case None => KeyFree(db.entitlements, KeyOf(row.row), None)
  }

  predicate CanInsertGrant(db: Db, row: NewRow) {
    row.id !in db.entitlements && KeyFree(db.entitlements, KeyOf(row.row), None)
  }

  /** insert ... on conflict do nothing */
  function InsertGrant(db: Db, row: NewRow): Db {
    if CanInsertGrant(db, row) then db.(entitlements := db.entitlements[row.id := row.row.(ended := None)]) else db
  }

  /** The grant changes the lifetime or the hash of the row it read. */
  predicate Raises(read: Entitlement, row: Entitlement) {
    StrongerLifetime(read.lifetime, row.lifetime).Some? || read.contextHash != row.contextHash
  }

  /** `stored` after the update: a lifetime is written only if it extends the one read. */
  function Raised(stored: Entitlement, read: Entitlement, row: Entitlement): Entitlement {
    var lifetime := StrongerLifetime(read.lifetime, row.lifetime);
    stored.(lifetime := if lifetime.Some? then lifetime.value else stored.lifetime, contextHash := row.contextHash)
  }

  /** The row that was found has been marked as expired. */
  function Expire(m: map<Id, Entitlement>, id: Id, now: nat): map<Id, Entitlement>
    requires id in m
  {
    m[id := m[id].(ended := Some(End(now, Expired)))]
  }

  /** No constraint refuses the write that follows the select. */
  predicate WriteAllowed(db: Db, row: NewRow, found: Found, now: nat)
    requires found.id in db.entitlements
  {
    var m := db.entitlements;
    if HasExpired(found.row.lifetime, now) then
      row.id !in m && KeyFree(Expire(m, found.id, now), KeyOf(row.row), None)
    else
      var raised := Raised(m[found.id], found.row, row.row);
      Open(raised) ==> KeyFree(m, KeyOf(raised), Some(found.id))
  }

  /** The write, over whatever is stored by then: an expired row is ended and replaced, any other is
      raised. A refused write stores nothing. */
  function CompleteGrant(db: Db, row: NewRow, found: Found, now: nat): Db {
    var m := db.entitlements;
    if found.id !in m || !WriteAllowed(db, row, found, now) then db
    else if HasExpired(found.row.lifetime, now) then
      db.(entitlements := Expire(m, found.id, now)[row.id := row.row.(ended := None)])
    else if Raises(found.row, row.row) then
      db.(entitlements := m[found.id := Raised(m[found.id], found.row, row.row)])
    else db
  }

  /** The whole operation when nothing else runs in between. */
  function GrantAtOnce(db: Db, row: NewRow, found: Option<Found>, now: nat): Db {
    if found.None? then InsertGrant(db, row) else CompleteGrant(db, row, found.value, now)
  }

  /** The row that an uninterrupted grant ends with. */
  function GrantTarget(row: NewRow, found: Option<Found>, now: nat): Id {
    if found.Some? && !HasExpired(found.value.row.lifetime, now) then found.value.id else row.id
  }

  function FoundId(found: Option<Found>): Option<Id> {
    if found.Some? then Some(found.value.id) else None
  }

  /** An uninterrupted grant succeeds exactly if no other open row holds its key. Then an open row
      holds the key with exactly the greater of the two lifetimes, an expired row has given way to the
      new one, and every other row is as it was. */
  lemma GrantOutcome(db: Db, row: NewRow, found: Option<Found>, now: nat)
    requires UniqueOpen(db.entitlements) && Finds(db, row, found) && row.id !in db.entitlements
    ensures var f := GrantAtOnce(db, row, found, now);
            if !KeyFree(db.entitlements, KeyOf(row.row), FoundId(found)) then f == db
            else
              var target := GrantTarget(row, found, now);
              && target in f.entitlements && Open(f.entitlements[target])
              && KeyOf(f.entitlements[target]) == KeyOf(row.row)
              && f.entitlements[target].lifetime
                 == (if target == row.id then row.row.lifetime else Extended(db.entitlements[target].lifetime, row.row.lifetime))
              && (found.Some? && target == row.id ==>
                    f.entitlements[found.value.id].ended == Some(End(now, Expired)))
              && f.entitlements.Keys == db.entitlements.Keys + {target}
              && forall i | i in db.entitlements && FoundId(found) != Some(i) :: f.entitlements[i] == db.entitlements[i]
  {
    if found.Some? {
      GrantsAgree(found.value.row.lifetime, row.row.lifetime);
      if HasExpired(found.value.row.lifetime, now) {
        ExpiredGivesWay(db.entitlements, KeyOf(row.row), found.value.id, now);
      } else if !Raises(found.value.row, row.row) {
        assert db.requests == GrantAtOnce(db, row, found, now).requests;
      }
    }
  }

  lemma ExpiredGivesWay(m: map<Id, Entitlement>, key: Key, id: Id, now: nat)
    requires id in m
    ensures KeyFree(Expire(m, id, now), key, None) <==> KeyFree(m, key, Some(id))
  {
    var n := Expire(m, id, now);
    assert forall i | i in m && i != id :: n[i] == m[i];
  }

  // ---- A write over a row that has changed since it was read ----

  /** The row is shortened exactly if the grant extends what it read and what is stored by then is
      longer than what it grants. */
  lemma GrantShortensExactly(db: Db, row: NewRow, found: Found, now: nat)
    requires found.id in db.entitlements
    ensures !Leq(db.entitlements[found.id].lifetime, CompleteGrant(db, row, found, now).entitlements[found.id].lifetime)
            <==> && !HasExpired(found.row.lifetime, now) && WriteAllowed(db, row, found, now)
                 && !Leq(row.row.lifetime, found.row.lifetime)
                 && !Leq(db.entitlements[found.id].lifetime, row.row.lifetime)
  {
    var e := db.entitlements[found.id];
    LeqOrders(e.lifetime, e.lifetime, e.lifetime);
  }

  /** When the write reaches a row that has ended since it was read, it changes it. */
  predicate GrantRewritesEnded(db: Db, row: NewRow, found: Found, now: nat)
    requires found.id in db.entitlements
  {
    var e := db.entitlements[found.id];
    if HasExpired(found.row.lifetime, now) then
      WriteAllowed(db, row, found, now) && e.ended != Some(End(now, Expired))
    else
      || (!Leq(row.row.lifetime, found.row.lifetime) && e.lifetime != row.row.lifetime)
      || (Raises(found.row, row.row) && e.contextHash != row.row.contextHash)
  }

  /** A row that has ended since it was read is rewritten all the same, exactly if the write changes
      it; it stays ended, and no open row comes of the grant unless the row read had expired. */
  lemma GrantOverEnded(db: Db, row: NewRow, found: Found, now: nat)
    requires found.id in db.entitlements && !Open(db.entitlements[found.id])
    ensures var e, f := db.entitlements[found.id], CompleteGrant(db, row, found, now).entitlements;
            !Open(f[found.id]) && (f[found.id] != e <==> GrantRewritesEnded(db, row, found, now))
    ensures var f := CompleteGrant(db, row, found, now).entitlements;
            !HasExpired(found.row.lifetime, now) ==>
              forall i | i in f && Open(f[i]) :: i in db.entitlements && f[i] == db.entitlements[i]
  {
  }

  /** A row whose lifetime is as it was read does not come out shorter. */
  lemma UnchangedRowGrows(db: Db, row: NewRow, found: Found, now: nat)
    requires found.id in db.entitlements && db.entitlements[found.id].lifetime == found.row.lifetime
    ensures Leq(db.entitlements[found.id].lifetime, CompleteGrant(db, row, found, now).entitlements[found.id].lifetime)
  {
    GrantShortensExactly(db, row, found, now);
    LeqOrders(found.row.lifetime, row.row.lifetime, found.row.lifetime);
  }
}
