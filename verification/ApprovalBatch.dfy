/** What the approval batch does to the tables, statement by statement. */
module ApprovalBatch {
  import opened Options
  import opened AccessDatabase

  function Stored(row: Entitlement, request: Id): Entitlement {
    row.(source := Some(request), ended := None)
  }

  ghost predicate SameBut(db: Db, d: Db) {
    && d.requests == db.requests && d.leases == db.leases
    && d.activeResources == db.activeResources && d.activeConnections == db.activeConnections
  }

  lemma {:induction false} InsertAllFrame(db: Db, rows: seq<NewRow>, request: Id)
    ensures SameBut(db, InsertAll(db, rows, request))
    decreases |rows|
  {
    if rows != [] { InsertAllFrame(InsertEntitlement(db, rows[0].id, rows[0].row, request), rows[1..], request); }
  }

  lemma {:induction false} UpdateAllFrame(db: Db, updates: seq<RowUpdate>)
    ensures SameBut(db, UpdateAll(db, updates))
    decreases |updates|
  {
    if updates != [] { UpdateAllFrame(UpdateEntitlement(db, updates[0]), updates[1..]); }
  }

  lemma KeyFreeAfterInsert(m: map<Id, Entitlement>, id: Id, e: Entitlement, key: Key, except: Option<Id>)
    requires id !in m && KeyOf(e) != key
    ensures KeyFree(m[id := e], key, except) <==> KeyFree(m, key, except)
  {
    if KeyFree(m[id := e], key, except) {
      forall i | i in m && Open(m[i]) && KeyOf(m[i]) == key ensures except == Some(i) {
        assert m[id := e][i] == m[i];
      }
    }
  }

  /** An insert neither helps nor hinders an insert with another id and key. */
  lemma InsertIndependent(db: Db, a: NewRow, b: NewRow, request: Id)
    requires a.id != b.id && KeyOf(a.row) != KeyOf(b.row)
    ensures CanInsert(InsertEntitlement(db, a.id, a.row, request), b.id, b.row, request)
            <==> CanInsert(db, b.id, b.row, request)
  {
    if CanInsert(db, a.id, a.row, request) {
      KeyFreeAfterInsert(db.entitlements, a.id, Stored(a.row, request), KeyOf(b.row), None);
    }
  }

  ghost predicate Apart(rows: seq<NewRow>) {
    forall i, j | 0 <= i < j < |rows| :: rows[i].id != rows[j].id && KeyOf(rows[i].row) != KeyOf(rows[j].row)
  }

  /** The tables after inserting `rows`: exactly those the database alone would have accepted. */
  ghost predicate Inserted(db: Db, d: Db, rows: seq<NewRow>, request: Id) {
    && SameBut(db, d)
    && (forall i | i in db.entitlements :: i in d.entitlements && d.entitlements[i] == db.entitlements[i])
    && (forall j | 0 <= j < |rows| && CanInsert(db, rows[j].id, rows[j].row, request) ::
          rows[j].id in d.entitlements && d.entitlements[rows[j].id] == Stored(rows[j].row, request))
    && (forall i | i in d.entitlements && i !in db.entitlements ::
          exists j :: 0 <= j < |rows| && rows[j].id == i && CanInsert(db, rows[j].id, rows[j].row, request))
  }

  ghost predicate AllAcceptable(db: Db, rows: seq<NewRow>, request: Id) {
    forall j | 0 <= j < |rows| :: CanInsert(db, rows[j].id, rows[j].row, request)
  }

  lemma {:induction false} InsertAllFacts(db: Db, rows: seq<NewRow>, request: Id)
    requires Apart(rows)
    ensures Inserted(db, InsertAll(db, rows, request), rows, request)
    ensures AllInserted(db, rows, request) <==> AllAcceptable(db, rows, request)
    decreases |rows|
  {
    if rows != [] {
      var a, rest := rows[0], rows[1..];
      var db1 := InsertEntitlement(db, a.id, a.row, request);
      forall j | 0 <= j < |rest|
        ensures CanInsert(db1, rest[j].id, rest[j].row, request) <==> CanInsert(db, rest[j].id, rest[j].row, request)
      {
        InsertIndependent(db, a, rest[j], request);
      }
      InsertAllFacts(db1, rest, request);
      InsertedStep(db, rows, request, InsertAll(db1, rest, request));
      assert rows == [a] + rest;
    }
  }

  lemma InsertedStep(db: Db, rows: seq<NewRow>, request: Id, d: Db)
    requires rows != [] && Apart(rows)
    requires Inserted(InsertEntitlement(db, rows[0].id, rows[0].row, request), d, rows[1..], request)
    requires forall j | 1 <= j < |rows| ::
      CanInsert(InsertEntitlement(db, rows[0].id, rows[0].row, request), rows[j].id, rows[j].row, request)
      <==> CanInsert(db, rows[j].id, rows[j].row, request)
    ensures Inserted(db, d, rows, request)
  {
    var db1, rest := InsertEntitlement(db, rows[0].id, rows[0].row, request), rows[1..];
    forall j | 0 <= j < |rows| && CanInsert(db, rows[j].id, rows[j].row, request)
      ensures rows[j].id in d.entitlements && d.entitlements[rows[j].id] == Stored(rows[j].row, request)
    {
      if j > 0 { assert rest[j - 1] == rows[j]; }
    }
    forall i | i in d.entitlements && i !in db.entitlements
      ensures exists j :: 0 <= j < |rows| && rows[j].id == i && CanInsert(db, rows[j].id, rows[j].row, request)
    {
      if i in db1.entitlements {
        assert rows[0].id == i;
      } else {
        var j :| 0 <= j < |rest| && rest[j].id == i && CanInsert(db1, rest[j].id, rest[j].row, request);
        assert rows[j + 1] == rest[j];
      }
    }
  }

  // ---- Updates ----

  function NewKey(db: Db, u: RowUpdate): Key
    requires u.id in db.entitlements
  {
    KeyOf(db.entitlements[u.id].(contextHash := u.contextHash))
  }

  /** Updates of different open rows with different scopes. */
  ghost predicate Independent(db: Db, updates: seq<RowUpdate>) {
    && (forall j | 0 <= j < |updates| :: UpdateApplies(db, updates[j]))
    && (forall i, j | 0 <= i < j < |updates| ::
          updates[i].id != updates[j].id
          && db.entitlements[updates[i].id].scope != db.entitlements[updates[j].id].scope)
  }

  lemma UpdateIndependent(db: Db, a: RowUpdate, b: RowUpdate)
    requires UpdateApplies(db, a) && UpdateApplies(db, b) && a.id != b.id
    requires db.entitlements[a.id].scope != db.entitlements[b.id].scope
    ensures UpdateConflicts(UpdateEntitlement(db, a), b) <==> UpdateConflicts(db, b)
  {
    var m, n := db.entitlements, UpdateEntitlement(db, a).entitlements;
    var key := NewKey(db, b);
    assert KeyOf(m[a.id]).scope != key.scope && KeyOf(n[a.id]).scope != key.scope;
    assert forall i | i in m && i != a.id :: n[i] == m[i];
    assert KeyFree(m, key, Some(b.id)) <==> KeyFree(n, key, Some(b.id));
  }

  function Revised(e: Entitlement, u: RowUpdate): Entitlement {
    e.(lifetime := u.lifetime, contextHash := u.contextHash)
  }

  /** The tables after `updates`: the named rows revised, every other row as it was. */
  ghost predicate Updated(db: Db, d: Db, updates: seq<RowUpdate>) {
    && SameBut(db, d)
    && d.entitlements.Keys == db.entitlements.Keys
    && (forall j | 0 <= j < |updates| && updates[j].id in db.entitlements ::
          d.entitlements[updates[j].id] == Revised(db.entitlements[updates[j].id], updates[j]))
    && (forall i | i in db.entitlements && (forall j | 0 <= j < |updates| :: updates[j].id != i) ::
          d.entitlements[i] == db.entitlements[i])
  }

  ghost predicate NoConflict(db: Db, updates: seq<RowUpdate>) {
    forall j | 0 <= j < |updates| :: !UpdateConflicts(db, updates[j])
  }

  lemma {:induction false} UpdateAllFacts(db: Db, updates: seq<RowUpdate>)
    requires Independent(db, updates)
    ensures Updated(db, UpdateAll(db, updates), updates)
    ensures AllUpdated(db, updates)
    ensures SomeConflict(db, updates) <==> !NoConflict(db, updates)
    decreases |updates|
  {
    if updates != [] {
      var a, rest := updates[0], updates[1..];
      var db1 := UpdateEntitlement(db, a);
      forall j | 0 <= j < |rest| ensures UpdateConflicts(db1, rest[j]) <==> UpdateConflicts(db, rest[j]) {
        UpdateIndependent(db, a, rest[j]);
      }
      IndependentRest(db, updates);
      UpdateAllFacts(db1, rest);
      UpdatedStep(db, updates, UpdateAll(db1, rest));
      assert updates == [a] + rest;
    }
  }

  lemma IndependentRest(db: Db, updates: seq<RowUpdate>)
    requires updates != [] && Independent(db, updates)
    ensures Independent(UpdateEntitlement(db, updates[0]), updates[1..])
  {
    var db1, rest := UpdateEntitlement(db, updates[0]), updates[1..];
    forall j | 0 <= j < |rest|
      ensures rest[j].id in db1.entitlements && db1.entitlements[rest[j].id] == db.entitlements[rest[j].id]
    {
      assert rest[j] == updates[j + 1];
    }
  }

  lemma UpdatedStep(db: Db, updates: seq<RowUpdate>, d: Db)
    requires updates != [] && Independent(db, updates)
    requires Updated(UpdateEntitlement(db, updates[0]), d, updates[1..])
    ensures Updated(db, d, updates)
  {
    var db1, rest := UpdateEntitlement(db, updates[0]), updates[1..];
    forall j | 0 <= j < |updates|
      ensures d.entitlements[updates[j].id] == Revised(db.entitlements[updates[j].id], updates[j])
    {
      if j == 0 {
        assert forall l | 0 <= l < |rest| :: rest[l].id == updates[l + 1].id != updates[0].id;
      } else {
        assert rest[j - 1] == updates[j];
      }
    }
    forall i | i in db.entitlements && (forall j | 0 <= j < |updates| :: updates[j].id != i)
      ensures d.entitlements[i] == db.entitlements[i]
    {
      assert updates[0].id != i;
      assert forall l | 0 <= l < |rest| :: rest[l].id == updates[l + 1].id != i;
    }
  }
}
