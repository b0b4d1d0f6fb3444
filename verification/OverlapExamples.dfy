/** Concrete runs in which a late write costs something: for any Agent, resource and scope. */
module OverlapExamples {
  import opened Options
  import opened Lifetimes
  import opened AccessDatabase
  import opened AccessDecisions
  import opened TokenLeases
  import opened DirectGrants
  import opened AuthorizationDetails
  import opened AccessRuns
  import opened AccessSafety

  /** One Agent with one permission `row`, a settled request and one that waits for a decision. */
  datatype Case = Case(agent: Id, resource: Id, scope: Scope, row: Id, spare: Id, settled: Id, waiting: Id, lease: Id)

  predicate Apart(c: Case) { c.spare != c.row && c.waiting != c.settled }

  function Permission(c: Case, lifetime: Lifetime): Entitlement {
    Entitlement(c.agent, c.resource, None, [], [], c.scope, lifetime, None, None)
  }

  function Asked(c: Case, status: Status): Request {
    Request(c.agent, c.resource, None, [c.scope], [], status, [], 100)
  }

  function Tables(c: Case, e: Entitlement): Db {
    Db(map[c.row := e], map[c.settled := Asked(c, Approved), c.waiting := Asked(c, Pending)], map[], {c.resource}, {})
  }

  function Token(c: Case): Lease {
    Lease([c.row], c.settled, [c.scope], [], NATIVE_LIFETIME, 0, None)
  }

  function Leased(c: Case, e: Entitlement): Db {
    Tables(c, e).(requests := map[c.settled := Asked(c, RequestConsumed), c.waiting := Asked(c, Pending)],
                  leases := map[c.lease := Token(c)])
  }

  /** Raising the permission to `lifetime`, read when it was good until 5 or for one use. */
  function Raising(c: Case, read: Lifetime, lifetime: Lifetime): Work {
    Granting(NewRow(c.spare, Permission(c, lifetime)), 0, Some(Found(c.row, Permission(c, read))))
  }

  function RaisingStep(c: Case, w: nat, read: Lifetime, lifetime: Lifetime): Step {
    BeginGrant(w, NewRow(c.spare, Permission(c, lifetime)), 0, Some(Found(c.row, Permission(c, read))))
  }

  function TokenDraft(c: Case, consume: set<Id>): Draft {
    Draft(Token(c), Boundary(c.agent, c.resource, None, [], [c.scope]), consume)
  }

  // ---- The steps that the runs share ----

  lemma GrantBegins(c: Case, w: nat, read: Lifetime, lifetime: Lifetime, work: map<nat, Work>)
    requires w !in work
    ensures var s := State(Tables(c, Permission(c, read)), work, map[]);
            Next(s, RaisingStep(c, w, read, lifetime), s.(work := work[w := Raising(c, read, lifetime)]))
  {
  }

  lemma TokenDrafted(c: Case, lifetime: Lifetime)
    requires Apart(c) && !lifetime.Until?
    ensures Drafted(Tables(c, Permission(c, lifetime)), TokenDraft(c, if lifetime.Once? then {c.row} else {}), Native, 0)
  {
    var db, l := Tables(c, Permission(c, lifetime)), Token(c);
    assert ContextEntitlements(db, c.settled, 0) == {c.row};
    assert ScopesOf(db.entitlements, l.entitlements) == [c.scope];
    SortTextsAlone(c.scope);
    assert EarliestExpiry(db.entitlements, l.entitlements).None?;
  }

  lemma TokenBegins(c: Case, lifetime: Lifetime, work: map<nat, Work>)
    requires Apart(c) && !lifetime.Until? && 2 !in work
    ensures var s, d := State(Tables(c, Permission(c, lifetime)), work, map[]), TokenDraft(c, if lifetime.Once? then {c.row} else {});
            Next(s, BeginIssue(2, d, Native, 0), s.(work := work[2 := Issuing(d, s.db.entitlements)]))
  {
    TokenDrafted(c, lifetime);
  }

  lemma TokenStored(c: Case, lifetime: Lifetime)
    requires Apart(c) && !lifetime.Until?
    ensures var d, e := TokenDraft(c, if lifetime.Once? then {c.row} else {}), Permission(c, lifetime);
            && CanIssue(Tables(c, e), c.lease, d.lease, d.boundary)
            && IssueTokenLease(Tables(c, e), c.lease, d.lease, d.boundary, d.consume)
               == Leased(c, if lifetime.Once? then e.(ended := Some(End(0, Consumed))) else e)
  {
    var d, e := TokenDraft(c, if lifetime.Once? then {c.row} else {}), Permission(c, lifetime);
    var f := if lifetime.Once? then e.(ended := Some(End(0, Consumed))) else e;
    assert Tables(c, e).entitlements[Token(c).entitlements[0]].scope == d.boundary.scopes[0];
    assert CanIssue(Tables(c, e), c.lease, d.lease, d.boundary);
    assert EndRows(map[c.row := e], d.consume, 0, Consumed) == map[c.row := f];
  }

  // ---- A write that comes too late ----

  // The moments of a run in which `late` reads the permission when it is good until 5. Then a grant
  // makes it permanent, a token is issued, and the late write is stored.

  function AtFirst(c: Case): State { State(Tables(c, Permission(c, Until(5))), map[], map[]) }

  function LateRead(c: Case, late: Work): State { AtFirst(c).(work := map[0 := late]) }

  function GrantRead(c: Case, late: Work): State {
    AtFirst(c).(work := map[0 := late, 1 := Raising(c, Until(5), Persistent)])
  }

  function GrantStored(c: Case, late: Work): State { State(Tables(c, Permission(c, Persistent)), map[0 := late], map[]) }

  function TokenRead(c: Case, late: Work): State {
    GrantStored(c, late).(work := map[0 := late, 2 := Issuing(TokenDraft(c, {}), Tables(c, Permission(c, Persistent)).entitlements)])
  }

  function AtLast(c: Case, late: Work): State { State(Leased(c, Permission(c, Persistent)), map[0 := late], map[c.lease := {}]) }

  function LateStored(c: Case, last: Db): State { State(last, map[], map[c.lease := {}]) }

  function Commit(late: Work): Step { if late.Deciding? then CommitDecide(0) else CommitGrant(0) }

  function LateRun(c: Case, begin: Step, late: Work, last: Db): Run {
    Run([AtFirst(c), LateRead(c, late), GrantRead(c, late), GrantStored(c, late), TokenRead(c, late), AtLast(c, late), LateStored(c, last)],
        [begin, RaisingStep(c, 1, Until(5), Persistent), CommitGrant(1), BeginIssue(2, TokenDraft(c, {}), Native, 0),
         CommitIssue(2, c.lease), Commit(late)])
  }

  /** A run of one step. */
  ghost predicate Link(s: State, step: Step, t: State, timely: bool) { IsRun(Run([s, t], [step]), timely) }

  lemma MakesLink(s: State, step: Step, t: State, timely: bool)
    requires Next(s, step, t) && (timely ==> TimelyStep(s, step))
    ensures Link(s, step, t, timely)
  {
    assert Linked(Run([s, t], [step]), timely, 0);
  }

  /** The first n steps. */
  function Cut(run: Run, n: nat): Run
    requires n <= |run.steps| && n < |run.states|
  {
    Run(run.states[..n + 1], run.steps[..n])
  }

  /** Links make a run, timely but for its last step. */
  lemma LinksMakeRun(run: Run)
    requires |run.states| == |run.steps| + 1 && run.steps != []
    requires forall k | 0 <= k < |run.steps| :: Link(run.states[k], run.steps[k], run.states[k + 1], k < |run.steps| - 1)
    ensures IsRun(run, false) && IsRun(Cut(run, |run.steps| - 1), true)
  {
    var n := |run.steps| - 1;
    forall k | 0 <= k < |run.steps| ensures Linked(run, false, k) && (k < n ==> Linked(Cut(run, n), true, k)) {
      var link := Run([run.states[k], run.states[k + 1]], [run.steps[k]]);
      assert Link(run.states[k], run.steps[k], run.states[k + 1], k < n);
      assert Linked(link, k < n, 0);
    }
  }

  lemma GrantReads(c: Case, late: Work)
    ensures Link(LateRead(c, late), RaisingStep(c, 1, Until(5), Persistent), GrantRead(c, late), true)
  {
    GrantBegins(c, 1, Until(5), Persistent, map[0 := late]);
    assert GrantRead(c, late).work == map[0 := late][1 := Raising(c, Until(5), Persistent)];
    MakesLink(LateRead(c, late), RaisingStep(c, 1, Until(5), Persistent), GrantRead(c, late), true);
  }

  lemma GrantIsStored(c: Case, late: Work)
    requires Apart(c)
    ensures Link(GrantRead(c, late), CommitGrant(1), GrantStored(c, late), true)
  {
    assert GrantRead(c, late).work - {1} == map[0 := late];
    MakesLink(GrantRead(c, late), CommitGrant(1), GrantStored(c, late), true);
  }

  lemma TokenReads(c: Case, late: Work)
    requires Apart(c)
    ensures Link(GrantStored(c, late), BeginIssue(2, TokenDraft(c, {}), Native, 0), TokenRead(c, late), true)
  {
    TokenBegins(c, Persistent, map[0 := late]);
    assert TokenRead(c, late).work == map[0 := late][2 := Issuing(TokenDraft(c, {}), GrantStored(c, late).db.entitlements)];
    MakesLink(GrantStored(c, late), BeginIssue(2, TokenDraft(c, {}), Native, 0), TokenRead(c, late), true);
  }

  lemma TokenIsStored(c: Case, late: Work)
    requires Apart(c)
    ensures Link(TokenRead(c, late), CommitIssue(2, c.lease), AtLast(c, late), true)
  {
    TokenStored(c, Persistent);
    assert TokenRead(c, late).work - {2} == map[0 := late];
    MakesLink(TokenRead(c, late), CommitIssue(2, c.lease), AtLast(c, late), true);
  }

  lemma LateRunHolds(c: Case, begin: Step, late: Work, last: Db)
    requires Apart(c)
    requires Link(AtFirst(c), begin, LateRead(c, late), true) && Link(AtLast(c, late), Commit(late), LateStored(c, last), false)
    ensures RunFrom(LateRun(c, begin, late, last), false) && RunFrom(Cut(LateRun(c, begin, late, last), 5), true)
  {
    var run := LateRun(c, begin, late, last);
    GrantReads(c, late);
    GrantIsStored(c, late);
    TokenReads(c, late);
    TokenIsStored(c, late);
    LinksMakeRun(run);
  }

  /** The token is active at a moment when the permission behind it has run out, unused. */
  ghost predicate Outlived(c: Case, s: State) {
    && c.row in s.db.entitlements && Open(s.db.entitlements[c.row]) && HasExpired(s.db.entitlements[c.row].lifetime, 11)
    && c.lease in s.db.leases && c.row in s.db.leases[c.lease].entitlements && LeaseActive(s.db.leases[c.lease], 11)
    && c.lease in s.usedBy && c.row !in s.usedBy[c.lease]
    && !Bounds(s.db.entitlements[c.row], s.db.leases[c.lease])
  }

  /** A grant until 10 stored over a permission that has become permanent in the meantime: one step
      that is not timely, and a token outlives its permission. No approval took part. */
  lemma LateGrantOutlived(c: Case)
    requires Apart(c)
    ensures var run := LateRun(c, RaisingStep(c, 0, Until(5), Until(10)), Raising(c, Until(5), Until(10)), Leased(c, Permission(c, Until(10))));
            && RunFrom(run, false) && Outlived(c, run.states[6])
            && RunFrom(Cut(run, 5), true) && !TimelyStep(run.states[5], run.steps[5])
  {
    var late, last := Raising(c, Until(5), Until(10)), Leased(c, Permission(c, Until(10)));
    LateGrantLinks(c);
    LateRunHolds(c, RaisingStep(c, 0, Until(5), Until(10)), late, last);
  }

  lemma LateGrantLinks(c: Case)
    requires Apart(c)
    ensures var late, last := Raising(c, Until(5), Until(10)), Leased(c, Permission(c, Until(10)));
            && Link(AtFirst(c), RaisingStep(c, 0, Until(5), Until(10)), LateRead(c, late), true)
            && Link(AtLast(c, late), Commit(late), LateStored(c, last), false) && !TimelyStep(AtLast(c, late), Commit(late))
  {
    LateGrantBegins(c);
    var late, last := Raising(c, Until(5), Until(10)), Leased(c, Permission(c, Until(10)));
    assert CompleteGrant(AtLast(c, late).db, late.row, late.found.value, 0) == last;
    MakesLink(AtLast(c, late), Commit(late), LateStored(c, last), false);
  }

  lemma LateGrantBegins(c: Case)
    ensures Link(AtFirst(c), RaisingStep(c, 0, Until(5), Until(10)), LateRead(c, Raising(c, Until(5), Until(10))), true)
  {
    GrantBegins(c, 0, Until(5), Until(10), map[]);
    MakesLink(AtFirst(c), RaisingStep(c, 0, Until(5), Until(10)), LateRead(c, Raising(c, Until(5), Until(10))), true);
  }

  // ---- The same with an approval ----

  function WaitingReading(c: Case): Reading {
    Reading(c.agent, c.resource, c.waiting, [c.scope], map[c.row := Permission(c, Until(5))], [c.row], [c.spare],
            Approval(Until(10), None, []))
  }

  function Decided(c: Case): Db {
    Leased(c, Permission(c, Until(10))).(requests := map[
      c.settled := Asked(c, RequestConsumed),
      c.waiting := Asked(c, Approved).(approved := [ApprovedScope(c.scope, c.row)])])
  }

  lemma WaitingRead(c: Case)
    requires Apart(c)
    ensures ReadFrom(Tables(c, Permission(c, Until(5))), WaitingReading(c), 0)
  {
    var db := Tables(c, Permission(c, Until(5)));
    assert ActiveInContext(db, c.agent, c.resource, None, [], 0) == {c.row};
  }

  /** The plan for one scope whose row changes. */
  lemma PlanOfOne(r: Reading)
    requires |r.scopes| == 1 <= |r.newIds| && Changes(r, 0)
    ensures PlanBelow(r, 1) == Plan([], [UpdateFor(r, 0)], [ApprovedFor(r, 0)])
  {
    assert MissingBelow(r, 1) == MissingBelow(r, 0) && ChangesBelow(r, 1) == ChangesBelow(r, 0) + [0];
  }

  /** What is stored for it. */
  lemma StoredForOne(db: Db, r: Reading)
    requires |r.scopes| == 1 <= |r.newIds| && Changes(r, 0)
    requires UpdateApplies(db, UpdateFor(r, 0)) && !UpdateConflicts(db, UpdateFor(r, 0))
    requires var d := Decision([ApprovedFor(r, 0)], r.approval.connection, r.approval.details);
             DecisionAllowed(UpdateEntitlement(db, UpdateFor(r, 0)), r.request, d)
    ensures var d := Decision([ApprovedFor(r, 0)], r.approval.connection, r.approval.details);
            StoreApproval(db, r) == (DecideRequest(UpdateEntitlement(db, UpdateFor(r, 0)), r.request, d), RequestApproved)
  {
    PlanOfOne(r);
    OneUpdate(db, UpdateFor(r, 0));
  }

  lemma OneUpdate(db: Db, u: RowUpdate)
    ensures UpdateAll(db, [u]) == UpdateEntitlement(db, u) && (SomeConflict(db, [u]) <==> UpdateConflicts(db, u))
    ensures AllUpdated(db, [u]) <==> UpdateApplies(db, u)
  {
    assert [u][1..] == [];
  }

  lemma WaitingServed(c: Case)
    ensures var r := WaitingReading(c);
            && Current(r, 0) == Some(c.row) && Changes(r, 0) && UpdateFor(r, 0) == RowUpdate(c.row, Until(10), [])
            && ApprovedFor(r, 0) == ApprovedScope(c.scope, c.row)
  {
  }

  lemma WaitingUpdated(c: Case)
    ensures var db, u := Leased(c, Permission(c, Persistent)), RowUpdate(c.row, Until(10), []);
            && UpdateApplies(db, u) && !UpdateConflicts(db, u) && UpdateEntitlement(db, u) == Leased(c, Permission(c, Until(10)))
  {
  }

  lemma WaitingDecided(c: Case)
    requires Apart(c)
    ensures var db, d := Leased(c, Permission(c, Until(10))), Decision([ApprovedScope(c.scope, c.row)], None, []);
            DecisionAllowed(db, c.waiting, d) && DecideRequest(db, c.waiting, d) == Decided(c)
  {
    var db := Leased(c, Permission(c, Until(10)));
    assert db.requests[c.waiting] == Asked(c, Pending);
  }

  lemma WaitingStored(c: Case)
    requires Apart(c)
    ensures StoreApproval(Leased(c, Permission(c, Persistent)), WaitingReading(c)) == (Decided(c), RequestApproved)
  {
    WaitingServed(c);
    WaitingUpdated(c);
    WaitingDecided(c);
    StoredAs(Leased(c, Permission(c, Persistent)), WaitingReading(c), Leased(c, Permission(c, Until(10))), Decided(c));
  }

  lemma StoredAs(db: Db, r: Reading, after: Db, f: Db)
    requires |r.scopes| == 1 <= |r.newIds| && Changes(r, 0)
    requires UpdateApplies(db, UpdateFor(r, 0)) && !UpdateConflicts(db, UpdateFor(r, 0)) && UpdateEntitlement(db, UpdateFor(r, 0)) == after
    requires var d := Decision([ApprovedFor(r, 0)], r.approval.connection, r.approval.details);
             DecisionAllowed(after, r.request, d) && DecideRequest(after, r.request, d) == f
    ensures StoreApproval(db, r) == (f, RequestApproved)
  {
    StoredForOne(db, r);
  }

  /** An approval until 10 stored over a permission that has become permanent in the meantime. */
  lemma LateApprovalOutlived(c: Case)
    requires Apart(c)
    ensures var run := LateRun(c, BeginDecide(0, WaitingReading(c), 0), Deciding(WaitingReading(c)), Decided(c));
            && RunFrom(run, false) && Outlived(c, run.states[6])
            && RunFrom(Cut(run, 5), true) && !TimelyStep(run.states[5], run.steps[5])
  {
    LateApprovalBegins(c);
    LateApprovalIsStored(c);
    LateApprovalIsLate(c);
    LateRunHolds(c, BeginDecide(0, WaitingReading(c), 0), Deciding(WaitingReading(c)), Decided(c));
  }

  lemma LateApprovalBegins(c: Case)
    requires Apart(c)
    ensures Link(AtFirst(c), BeginDecide(0, WaitingReading(c), 0), LateRead(c, Deciding(WaitingReading(c))), true)
  {
    WaitingRead(c);
    MakesLink(AtFirst(c), BeginDecide(0, WaitingReading(c), 0), LateRead(c, Deciding(WaitingReading(c))), true);
  }

  lemma LateApprovalIsStored(c: Case)
    requires Apart(c)
    ensures Link(AtLast(c, Deciding(WaitingReading(c))), CommitDecide(0), LateStored(c, Decided(c)), false)
  {
    WaitingStored(c);
    DecisionStored(AtLast(c, Deciding(WaitingReading(c))), WaitingReading(c), Decided(c));
  }

  lemma DecisionStored(s: State, r: Reading, f: Db)
    requires s.work == map[0 := Deciding(r)] && |r.scopes| <= |r.newIds| && StoreApproval(s.db, r).0 == f
    ensures Link(s, CommitDecide(0), State(f, map[], s.usedBy), false)
  {
    assert s.work - {0} == map[];
    MakesLink(s, CommitDecide(0), State(f, map[], s.usedBy), false);
  }

  lemma LateApprovalIsLate(c: Case)
    ensures !TimelyStep(AtLast(c, Deciding(WaitingReading(c))), CommitDecide(0))
  {
    var r := WaitingReading(c);
    assert Changes(r, 0) && Current(r, 0) == Some(c.row);
  }

  // ---- A grant over a permission that has been used up ----

  // The moments of a run in which a grant reads a permission good for one use, a token uses it up, and
  // the grant is stored.

  function LateRaise(c: Case): Work { Raising(c, Once, Persistent) }

  function UsedUp(c: Case, lifetime: Lifetime): Entitlement { Permission(c, lifetime).(ended := Some(End(0, Consumed))) }

  function Unused(c: Case): State { State(Tables(c, Permission(c, Once)), map[], map[]) }

  function RaiseRead(c: Case): State { Unused(c).(work := map[0 := LateRaise(c)]) }

  function UseRead(c: Case): State {
    Unused(c).(work := map[0 := LateRaise(c), 2 := Issuing(TokenDraft(c, {c.row}), Tables(c, Permission(c, Once)).entitlements)])
  }

  function Used(c: Case): State { State(Leased(c, UsedUp(c, Once)), map[0 := LateRaise(c)], map[c.lease := {c.row}]) }

  function RaisedInVain(c: Case): State { State(Leased(c, UsedUp(c, Persistent)), map[], map[c.lease := {c.row}]) }

  function UsedRun(c: Case): Run {
    Run([Unused(c), RaiseRead(c), UseRead(c), Used(c), RaisedInVain(c)],
        [RaisingStep(c, 0, Once, Persistent), BeginIssue(2, TokenDraft(c, {c.row}), Native, 0), CommitIssue(2, c.lease), CommitGrant(0)])
  }

  lemma RaiseReads(c: Case)
    ensures Link(Unused(c), RaisingStep(c, 0, Once, Persistent), RaiseRead(c), true)
  {
    GrantBegins(c, 0, Once, Persistent, map[]);
    MakesLink(Unused(c), RaisingStep(c, 0, Once, Persistent), RaiseRead(c), true);
  }

  lemma UseReads(c: Case)
    requires Apart(c)
    ensures Link(RaiseRead(c), BeginIssue(2, TokenDraft(c, {c.row}), Native, 0), UseRead(c), true)
  {
    TokenBegins(c, Once, map[0 := LateRaise(c)]);
    assert UseRead(c).work == map[0 := LateRaise(c)][2 := Issuing(TokenDraft(c, {c.row}), RaiseRead(c).db.entitlements)];
    MakesLink(RaiseRead(c), BeginIssue(2, TokenDraft(c, {c.row}), Native, 0), UseRead(c), true);
  }

  lemma UseIsStored(c: Case)
    requires Apart(c)
    ensures Link(UseRead(c), CommitIssue(2, c.lease), Used(c), true)
  {
    TokenStored(c, Once);
    assert UseRead(c).work - {2} == map[0 := LateRaise(c)];
    MakesLink(UseRead(c), CommitIssue(2, c.lease), Used(c), true);
  }

  lemma RaiseIsStored(c: Case)
    requires Apart(c)
    ensures Link(Used(c), CommitGrant(0), RaisedInVain(c), false)
  {
    assert CompleteGrant(Used(c).db, LateRaise(c).row, LateRaise(c).found.value, 0) == RaisedInVain(c).db;
    MakesLink(Used(c), CommitGrant(0), RaisedInVain(c), false);
  }

  /** The grant rewrites the ended row, and leaves the Agent without any permission. */
  lemma LateGrantIsVoid(c: Case)
    requires Apart(c)
    ensures var run := UsedRun(c);
            && RunFrom(run, false)
            && run.states[4].db.entitlements == map[c.row := Permission(c, Persistent).(ended := Some(End(0, Consumed)))]
  {
    RaiseReads(c);
    UseReads(c);
    UseIsStored(c);
    RaiseIsStored(c);
    LinksMakeRun(UsedRun(c));
  }
}
