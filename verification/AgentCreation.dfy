/** Creating an Agent under an idempotency key: createAgentWithInstallation in
    server/usecases/agent-identities.ts and its repository. The fingerprint is the hash of a
    canonical JSON text; the hash is collision-free, so the text stands for it. */
module AgentCreation {
  import opened Texts
  import opened CanonicalJson

  type Id = string

  /** Application, acting user and idempotency key. */
  datatype Key = Key(application: Id, actor: Id, idempotencyKey: string)

  datatype Reservation = Reservation(fingerprint: Text, identity: Id)

  /** Reservations, and for each identity whether it has been deleted. */
  datatype Store = Store(reservations: map<Key, Reservation>, deleted: map<Id, bool>)

  datatype Outcome = Agent(identity: Id, replayed: bool) | Conflict | Unavailable

  function Fingerprint(request: Json, le: Collation): Text { Canonical(request, le) }

  /** The answer for a key that is reserved. */
  function Answer(s: Store, key: Key, fingerprint: Text, replayed: bool): Outcome
    requires key in s.reservations
  {
    var r := s.reservations[key];
    if r.fingerprint != fingerprint then Conflict
    else if r.identity in s.deleted && s.deleted[r.identity] then Conflict
    else Agent(r.identity, replayed)
  }

  /** The batch that inserts identity and reservation, unless the key is reserved by then or some
      identifier is taken (`free` says that no host, agent or username is in the way). */
  function InsertOnce(s: Store, key: Key, fingerprint: Text, identity: Id, free: bool): (Store, Outcome) {
    if key in s.reservations then (s, Answer(s, key, fingerprint, true))
    else if !free || identity in s.deleted then (s, Unavailable)
    else
      var t := Store(s.reservations[key := Reservation(fingerprint, identity)], s.deleted[identity := false]);
      (t, Answer(t, key, fingerprint, false))
  }

  class AgentIdentities {
    var reservations: map<Key, Reservation>
    var deleted: map<Id, bool>

    constructor ()
      ensures Value() == Store(map[], map[])
    {
      reservations, deleted := map[], map[];
    }

    function Value(): Store
      reads this
    {
      Store(reservations, deleted)
    }

    /** The whole call when nothing else runs in between. */
    method CreateAgentWithInstallation(key: Key, request: Json, le: Collation, identity: Id, free: bool) returns (outcome: Outcome)
      modifies this
      ensures (Value(), outcome) == InsertOnce(old(Value()), key, Fingerprint(request, le), identity, free)
    {
      var fingerprint := Fingerprint(request, le);
      if key in reservations {
        var r := reservations[key];
        if r.fingerprint != fingerprint { return Conflict; }
        if r.identity in deleted && deleted[r.identity] { return Conflict; }
        return Agent(r.identity, true);
      }
      if !free || identity in deleted { return Unavailable; }
      reservations := reservations[key := Reservation(fingerprint, identity)];
      deleted := deleted[identity := false];
      return Agent(identity, false);
    }
  }

  // ---- Runs in which calls overlap ----

  datatype Call = Call(key: Key, request: Json)

  datatype Result = Result(call: Call, outcome: Outcome)

  /** `waiting`: calls that found their key unreserved and have not inserted yet. */
  datatype State = State(store: Store, waiting: map<nat, Call>, results: seq<Result>)

  datatype Step = Begin(w: nat, call: Call) | End(w: nat, identity: Id, free: bool) | Delete(identity: Id)

  ghost predicate Next(s: State, step: Step, t: State, le: Collation) {
    match step
    case Begin(w, call) =>
      && w !in s.waiting && WellFormed(call.request)
      && t == if call.key in s.store.reservations
              then s.(results := s.results + [Result(call, Answer(s.store, call.key, Fingerprint(call.request, le), true))])
              else s.(waiting := s.waiting[w := call])
    case End(w, identity, free) =>
      && w in s.waiting
      && var call := s.waiting[w];
      var (store, outcome) := InsertOnce(s.store, call.key, Fingerprint(call.request, le), identity, free);
      t == State(store, s.waiting - {w}, s.results + [Result(call, outcome)])
    case Delete(identity) =>
      && identity in s.store.deleted
      && t == s.(store := s.store.(deleted := s.store.deleted[identity := true]))
  }

  /** The call made a new identity. */
  predicate Created(r: Result) { r.outcome.Agent? && !r.outcome.replayed }

  /** Every reservation has its own identity. */
  ghost predicate StoreSound(s: Store) {
    && (forall k | k in s.reservations :: s.reservations[k].identity in s.deleted)
    && (forall k, l | k in s.reservations && l in s.reservations && k != l :: s.reservations[k].identity != s.reservations[l].identity)
  }

  predicate Fits(reservations: map<Key, Reservation>, r: Result, le: Collation) {
    r.outcome.Agent? ==>
      && r.call.key in reservations
      && reservations[r.call.key] == Reservation(Fingerprint(r.call.request, le), r.outcome.identity)
  }

  /** Every answer so far agrees with the reservation of its key, and no key was created for twice. */
  ghost predicate ResultsSound(reservations: map<Key, Reservation>, results: seq<Result>, le: Collation) {
    && (forall i | 0 <= i < |results| :: WellFormed(results[i].call.request) && Fits(reservations, results[i], le))
    && (forall i, j | 0 <= i < j < |results| && Created(results[i]) && Created(results[j]) ::
          results[i].call.key != results[j].call.key)
  }

  ghost predicate Honest(s: State, le: Collation) {
    && StoreSound(s.store) && ResultsSound(s.store.reservations, s.results, le)
    && forall w | w in s.waiting :: WellFormed(s.waiting[w].request)
  }

  lemma InsertSound(s: Store, key: Key, fingerprint: Text, identity: Id, free: bool)
    requires StoreSound(s)
    ensures var (t, outcome) := InsertOnce(s, key, fingerprint, identity, free);
            && StoreSound(t) && (forall k | k in s.reservations :: k in t.reservations && t.reservations[k] == s.reservations[k])
            && (outcome.Agent? ==> key in t.reservations && t.reservations[key] == Reservation(fingerprint, outcome.identity))
            && (outcome.Agent? && !outcome.replayed ==> key !in s.reservations)
  {
  }

  lemma ResultsExtend(a: map<Key, Reservation>, b: map<Key, Reservation>, results: seq<Result>, r: Result, le: Collation)
    requires ResultsSound(a, results, le) && (forall k | k in a :: k in b && b[k] == a[k])
    requires WellFormed(r.call.request) && Fits(b, r, le) && (Created(r) ==> r.call.key !in a)
    ensures ResultsSound(b, results + [r], le)
  {
    forall i | 0 <= i < |results| ensures Fits(b, results[i], le) && (results[i].outcome.Agent? ==> results[i].call.key in a) {
      assert Fits(a, results[i], le);
    }
  }

  lemma StepHonest(s: State, step: Step, t: State, le: Collation)
    requires Next(s, step, t, le) && Honest(s, le)
    ensures Honest(t, le)
  {
    match step
    case Begin(w, call) =>
      if call.key in s.store.reservations {
        var r := Result(call, Answer(s.store, call.key, Fingerprint(call.request, le), true));
        ResultsExtend(s.store.reservations, s.store.reservations, s.results, r, le);
      }
    case End(w, identity, free) =>
      var call := s.waiting[w];
      InsertSound(s.store, call.key, Fingerprint(call.request, le), identity, free);
      ResultsExtend(s.store.reservations, t.store.reservations, s.results, t.results[|s.results|], le);
    case Delete(_) =>
  }

  datatype Run = Run(states: seq<State>, steps: seq<Step>)

  ghost predicate Linked(run: Run, k: nat, le: Collation)
    requires k < |run.steps| && |run.states| == |run.steps| + 1
  {
    Next(run.states[k], run.steps[k], run.states[k + 1], le)
  }

  /** A run that starts with nothing stored. */
  ghost predicate IsRun(run: Run, le: Collation) {
    && |run.states| == |run.steps| + 1 && run.states[0] == State(Store(map[], map[]), map[], [])
    && forall k | 0 <= k < |run.steps| :: Linked(run, k, le)
  }

  lemma {:induction false} RunsAreHonest(run: Run, k: nat, le: Collation)
    requires IsRun(run, le) && k < |run.states|
    ensures Honest(run.states[k], le)
  {
    if k > 0 {
      RunsAreHonest(run, k - 1, le);
      assert Linked(run, k - 1, le);
      StepHonest(run.states[k - 1], run.steps[k - 1], run.states[k], le);
    }
  }

  /** Calls under one key that succeed return the same Agent, asked for the same thing, and at most
      one of them created it, whatever the collation. */
  lemma OneAgentPerKey(run: Run, k: nat, i: nat, j: nat, le: Collation)
    requires IsRun(run, le) && k < |run.states|
    requires i < j < |run.states[k].results|
    requires var a, b := run.states[k].results[i], run.states[k].results[j];
             a.outcome.Agent? && b.outcome.Agent? && a.call.key == b.call.key
    ensures var a, b := run.states[k].results[i], run.states[k].results[j];
            && a.outcome.identity == b.outcome.identity
            && Meaning(a.call.request) == Meaning(b.call.request)
            && !(Created(a) && Created(b))
  {
    RunsAreHonest(run, k, le);
    var a, b := run.states[k].results[i], run.states[k].results[j];
    assert Fits(run.states[k].store.reservations, a, le) && Fits(run.states[k].store.reservations, b, le);
    CanonicalJsonInjective(a.call.request, b.call.request, le);
  }

  /** Under a key that has been answered with an Agent, a request that means something else always
      conflicts, and one that means the same gets that Agent until it is deleted; for the latter the
      collation must not tie two keys. */
  lemma AnswersFollowTheFirst(run: Run, k: nat, i: nat, request: Json, le: Collation)
    requires IsRun(run, le) && k < |run.states| && WellFormed(request)
    requires i < |run.states[k].results| && run.states[k].results[i].outcome.Agent?
    ensures var s, first := run.states[k], run.states[k].results[i];
            && first.call.key in s.store.reservations
            && first.outcome.identity in s.store.deleted
            && var answer := Answer(s.store, first.call.key, Fingerprint(request, le), true);
            && (Meaning(request) != Meaning(first.call.request) || s.store.deleted[first.outcome.identity] ==> answer == Conflict)
            && (Separates(le) && TotalPreorder(le) ==>
                  (Meaning(request) == Meaning(first.call.request) && !s.store.deleted[first.outcome.identity] ==>
                     answer == Agent(first.outcome.identity, true)))
  {
    RunsAreHonest(run, k, le);
    var first := run.states[k].results[i];
    assert Fits(run.states[k].store.reservations, first, le);
    if Meaning(request) == Meaning(first.call.request) {
      if TotalPreorder(le) && Separates(le) { CanonicalJsonIgnoresMemberOrder(request, first.call.request, le); }
    } else if Fingerprint(request, le) == Fingerprint(first.call.request, le) {
      CanonicalJsonInjective(request, first.call.request, le);
    }
  }
}
