/** Generations of a dynamically registered OAuth client: rotation, reset, and looking up a
    generation that has been retired. */
module ClientRotations {
  import opened Options

  type Id = string

  datatype OAuthClient = OAuthClient(id: Id, secret: Id)

  datatype Retired = Retired(generation: nat, client: OAuthClient)

  /** The part of a connector record that concerns its resource client. */
  datatype Connector = Connector(client: OAuthClient, generation: nat, retired: seq<Retired>, scopes: set<string>)

  /** What a newly created connector or a replaced resource authorization starts with. */
  function Fresh(client: OAuthClient, scopes: set<string>): Connector { Connector(client, 1, [], scopes) }

  /** The new record, made from the record that was read. */
  function Rotated(read: Connector, replacement: OAuthClient, scopes: set<string>): Connector {
    Connector(replacement, read.generation + 1, read.retired + [Retired(read.generation, read.client)], scopes)
  }

  /** rotateResourceClientGeneration: stored only over the generation that was read. */
  function Rotate(c: Connector, read: Connector, replacement: OAuthClient, scopes: set<string>): Connector {
    if c.generation == read.generation then Rotated(read, replacement, scopes) else c
  }

  /** The registration at the provider was changed in place: a new secret, the same client. */
  function PutUpdate(c: Connector, secret: Id, scopes: set<string>): Connector {
    c.(client := c.client.(secret := secret), scopes := scopes)
  }

  function FindRetired(retired: seq<Retired>, generation: nat): (r: Option<Retired>)
    ensures r.Some? ==> r.value in retired && r.value.generation == generation
    ensures r.None? ==> forall i | 0 <= i < |retired| :: retired[i].generation != generation
  {
    if retired == [] then None
    else if retired[0].generation == generation then Some(retired[0])
    else
      assert forall i | 1 <= i < |retired| :: retired[i] == retired[1..][i - 1];
      FindRetired(retired[1..], generation)
  }

  /** The client that resolveExternalAuthorization uses: the current generation if none is asked for. */
  function Resolve(c: Connector, requested: Option<nat>): Option<OAuthClient> {
    var generation := if requested.Some? then requested.value else c.generation;
    var retired := FindRetired(c.retired, generation);
    if generation != c.generation && retired.None? then None
    else if retired.Some? then Some(retired.value.client)
    else Some(c.client)
  }

  class ConnectorRecord {
    var client: OAuthClient
    var generation: nat
    var retired: seq<Retired>
    var scopes: set<string>

    constructor (registered: OAuthClient, granted: set<string>)
      ensures Value() == Fresh(registered, granted)
    {
      client, generation, retired, scopes := registered, 1, [], granted;
    }

    function Value(): Connector
      reads this
    {
      Connector(client, generation, retired, scopes)
    }

    /** Stores a replacement client unless another rotation was stored since `read`. */
    method StoreRotation(read: Connector, replacement: OAuthClient, granted: set<string>, required: set<string>)
      returns (returned: Option<nat>)
      modifies this
      ensures Value() == Rotate(old(Value()), read, replacement, granted)
      ensures returned == if old(generation) == read.generation then Some(read.generation + 1)
                          else if old(generation) > read.generation && required <= old(scopes) then Some(old(generation))
                          else None
    {
      if generation == read.generation {
        client, generation, retired, scopes :=
          replacement, read.generation + 1, read.retired + [Retired(read.generation, read.client)], granted;
        return Some(read.generation + 1);
      }
      if generation > read.generation && required <= scopes { return Some(generation); }
      return None;
    }

    method StoreUpdate(secret: Id, granted: set<string>)
      modifies this
      ensures Value() == PutUpdate(old(Value()), secret, granted)
    {
      client, scopes := client.(secret := secret), granted;
    }

    method Reset(registered: OAuthClient, granted: set<string>)
      modifies this
      ensures Value() == Fresh(registered, granted)
    {
      client, generation, retired, scopes := registered, 1, [], granted;
    }
  }

  // ---- Runs ----

  /** A run of one connector. `epoch` counts resets; `held` records which client each generation of
      this epoch had; `reading` holds what rotations under way have read, and in which epoch. */
  datatype State = State(connector: Connector, epoch: nat, held: map<nat, Id>, reading: map<nat, (Connector, nat)>)

  datatype Step =
    | BeginRotation(w: nat)
    | EndRotation(w: nat, replacement: OAuthClient, scopes: set<string>)
    | Update(secret: Id, scopes: set<string>)
    | Reset(client: OAuthClient, scopes: set<string>)

  ghost predicate Starts(s: State) {
    && s.connector.generation == 1 && s.connector.retired == [] && s.held == map[1 := s.connector.client.id]
    && s.reading == map[]
  }

  ghost predicate Next(s: State, step: Step, t: State) {
    match step
    case BeginRotation(w) =>
      w !in s.reading && t == s.(reading := s.reading[w := (s.connector, s.epoch)])
    case EndRotation(w, replacement, scopes) =>
      && w in s.reading
      && var read := s.reading[w].0;
      && var stored := s.connector.generation == read.generation;
      t == State(Rotate(s.connector, read, replacement, scopes), s.epoch,
                 if stored then s.held[read.generation + 1 := replacement.id] else s.held,
                 s.reading - {w})
    case Update(secret, scopes) =>
      t == s.(connector := PutUpdate(s.connector, secret, scopes))
    case Reset(client, scopes) =>
      t == State(Fresh(client, scopes), s.epoch + 1, map[1 := client.id], s.reading)
  }

  /** No reset between what the rotation read and what it stores over. */
  predicate SameEpoch(s: State, step: Step) {
    step.EndRotation? && step.w in s.reading ==> s.reading[step.w].1 == s.epoch
  }

  /** The retired generations are 1, 2, ... up to the one before the current, in this order. */
  predicate Numbered(c: Connector) {
    && c.generation == |c.retired| + 1
    && forall i | 0 <= i < |c.retired| :: c.retired[i].generation == i + 1
  }

  ghost predicate AllNumbered(s: State) {
    Numbered(s.connector) && forall w | w in s.reading :: Numbered(s.reading[w].0)
  }

  lemma NumberedResolves(c: Connector, g: nat)
    requires Numbered(c)
    ensures Resolve(c, Some(g)) == if 1 <= g < c.generation then Some(c.retired[g - 1].client)
                                   else if g == c.generation then Some(c.client) else None
    ensures Resolve(c, None) == Some(c.client)
  {
    var found, current := FindRetired(c.retired, g), FindRetired(c.retired, c.generation);
    if found.Some? {
      var i :| 0 <= i < |c.retired| && c.retired[i] == found.value;
      assert i == g - 1;
    }
    assert forall r | r in c.retired :: r.generation < c.generation;
  }

  lemma StepNumbers(s: State, step: Step, t: State)
    requires Next(s, step, t) && AllNumbered(s)
    ensures AllNumbered(t)
  {
  }

  // ---- Which client each generation had ----

  /** Every generation of this epoch is held against the client it had. */
  ghost predicate Recorded(c: Connector, held: map<nat, Id>) {
    && (forall g :: g in held <==> 1 <= g <= c.generation)
    && c.generation in held && held[c.generation] == c.client.id
    && forall i | 0 <= i < |c.retired| :: i + 1 in held && c.retired[i].client.id == held[i + 1]
  }

  /** What a rotation of this epoch has read agrees with the record as far as it goes. */
  ghost predicate Agrees(read: Connector, c: Connector, held: map<nat, Id>) {
    && read.generation <= c.generation
    && read.generation in held && held[read.generation] == read.client.id
    && forall i | 0 <= i < |read.retired| :: i + 1 in held && read.retired[i].client.id == held[i + 1]
  }

  ghost predicate Faithful(s: State) {
    && AllNumbered(s) && Recorded(s.connector, s.held)
    && forall w | w in s.reading ::
         s.reading[w].1 <= s.epoch && (s.reading[w].1 == s.epoch ==> Agrees(s.reading[w].0, s.connector, s.held))
  }

  lemma StepFaithful(s: State, step: Step, t: State)
    requires Next(s, step, t) && SameEpoch(s, step) && Faithful(s)
    ensures Faithful(t)
  {
    StepNumbers(s, step, t);
    if step.EndRotation? { EndFaithful(s, step, t); }
  }

  lemma EndFaithful(s: State, step: Step, t: State)
    requires Next(s, step, t) && step.EndRotation? && SameEpoch(s, step) && Faithful(s)
    ensures Recorded(t.connector, t.held)
    ensures forall w | w in t.reading ::
              t.reading[w].1 <= t.epoch && (t.reading[w].1 == t.epoch ==> Agrees(t.reading[w].0, t.connector, t.held))
  {
    var read := s.reading[step.w].0;
    assert Agrees(read, s.connector, s.held) && Numbered(read);
    forall w | w in t.reading && t.reading[w].1 == t.epoch ensures Agrees(t.reading[w].0, t.connector, t.held) {
      assert Agrees(s.reading[w].0, s.connector, s.held) && Numbered(s.reading[w].0);
    }
  }

  datatype Run = Run(states: seq<State>, steps: seq<Step>)

  ghost predicate Linked(run: Run, k: nat)
    requires k < |run.steps| && |run.states| == |run.steps| + 1
  {
    Next(run.states[k], run.steps[k], run.states[k + 1])
  }

  ghost predicate IsRun(run: Run) {
    && |run.states| == |run.steps| + 1 && Starts(run.states[0])
    && forall k | 0 <= k < |run.steps| :: Linked(run, k)
  }

  /** Whatever overlaps, resets included: a generation resolves exactly if it is one of 1 up to the
      current one, and the current one resolves to the current client. */
  lemma {:induction false} GenerationsResolve(run: Run, k: nat, g: nat)
    requires IsRun(run) && k < |run.states|
    ensures AllNumbered(run.states[k])
    ensures var c := run.states[k].connector;
            && (Resolve(c, Some(g)).Some? <==> 1 <= g <= c.generation)
            && Resolve(c, Some(c.generation)) == Some(c.client) == Resolve(c, None)
  {
    if k > 0 {
      GenerationsResolve(run, k - 1, g);
      assert Linked(run, k - 1);
      StepNumbers(run.states[k - 1], run.steps[k - 1], run.states[k]);
    }
    NumberedResolves(run.states[k].connector, g);
    NumberedResolves(run.states[k].connector, run.states[k].connector.generation);
  }

  ghost predicate NoRotationAcrossReset(run: Run)
    requires IsRun(run)
  {
    forall k | 0 <= k < |run.steps| :: SameEpoch(run.states[k], run.steps[k])
  }

  /** If no rotation is stored across a reset, each generation resolves to the very client that had
      it in this epoch. */
  lemma {:induction false} GenerationsKeepTheirClient(run: Run, k: nat, g: nat)
    requires IsRun(run) && NoRotationAcrossReset(run) && k < |run.states|
    ensures Faithful(run.states[k])
    ensures g in run.states[k].held ==>
              var client := Resolve(run.states[k].connector, Some(g));
              client.Some? && client.value.id == run.states[k].held[g]
  {
    if k > 0 {
      GenerationsKeepTheirClient(run, k - 1, g);
      assert Linked(run, k - 1);
      StepFaithful(run.states[k - 1], run.steps[k - 1], run.states[k]);
    }
    NumberedResolves(run.states[k].connector, g);
  }

  /** Between resets a generation once held stays held by the same client, so a generation that was
      returned stays usable. */
  lemma {:induction false} HeldUntilReset(run: Run, j: nat, k: nat, g: nat)
    requires IsRun(run) && j <= k < |run.states| && run.states[j].epoch == run.states[k].epoch
    requires NoRotationAcrossReset(run) && g in run.states[j].held
    ensures g in run.states[k].held && run.states[k].held[g] == run.states[j].held[g]
    decreases k - j
  {
    if j < k {
      assert Linked(run, k - 1);
      EpochsGrow(run, j, k - 1);
      HeldUntilReset(run, j, k - 1, g);
      GenerationsKeepTheirClient(run, k - 1, g);
    }
  }

  lemma {:induction false} EpochsGrow(run: Run, j: nat, k: nat)
    requires IsRun(run) && j <= k < |run.states|
    ensures run.states[j].epoch <= run.states[k].epoch
    decreases k - j
  {
    if j < k {
      assert Linked(run, k - 1);
      EpochsGrow(run, j, k - 1);
    }
  }

  // ---- What the compare-and-set does not catch ----

  /** Comparing generations alone, a stored rotation leaves every generation with the client it had
      exactly if client and retired list had not changed since they were read. A reset that has
      come back to the same number, or a secret changed in place, goes unnoticed. */
  lemma RotationKeepsClientsExactly(c: Connector, read: Connector, replacement: OAuthClient, scopes: set<string>)
    requires Numbered(c) && Numbered(read) && c.generation == read.generation
    ensures (forall g | 1 <= g <= c.generation :: Resolve(Rotate(c, read, replacement, scopes), Some(g)) == Resolve(c, Some(g)))
            <==> c.client == read.client && forall i | 0 <= i < |c.retired| :: c.retired[i].client == read.retired[i].client
  {
    var r := Rotate(c, read, replacement, scopes);
    forall g | 1 <= g <= c.generation
      ensures Resolve(r, Some(g)) == Resolve(c, Some(g))
              <==> if g == c.generation then c.client == read.client else c.retired[g - 1].client == read.retired[g - 1].client
    {
      NumberedResolves(c, g);
      NumberedResolves(r, g);
    }
    if forall g | 1 <= g <= c.generation :: Resolve(r, Some(g)) == Resolve(c, Some(g)) {
      assert Resolve(r, Some(c.generation)) == Resolve(c, Some(c.generation));
      forall i | 0 <= i < |c.retired| ensures c.retired[i].client == read.retired[i].client {
        assert Resolve(r, Some(i + 1)) == Resolve(c, Some(i + 1));
      }
    }
  }

  /** A rotation reads generation 1, a reset sets another client, and the rotation is stored. */
  function CrossingRun(before: OAuthClient, after: OAuthClient, replacement: OAuthClient, scopes: set<string>): Run {
    var read := Fresh(before, scopes);
    var reading := map[0 := (read, 0)];
    Run([State(read, 0, map[1 := before.id], map[]),
         State(read, 0, map[1 := before.id], reading),
         State(Fresh(after, scopes), 1, map[1 := after.id], reading),
         State(Rotated(read, replacement, scopes), 1, map[1 := after.id, 2 := replacement.id], map[])],
        [BeginRotation(0), Reset(after, scopes), EndRotation(0, replacement, scopes)])
  }

  /** A rotation that read before a reset and is stored after it: the client set by the reset had
      generation 1, and is gone for good. */
  lemma ResetClientLost(before: OAuthClient, after: OAuthClient, replacement: OAuthClient, scopes: set<string>)
    requires before != after && after != replacement
    ensures var run := CrossingRun(before, after, replacement, scopes);
            && IsRun(run) && !NoRotationAcrossReset(run)
            && Resolve(run.states[2].connector, Some(1)) == Some(after)
            && Resolve(run.states[3].connector, Some(1)) == Some(before)
            && forall g :: Resolve(run.states[3].connector, Some(g)) != Some(after)
  {
    var run := CrossingRun(before, after, replacement, scopes);
    assert Linked(run, 0);
    assert Linked(run, 1);
    assert run.states[2].reading - {0} == map[];
    assert Linked(run, 2);
    assert !SameEpoch(run.states[2], run.steps[2]);
    var c := run.states[3].connector;
    forall g: nat ensures Resolve(c, Some(g)) != Some(after) {
      NumberedResolves(c, g);
    }
    NumberedResolves(run.states[2].connector, 1);
    NumberedResolves(c, 1);
  }

  /** An in-place update stores the secret the provider gave for the client that was read. It is the
      secret of the current client exactly if that is still the same client. */
  lemma UpdateFitsExactly(c: Connector, read: Connector, secret: Id, scopes: set<string>)
    ensures Resolve(PutUpdate(c, secret, scopes), None).Some?
    ensures Numbered(c) ==> (Resolve(PutUpdate(c, secret, scopes), None) == Some(OAuthClient(read.client.id, secret))
                             <==> c.client.id == read.client.id)
  {
    if Numbered(c) {
      var u := PutUpdate(c, secret, scopes);
      assert Numbered(u);
      NumberedResolves(u, u.generation);
    }
  }

  /** An update reads generation 1, a rotation replaces the client, and the update is stored. */
  function MixedRun(before: OAuthClient, replacement: OAuthClient, secret: Id, scopes: set<string>): Run {
    var read := Fresh(before, scopes);
    var rotated := Rotated(read, replacement, scopes);
    var held := map[1 := before.id, 2 := replacement.id];
    Run([State(read, 0, map[1 := before.id], map[]),
         State(read, 0, map[1 := before.id], map[0 := (read, 0)]),
         State(rotated, 0, held, map[]),
         State(PutUpdate(rotated, secret, scopes), 0, held, map[])],
        [BeginRotation(0), EndRotation(0, replacement, scopes), Update(secret, scopes)])
  }

  /** The new client is left with a secret that the provider issued to the old one, and no generation
      has the old client with its new secret. */
  lemma UpdateMixesClients(before: OAuthClient, replacement: OAuthClient, secret: Id, scopes: set<string>)
    requires before.id != replacement.id && before.secret != secret
    ensures var run := MixedRun(before, replacement, secret, scopes);
            && IsRun(run) && NoRotationAcrossReset(run)
            && Resolve(run.states[3].connector, None) == Some(OAuthClient(replacement.id, secret))
            && forall g :: Resolve(run.states[3].connector, Some(g)) != Some(OAuthClient(before.id, secret))
  {
    var run := MixedRun(before, replacement, secret, scopes);
    assert Linked(run, 0);
    assert run.states[1].reading - {0} == map[];
    assert Linked(run, 1);
    assert Linked(run, 2);
    var c := run.states[3].connector;
    forall g: nat ensures Resolve(c, Some(g)) != Some(OAuthClient(before.id, secret)) {
      NumberedResolves(c, g);
    }
    NumberedResolves(c, 2);
  }
}
