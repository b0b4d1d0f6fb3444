/** Runs in which refreshes and updates of one Resource Server overlap. A refresh reads the record and
    writes the registry later; an update reads the record, then writes the members it was given, and
    then the registry. No write looks at what has been stored in the meantime. */
module RegistryRuns {
  import opened Options
  import opened Texts
  import opened AuthorizationDetails
  import opened ScopeTexts
  import opened ScopeRegistries
  import opened ResourceUpdates

  datatype Work =
    | Refreshing(read: Record)
    | Patching(read: Record, input: Input, answer: Answer)
    | Storing(read: Record, input: Input, answer: Answer)

  /** A list of scopes that was read from a URL. */
  datatype Reading = Reading(url: Text, scopes: seq<Text>)

  /** Grant modes that were edited in a registry read from a URL. */
  datatype Editing = Editing(url: Text, updates: seq<ScopeEntry>)

  /** `readings` and `editings` record what has happened. */
  datatype State = State(record: Record, work: map<nat, Work>, readings: seq<Reading>, editings: seq<Editing>)

  datatype Step =
    | BeginRefresh(w: nat)
    | EndRefresh(w: nat, answer: Answer)
    | BeginUpdate(w: nat, input: Input, answer: Answer)
    | EndPatch(w: nat)
    | EndStore(w: nat)

  ghost predicate Starts(s: State) {
    s.record.registry == None && s.work == map[] && s.readings == [] && s.editings == []
  }

  function BaseUrl(read: Record, input: Input, a: Answer): Text {
    if Base(read, input, a).Some? then Base(read, input, a).value.source else read.url
  }

  ghost predicate Next(s: State, step: Step, t: State) {
    match step
    case BeginRefresh(w) =>
      w !in s.work && s.record.enabled && t == s.(work := s.work[w := Refreshing(s.record)])
    case EndRefresh(w, a) =>
      && w in s.work && s.work[w].Refreshing?
      && var read := s.work[w].read;
      t == s.(record := s.record.(registry := RefreshWrites(s.record.registry, read, a)),
              work := s.work - {w},
              readings := s.readings + if Refreshed(read, a).Some? then [Reading(read.url, Advertised(a).value)] else [])
    case BeginUpdate(w, input, a) =>
      && w !in s.work
      && if Plan(s.record, input, a).Refused? then t == s
         else t == s.(work := s.work[w := Patching(s.record, input, a)],
                      readings := s.readings + (if Synchronizes(s.record, input)
                                                then [Reading(NewUrl(s.record, input), Advertised(a).value)] else []),
                      editings := s.editings + (if input.modes.Some?
                                                then [Editing(BaseUrl(s.record, input, a), input.modes.value)] else []))
    case EndPatch(w) =>
      && w in s.work && s.work[w].Patching?
      && var k := s.work[w];
      t == s.(record := Patched(s.record, k.input),
              work := if Plan(k.read, k.input, k.answer).Store? then s.work[w := Storing(k.read, k.input, k.answer)] else s.work - {w})
    case EndStore(w) =>
      && w in s.work && s.work[w].Storing? && Plan(s.work[w].read, s.work[w].input, s.work[w].answer).Store?
      && var k := s.work[w];
      t == s.(record := s.record.(registry := Some(Plan(k.read, k.input, k.answer).registry)), work := s.work - {w})
  }

  datatype Run = Run(states: seq<State>, steps: seq<Step>)

  ghost predicate Linked(run: Run, k: nat)
    requires k < |run.steps| && |run.states| == |run.steps| + 1
  {
    Next(run.states[k], run.steps[k], run.states[k + 1])
  }

  ghost predicate IsRun(run: Run) {
    && |run.states| == |run.steps| + 1 && Starts(run.states[0])
    && forall k | 0 <= k < |run.steps| :: Linked(run, k)
  }

  // ---- Registries, stored or on their way ----

  /** What holds of the stored registry, of every one that was read, and of every one to be stored. */
  ghost predicate Everywhere(s: State, good: Discovered -> bool) {
    && (s.record.registry.Some? ==> good(s.record.registry.value))
    && forall w | w in s.work :: AtWork(s.work[w], good)
  }

  ghost predicate AtWork(k: Work, good: Discovered -> bool) {
    && (k.read.registry.Some? ==> good(k.read.registry.value))
    && (!k.Refreshing? && Plan(k.read, k.input, k.answer).Store? ==> good(Plan(k.read, k.input, k.answer).registry))
  }

  lemma EverywhereWeaker(s: State, good: Discovered -> bool, better: Discovered -> bool)
    requires Everywhere(s, better) && forall d :: better(d) ==> good(d)
    ensures Everywhere(s, good)
  {
    forall w | w in s.work ensures AtWork(s.work[w], good) {
      assert AtWork(s.work[w], better);
    }
  }

  /** A step stores and plans nothing new but what a refresh or an update makes of the record. */
  lemma StepKeepsGood(s: State, step: Step, t: State, good: Discovered -> bool)
    requires Next(s, step, t) && Everywhere(s, good)
    requires step.EndRefresh? && Refreshed(s.work[step.w].read, step.answer).Some? ==> good(Refreshed(s.work[step.w].read, step.answer).value)
    requires step.BeginUpdate? && Plan(s.record, step.input, step.answer).Store? ==> good(Plan(s.record, step.input, step.answer).registry)
    ensures Everywhere(t, good)
  {
    if step.w in s.work { assert AtWork(s.work[step.w], good); }
    forall w | w in t.work ensures AtWork(t.work[w], good) {
      if w in s.work { assert AtWork(s.work[w], good); }
    }
  }

  // ---- Every registry was read ----

  /** The registry lists what was read from its URL, in order and each scope once. */
  ghost predicate WasRead(readings: seq<Reading>, d: Discovered) {
    && Distinct(ValuesOf(d.entries)) && Ordered(ValuesOf(d.entries), UnitLe)
    && exists i :: 0 <= i < |readings| && readings[i] == Reading(d.source, ValuesOf(d.entries))
  }

  lemma AdvertisedInOrder(a: Answer)
    ensures Advertised(a).Some? ==> Distinct(Advertised(a).value) && Ordered(Advertised(a).value, UnitLe)
  {
    if Advertised(a).Some? {
      UniqueDistinct(a.scopes.value);
      SortTextsDistinct(Unique(a.scopes.value));
      SortTextsSorts(Unique(a.scopes.value));
    }
  }

  lemma NewRegistryRead(s: State, step: Step, t: State)
    requires Next(s, step, t) && Everywhere(s, d => WasRead(s.readings, d))
    ensures step.EndRefresh? && Refreshed(s.work[step.w].read, step.answer).Some? ==>
              WasRead(t.readings, Refreshed(s.work[step.w].read, step.answer).value)
    ensures step.BeginUpdate? && Plan(s.record, step.input, step.answer).Store? ==>
              WasRead(t.readings, Plan(s.record, step.input, step.answer).registry)
  {
    var n := |s.readings|;
    if step.EndRefresh? || step.BeginUpdate? { AdvertisedInOrder(step.answer); }
    if step.EndRefresh? && Refreshed(s.work[step.w].read, step.answer).Some? {
      var d := Refreshed(s.work[step.w].read, step.answer).value;
      assert ValuesOf(d.entries) == Advertised(step.answer).value;
      assert t.readings[n] == Reading(d.source, ValuesOf(d.entries));
    }
    if step.BeginUpdate? && Plan(s.record, step.input, step.answer).Store? {
      var d, base := Plan(s.record, step.input, step.answer).registry, Base(s.record, step.input, step.answer).value;
      assert ValuesOf(d.entries) == ValuesOf(base.entries);
      if Synchronizes(s.record, step.input) {
        assert ValuesOf(base.entries) == Advertised(step.answer).value;
        assert t.readings[n] == Reading(d.source, ValuesOf(d.entries));
      } else {
        ReadBefore(s.readings, t.readings, base);
      }
    }
  }

  lemma ReadBefore(a: seq<Reading>, b: seq<Reading>, d: Discovered)
    requires WasRead(a, d) && a <= b
    ensures WasRead(b, d)
  {
    var i :| 0 <= i < |a| && a[i] == Reading(d.source, ValuesOf(d.entries));
    assert b[i] == a[i];
  }

  /** Whatever overlaps, the registry lists the scopes of a single reading, of the URL it names. */
  lemma {:induction false} RegistryWasRead(run: Run, k: nat)
    requires IsRun(run) && k < |run.states|
    ensures Everywhere(run.states[k], d => WasRead(run.states[k].readings, d))
  {
    if k > 0 {
      RegistryWasRead(run, k - 1);
      assert Linked(run, k - 1);
      var s, step, t := run.states[k - 1], run.steps[k - 1], run.states[k];
      NewRegistryRead(s, step, t);
      forall d | WasRead(s.readings, d) ensures WasRead(t.readings, d) { ReadBefore(s.readings, t.readings, d); }
      EverywhereWeaker(s, d => WasRead(t.readings, d), d => WasRead(s.readings, d));
      StepKeepsGood(s, step, t, d => WasRead(t.readings, d));
    }
  }

  // ---- Whose modes they are ----

  predicate MadeAutomatic(editings: seq<Editing>, url: Text, scope: Text) {
    exists i :: 0 <= i < |editings| && editings[i].url == url && ModeIn(editings[i].updates, scope) == Some(Automatic)
  }

  /** Each automatic scope was made automatic in a registry of the same URL. */
  predicate OwnModes(editings: seq<Editing>, d: Discovered) {
    forall i | 0 <= i < |d.entries| && d.entries[i].mode.Automatic? :: MadeAutomatic(editings, d.source, d.entries[i].value)
  }

  /** Synchronizing with `url` over the previous registry, and then editing it, grants a scope
      automatically that was made so for another URL only. */
  predicate LeaksFrom(editings: seq<Editing>, previous: Option<Discovered>, url: Text, scopes: seq<Text>, modes: Option<seq<ScopeEntry>>) {
    previous.Some? && exists i :: 0 <= i < |scopes| && Leaked(editings, previous.value, url, scopes[i], modes)
  }

  predicate Leaked(editings: seq<Editing>, previous: Discovered, url: Text, scope: Text, modes: Option<seq<ScopeEntry>>) {
    && ModeIn(previous.entries, scope) == Some(Automatic) && !MadeAutomatic(editings, url, scope)
    && (modes.None? || ModeIn(modes.value, scope).None?)
  }

  predicate Leaks(s: State, step: Step) {
    match step
    case EndRefresh(w, a) =>
      && w in s.work && Refreshed(s.work[w].read, a).Some?
      && LeaksFrom(s.editings, s.work[w].read.registry, s.work[w].read.url, Advertised(a).value, None)
    case BeginUpdate(_, input, a) =>
      && !Plan(s.record, input, a).Refused? && Synchronizes(s.record, input) && NewUrl(s.record, input) == s.record.url
      && LeaksFrom(s.editings, s.record.registry, s.record.url, Advertised(a).value, input.modes)
    case _ => false
  }

  lemma {:induction false} ModeInEntry(entries: seq<ScopeEntry>, value: Text)
    requires ModeIn(entries, value).Some?
    ensures exists i :: 0 <= i < |entries| && entries[i] == ScopeEntry(value, ModeIn(entries, value).value)
    decreases |entries|
  {
    var last := |entries| - 1;
    if entries[last].value != value {
      ModeInEntry(entries[..last], value);
      var i :| 0 <= i < last && entries[..last][i] == ScopeEntry(value, ModeIn(entries, value).value);
      assert entries[i] == entries[..last][i];
    }
  }

  lemma SynchronizedOwns(editings: seq<Editing>, previous: Option<Discovered>, url: Text, scopes: seq<Text>)
    ensures OwnModes(editings, Discovered(url, Synchronized(Declared(previous), scopes)))
            <==> !LeaksFrom(editings, previous, url, scopes, None)
  {
    var d := Discovered(url, Synchronized(Declared(previous), scopes));
    forall i | 0 <= i < |scopes|
      ensures d.entries[i].value == scopes[i]
              && (d.entries[i].mode.Automatic? <==> previous.Some? && ModeIn(previous.value.entries, scopes[i]) == Some(Automatic))
    {
    }
  }

  lemma MadeBefore(a: seq<Editing>, b: seq<Editing>, url: Text, scope: Text)
    requires MadeAutomatic(a, url, scope) && a <= b
    ensures MadeAutomatic(b, url, scope)
  {
    var i :| 0 <= i < |a| && a[i].url == url && ModeIn(a[i].updates, scope) == Some(Automatic);
    assert b[i] == a[i];
  }

  lemma MadeNow(editings: seq<Editing>, e: Editing, url: Text, scope: Text)
    ensures MadeAutomatic(editings + [e], url, scope)
            <==> MadeAutomatic(editings, url, scope) || (e.url == url && ModeIn(e.updates, scope) == Some(Automatic))
  {
    var more := editings + [e];
    assert more[|editings|] == e;
    if MadeAutomatic(editings, url, scope) { MadeBefore(editings, more, url, scope); }
    if MadeAutomatic(more, url, scope) {
      var i :| 0 <= i < |more| && more[i].url == url && ModeIn(more[i].updates, scope) == Some(Automatic);
      assert i < |editings| ==> editings[i] == more[i];
    }
  }

  /** An edit accounts for what it makes automatic; the rest must have been accounted for. */
  lemma EditedOwns(editings: seq<Editing>, base: Discovered, updates: seq<ScopeEntry>)
    ensures OwnModes(editings + [Editing(base.source, updates)], base.(entries := Edited(base.entries, updates)))
            <==> forall i | 0 <= i < |base.entries| && base.entries[i].mode.Automatic? && ModeIn(updates, base.entries[i].value).None? ::
                   MadeAutomatic(editings, base.source, base.entries[i].value)
  {
    var d, e := base.(entries := Edited(base.entries, updates)), Editing(base.source, updates);
    forall i | 0 <= i < |base.entries|
      ensures (d.entries[i].mode.Automatic? ==> MadeAutomatic(editings + [e], d.source, d.entries[i].value))
              <==> (base.entries[i].mode.Automatic? && ModeIn(updates, base.entries[i].value).None?
                    ==> MadeAutomatic(editings, base.source, base.entries[i].value))
    {
      MadeNow(editings, e, base.source, base.entries[i].value);
    }
    if OwnModes(editings + [e], d) {
      forall i | 0 <= i < |base.entries| && base.entries[i].mode.Automatic? && ModeIn(updates, base.entries[i].value).None?
        ensures MadeAutomatic(editings, base.source, base.entries[i].value)
      {
        assert d.entries[i].mode.Automatic?;
      }
    }
  }

  lemma SynchronizedThenEdited(editings: seq<Editing>, previous: Option<Discovered>, url: Text, scopes: seq<Text>, updates: seq<ScopeEntry>)
    ensures var base := Discovered(url, Synchronized(Declared(previous), scopes));
            OwnModes(editings + [Editing(url, updates)], base.(entries := Edited(base.entries, updates)))
            <==> !LeaksFrom(editings, previous, url, scopes, Some(updates))
  {
    var base := Discovered(url, Synchronized(Declared(previous), scopes));
    EditedOwns(editings, base, updates);
    forall i | 0 <= i < |scopes|
      ensures base.entries[i].value == scopes[i]
              && (base.entries[i].mode.Automatic? <==> previous.Some? && ModeIn(previous.value.entries, scopes[i]) == Some(Automatic))
    {
    }
  }

  lemma PlanOwnsExactly(editings: seq<Editing>, read: Record, input: Input, a: Answer)
    requires read.registry.Some? ==> OwnModes(editings, read.registry.value)
    requires Plan(read, input, a).Store?
    ensures var more := editings + if input.modes.Some? then [Editing(BaseUrl(read, input, a), input.modes.value)] else [];
            OwnModes(more, Plan(read, input, a).registry)
            <==> !(Synchronizes(read, input) && NewUrl(read, input) == read.url
                   && LeaksFrom(editings, read.registry, read.url, Advertised(a).value, input.modes))
  {
    if Synchronizes(read, input) {
      var url := NewUrl(read, input);
      var previous := if url != read.url then None else read.registry;
      if input.modes.Some? {
        SynchronizedThenEdited(editings, previous, url, Advertised(a).value, input.modes.value);
      } else {
        assert editings + [] == editings;
        SynchronizedOwns(editings, previous, url, Advertised(a).value);
      }
    } else {
      EditedOwns(editings, read.registry.value, input.modes.value);
    }
  }

  ghost predicate AllOwn(s: State) {
    Everywhere(s, d => OwnModes(s.editings, d))
  }

  lemma OwnLonger(a: seq<Editing>, b: seq<Editing>, d: Discovered)
    requires OwnModes(a, d) && a <= b
    ensures OwnModes(b, d)
  {
    forall i | 0 <= i < |d.entries| && d.entries[i].mode.Automatic? ensures MadeAutomatic(b, d.source, d.entries[i].value) {
      MadeBefore(a, b, d.source, d.entries[i].value);
    }
  }

  lemma StepOwnsExactly(s: State, step: Step, t: State)
    requires Next(s, step, t) && AllOwn(s)
    ensures AllOwn(t) <==> !Leaks(s, step)
  {
    var good := d => OwnModes(t.editings, d);
    forall d | OwnModes(s.editings, d) ensures OwnModes(t.editings, d) { OwnLonger(s.editings, t.editings, d); }
    EverywhereWeaker(s, good, d => OwnModes(s.editings, d));
    if step.EndRefresh? {
      var read := s.work[step.w].read;
      if Refreshed(read, step.answer).Some? {
        assert t.editings == s.editings;
        SynchronizedOwns(s.editings, read.registry, read.url, Advertised(step.answer).value);
      }
    }
    if step.BeginUpdate? && Plan(s.record, step.input, step.answer).Store? {
      PlanOwnsExactly(s.editings, s.record, step.input, step.answer);
      assert t.work[step.w] == Patching(s.record, step.input, step.answer);
      assert AllOwn(t) ==> AtWork(t.work[step.w], good);
    }
    if !Leaks(s, step) { StepKeepsGood(s, step, t, good); }
  }

  ghost predicate OwnAt(run: Run, j: nat) { j < |run.states| && AllOwn(run.states[j]) }

  predicate NoLeakAt(run: Run, j: nat) { j < |run.states| && j < |run.steps| && !Leaks(run.states[j], run.steps[j]) }

  /** What holds at first, and after each step exactly if the step is good, holds throughout exactly if
      all steps are good. */
  lemma {:induction false} HoldsThroughout(holds: nat -> bool, good: nat -> bool, k: nat)
    requires holds(0) && forall j | 0 <= j < k && holds(j) :: holds(j + 1) <==> good(j)
    ensures (forall j | 0 <= j <= k :: holds(j)) <==> forall j | 0 <= j < k :: good(j)
  {
    if k > 0 {
      HoldsThroughout(holds, good, k - 1);
      assert holds(k - 1) ==> (holds(k - 1 + 1) <==> good(k - 1));
      assert (forall j | 0 <= j <= k :: holds(j)) <==> (forall j | 0 <= j <= k - 1 :: holds(j)) && holds(k);
      assert (forall j | 0 <= j < k :: good(j)) <==> (forall j | 0 <= j < k - 1 :: good(j)) && good(k - 1);
    }
  }

  /** In every run, up to any moment: each scope that is granted automatically was made automatic for
      the URL that its registry was read from, exactly if no synchronization carried an automatic mode
      over from another URL. */
  lemma ModesAreOwnExactly(run: Run, k: nat)
    requires IsRun(run) && k < |run.states|
    ensures (forall j | 0 <= j <= k :: OwnAt(run, j)) <==> forall j | 0 <= j < k :: NoLeakAt(run, j)
  {
    var holds, good := (j: nat) => OwnAt(run, j), (j: nat) => NoLeakAt(run, j);
    forall j | 0 <= j < k && holds(j) ensures holds(j + 1) <==> good(j) {
      OwnFrom(run, j);
    }
    StartsOwn(run);
    HoldsThroughout(holds, good, k);
    assert forall j | 0 <= j <= k :: holds(j) <==> OwnAt(run, j);
    assert forall j | 0 <= j < k :: good(j) <==> NoLeakAt(run, j);
  }

  lemma StartsOwn(run: Run)
    requires IsRun(run)
    ensures OwnAt(run, 0)
  {
  }

  lemma OwnFrom(run: Run, k: nat)
    requires IsRun(run) && k < |run.steps| && OwnAt(run, k)
    ensures OwnAt(run, k + 1) <==> NoLeakAt(run, k)
  {
    assert Linked(run, k);
    StepOwnsExactly(run.states[k], run.steps[k], run.states[k + 1]);
  }

  // ---- Writes over a registry that has changed ----

  /** The step writes a registry, and finds the one it read still stored. */
  predicate Timely(s: State, step: Step) {
    (step.EndRefresh? || step.EndStore?) && step.w in s.work ==> s.record.registry == s.work[step.w].read.registry
  }

  /** What the step does to the registry that it read, as events. */
  function StepEvents(s: State, step: Step): seq<Event> {
    if step.w !in s.work then []
    else if step.EndRefresh? then [RefreshEvent(step.answer)]
    else if step.EndStore? && !s.work[step.w].Refreshing? then
      var k := s.work[step.w]; UpdateEvents(k.read, k.input, k.answer)
    else []
  }

  function RunEvents(run: Run, k: nat): seq<Event>
    requires |run.states| == |run.steps| + 1 && k <= |run.steps|
  {
    if k == 0 then [] else RunEvents(run, k - 1) + StepEvents(run.states[k - 1], run.steps[k - 1])
  }

  lemma {:induction false} AfterAll(history: seq<Event>, events: seq<Event>)
    ensures After(history + events) == ApplyAll(After(history), events)
    decreases |events|
  {
    if events == [] {
      assert history + events == history;
    } else {
      var n := |events| - 1;
      AfterAll(history, events[..n]);
      assert (history + events)[..|history + events| - 1] == history + events[..n];
    }
  }

  lemma TimelyStepApplies(s: State, step: Step, t: State)
    requires Next(s, step, t) && Timely(s, step)
    ensures Declared(t.record.registry) == ApplyAll(Declared(s.record.registry), StepEvents(s, step))
  {
    if step.EndRefresh? {
      RefreshIsEvent(s.work[step.w].read, step.answer);
      assert StepEvents(s, step)[..0] == [];
    } else if step.EndStore? {
      var k := s.work[step.w];
      UpdateIsEvents(k.read, k.input, k.answer);
    }
  }

  lemma TimelyStepContinues(s: State, step: Step, t: State, history: seq<Event>)
    requires Next(s, step, t) && Timely(s, step) && Declared(s.record.registry) == After(history)
    ensures Declared(t.record.registry) == After(history + StepEvents(s, step))
  {
    TimelyStepApplies(s, step, t);
    AfterAll(history, StepEvents(s, step));
  }

  /** Where every write finds the registry it read, the registry is what its events make of it one
      after the other, whatever else overlaps. */
  lemma {:induction false} TimelyRunsAreHistories(run: Run, k: nat)
    requires IsRun(run) && k < |run.states| && forall j | 0 <= j < k :: Timely(run.states[j], run.steps[j])
    ensures Declared(run.states[k].record.registry) == After(RunEvents(run, k))
  {
    if k > 0 {
      TimelyRunsAreHistories(run, k - 1);
      assert Linked(run, k - 1);
      TimelyStepContinues(run.states[k - 1], run.steps[k - 1], run.states[k], RunEvents(run, k - 1));
    }
  }

  /** The two registries disagree on the mode of an advertised scope that is not edited. */
  predicate Disagree(read: seq<ScopeEntry>, stored: seq<ScopeEntry>, scopes: seq<Text>, modes: Option<seq<ScopeEntry>>) {
    exists i :: 0 <= i < |scopes| && (modes.None? || ModeIn(modes.value, scopes[i]).None?) && ModeOr(read, scopes[i]) != ModeOr(stored, scopes[i])
  }

  /** An edit alone puts back all scopes and all other modes. */
  predicate EditUndoes(read: seq<ScopeEntry>, stored: seq<ScopeEntry>, updates: seq<ScopeEntry>) {
    || ValuesOf(read) != ValuesOf(stored)
    || exists i :: 0 <= i < |read| && ModeIn(updates, read[i].value).None? && read[i].mode != stored[i].mode
  }

  /** A refresh that fails puts back the registry it read, if it read one; one that succeeds puts back
      the modes it read, all assigned if it read no registry. */
  predicate RefreshUndoes(read: Record, stored: Registry, a: Answer) {
    if Refreshed(read, a).None? then read.registry.Some? && Declared(read.registry) != stored
    else Disagree(EntriesOf(Declared(read.registry)), EntriesOf(stored), Advertised(a).value, None)
  }

  predicate UpdateUndoes(read: Record, stored: Registry, input: Input, a: Answer)
    requires Plan(read, input, a).Store?
  {
    if !Synchronizes(read, input) then stored.None? || EditUndoes(read.registry.value.entries, stored.value, input.modes.value)
    else
      && NewUrl(read, input) == read.url
      && Disagree(EntriesOf(Declared(read.registry)), EntriesOf(stored), Advertised(a).value, input.modes)
  }

  lemma NothingIsEmpty(r: Registry, scopes: seq<Text>)
    ensures Synchronized(r, scopes) == Synchronized(Some(EntriesOf(r)), scopes)
  {
  }

  lemma StaleSync(read: Registry, stored: Registry, scopes: seq<Text>)
    ensures Synchronized(read, scopes) != Synchronized(stored, scopes) <==> Disagree(EntriesOf(read), EntriesOf(stored), scopes, None)
  {
    NothingIsEmpty(read, scopes);
    NothingIsEmpty(stored, scopes);
    StaleSyncExactly(EntriesOf(read), EntriesOf(stored), scopes);
  }

  /** Whatever a refresh has read and whatever is stored by the time it ends: it does not do to the
      stored registry what it would have done at once exactly if it undoes something. */
  lemma StaleRefreshExactly(s: State, w: nat, a: Answer, t: State)
    requires Next(s, EndRefresh(w, a), t)
    ensures Declared(t.record.registry) != Apply(Declared(s.record.registry), RefreshEvent(a))
            <==> RefreshUndoes(s.work[w].read, Declared(s.record.registry), a)
  {
    if Refreshed(s.work[w].read, a).Some? {
      StaleSync(Declared(s.work[w].read.registry), Declared(s.record.registry), Advertised(a).value);
    }
  }

  /** So does an update. */
  lemma StaleUpdateExactly(s: State, w: nat, t: State)
    requires Next(s, EndStore(w), t)
    ensures var k := s.work[w];
            Declared(t.record.registry) != ApplyAll(Declared(s.record.registry), UpdateEvents(k.read, k.input, k.answer))
            <==> UpdateUndoes(k.read, Declared(s.record.registry), k.input, k.answer)
  {
    var k, stored := s.work[w], Declared(s.record.registry);
    if !Synchronizes(k.read, k.input) {
      StaleEditStored(k.read, stored, k.input, k.answer);
    } else if k.input.modes.None? {
      StaleSyncStored(k.read, stored, k.input, k.answer);
    } else {
      StaleBothStored(k.read, stored, k.input, k.answer);
    }
  }

  /** A refresh that read no registry makes every scope assigned again: it undoes something exactly if
      it succeeds and an advertised scope has become automatic. */
  lemma FirstRefreshResets(read: Record, stored: Registry, a: Answer)
    requires read.registry.None?
    ensures RefreshUndoes(read, stored, a)
            <==> Refreshed(read, a).Some?
                 && exists i :: 0 <= i < |Advertised(a).value| && ModeIn(EntriesOf(stored), Advertised(a).value[i]) == Some(Automatic)
  {
    if Refreshed(read, a).Some? {
      var scopes := Advertised(a).value;
      forall i | 0 <= i < |scopes|
        ensures ModeOr([], scopes[i]) != ModeOr(EntriesOf(stored), scopes[i]) <==> ModeIn(EntriesOf(stored), scopes[i]) == Some(Automatic)
      {
      }
    }
  }

  lemma StaleEditStored(read: Record, stored: Registry, input: Input, a: Answer)
    requires Plan(read, input, a).Store? && !Synchronizes(read, input)
    ensures Some(Plan(read, input, a).registry.entries) != ApplyAll(stored, UpdateEvents(read, input, a))
            <==> UpdateUndoes(read, stored, input, a)
  {
    OneEvent(stored, Edit(input.modes.value));
    assert UpdateEvents(read, input, a) == [Edit(input.modes.value)];
    if stored.Some? { StaleEdit(read.registry.value.entries, stored.value, input.modes.value); }
  }

  lemma StaleSyncStored(read: Record, stored: Registry, input: Input, a: Answer)
    requires Plan(read, input, a).Store? && Synchronizes(read, input) && input.modes.None?
    ensures Some(Plan(read, input, a).registry.entries) != ApplyAll(stored, UpdateEvents(read, input, a))
            <==> UpdateUndoes(read, stored, input, a)
  {
    var sync := Sync(a.scopes, NewUrl(read, input) != read.url);
    OneEvent(stored, sync);
    assert UpdateEvents(read, input, a) == [sync];
    StaleSync(Declared(read.registry), stored, Advertised(a).value);
  }

  lemma StaleBothStored(read: Record, stored: Registry, input: Input, a: Answer)
    requires Plan(read, input, a).Store? && Synchronizes(read, input) && input.modes.Some?
    ensures Some(Plan(read, input, a).registry.entries) != ApplyAll(stored, UpdateEvents(read, input, a))
            <==> UpdateUndoes(read, stored, input, a)
  {
    var sync := Sync(a.scopes, NewUrl(read, input) != read.url);
    TwoEvents(stored, sync, Edit(input.modes.value));
    assert UpdateEvents(read, input, a) == [sync, Edit(input.modes.value)];
    if NewUrl(read, input) == read.url {
      NothingIsEmpty(Declared(read.registry), Advertised(a).value);
      NothingIsEmpty(stored, Advertised(a).value);
      StaleSyncAndEdit(EntriesOf(Declared(read.registry)), EntriesOf(stored), Advertised(a).value, input.modes.value);
    }
  }

  lemma StaleEdit(read: seq<ScopeEntry>, stored: seq<ScopeEntry>, updates: seq<ScopeEntry>)
    requires EditAllowed(Some(read), updates)
    ensures Some(Edited(read, updates)) == Apply(Some(stored), Edit(updates)) <==> !EditUndoes(read, stored, updates)
  {
    StaleEditExactly(read, stored, updates);
    if ValuesOf(read) == ValuesOf(stored) {
      DeclaresAlike(read, stored, updates);
    } else {
      assert ValuesOf(Edited(read, updates)) == ValuesOf(read);
    }
  }

  lemma DeclaresAlike(a: seq<ScopeEntry>, b: seq<ScopeEntry>, updates: seq<ScopeEntry>)
    requires ValuesOf(a) == ValuesOf(b) && EditAllowed(Some(a), updates)
    ensures EditAllowed(Some(b), updates)
  {
    forall i | 0 <= i < |updates| ensures Declares(Some(b), updates[i].value) {
      var j :| 0 <= j < |a| && a[j].value == updates[i].value;
      assert ValuesOf(a)[j] == ValuesOf(b)[j];
    }
  }

  lemma StaleSyncAndEdit(read: seq<ScopeEntry>, stored: seq<ScopeEntry>, scopes: seq<Text>, updates: seq<ScopeEntry>)
    requires EditAllowed(Some(Synchronized(Some(read), scopes)), updates)
    ensures var a, b := Synchronized(Some(read), scopes), Synchronized(Some(stored), scopes);
            && EditAllowed(Some(b), updates)
            && (Edited(a, updates) == Edited(b, updates) <==> !Disagree(read, stored, scopes, Some(updates)))
  {
    var a, b := Synchronized(Some(read), scopes), Synchronized(Some(stored), scopes);
    assert ValuesOf(a) == scopes == ValuesOf(b);
    DeclaresAlike(a, b, updates);
    StaleEditExactly(a, b, updates);
    assert forall i | 0 <= i < |scopes| :: a[i].value == scopes[i] && (a[i].mode == b[i].mode <==> ModeOr(read, scopes[i]) == ModeOr(stored, scopes[i]));
  }

  // ---- An edit that a failed refresh takes back ----

  function OneScope(url: Text, scope: Text, mode: GrantMode): Record {
    Record(url, true, Some(Discovered(url, [ScopeEntry(scope, mode)])))
  }

  function MakeAutomatic(scope: Text): Input { Input(None, None, false, false, Some([ScopeEntry(scope, Automatic)])) }

  const SILENCE := Answer(None, false)

  /** A scope is read; a second refresh begins; the scope is made automatic; the refresh fails. */
  function UndoneRun(url: Text, scope: Text): Run {
    var empty, before, edited := Record(url, true, None), OneScope(url, scope, Assigned), OneScope(url, scope, Automatic);
    var answer, input := Answer(Some([scope]), true), MakeAutomatic(scope);
    var readings, editings := [Reading(url, [scope])], [Editing(url, [ScopeEntry(scope, Automatic)])];
    var waiting := map[0 := Refreshing(before)];
    Run([State(empty, map[], [], []),
         State(empty, map[0 := Refreshing(empty)], [], []),
         State(before, map[], readings, []),
         State(before, waiting, readings, []),
         State(before, waiting[1 := Patching(before, input, SILENCE)], readings, editings),
         State(before, waiting[1 := Storing(before, input, SILENCE)], readings, editings),
         State(edited, waiting, readings, editings),
         State(before, map[], readings, editings)],
        [BeginRefresh(0), EndRefresh(0, answer), BeginRefresh(0), BeginUpdate(1, input, SILENCE), EndPatch(1), EndStore(1),
         EndRefresh(0, SILENCE)])
  }

  lemma OneScopeRead(url: Text, scope: Text)
    requires ScopeToken(scope)
    ensures Refreshed(Record(url, true, None), Answer(Some([scope]), true)) == Some(Discovered(url, [ScopeEntry(scope, Assigned)]))
    ensures Advertised(Answer(Some([scope]), true)) == Some([scope])
  {
    SortTextsAlone(scope);
    assert [scope][1..] == [] && Unique([scope]) == [scope];
    assert Synchronized(None, [scope]) == [ScopeEntry(scope, Assigned)];
  }

  lemma OneScopeEdited(url: Text, scope: Text)
    ensures var r := OneScope(url, scope, Assigned);
            && Plan(r, MakeAutomatic(scope), SILENCE) == Store(OneScope(url, scope, Automatic).registry.value)
            && BaseUrl(r, MakeAutomatic(scope), SILENCE) == url
  {
    var r, updates := OneScope(url, scope, Assigned), [ScopeEntry(scope, Automatic)];
    assert Declared(r.registry).value[0].value == updates[0].value;
    assert Edited(r.registry.value.entries, updates) == [ScopeEntry(scope, Automatic)];
  }

  lemma UndoneBegins(url: Text, scope: Text, k: nat)
    requires ScopeToken(scope) && k < 3
    ensures Next(UndoneRun(url, scope).states[k], UndoneRun(url, scope).steps[k], UndoneRun(url, scope).states[k + 1])
  {
    var run := UndoneRun(url, scope);
    OneScopeRead(url, scope);
    assert run.states[1].work - {0} == map[];
  }

  lemma UndoneEnds(url: Text, scope: Text, k: nat)
    requires 3 <= k < 7
    ensures Next(UndoneRun(url, scope).states[k], UndoneRun(url, scope).steps[k], UndoneRun(url, scope).states[k + 1])
  {
    var run := UndoneRun(url, scope);
    OneScopeEdited(url, scope);
    assert run.states[5].work - {1} == run.states[6].work && run.states[6].work - {0} == map[];
  }

  /** The edit was accepted and stored, and is gone. */
  lemma FailedRefreshTakesEditBack(url: Text, scope: Text)
    requires ScopeToken(scope)
    ensures var run := UndoneRun(url, scope);
            && IsRun(run) && run.states[6].record == OneScope(url, scope, Automatic)
            && run.states[7].record == OneScope(url, scope, Assigned)
            && Refreshed(run.states[6].work[0].read, SILENCE).None?
  {
    var run := UndoneRun(url, scope);
    forall k | 0 <= k < |run.steps| ensures Linked(run, k) {
      if k < 3 { UndoneBegins(url, scope, k); } else { UndoneEnds(url, scope, k); }
    }
  }

  // ---- An edit that a first refresh takes back ----

  /** Two refreshes begin before there is a registry; one ends; the scope is made automatic; the other ends. */
  function ResetRun(url: Text, scope: Text): Run {
    var empty, before, edited := Record(url, true, None), OneScope(url, scope, Assigned), OneScope(url, scope, Automatic);
    var answer, input := Answer(Some([scope]), true), MakeAutomatic(scope);
    var readings, editings := [Reading(url, [scope])], [Editing(url, [ScopeEntry(scope, Automatic)])];
    var waiting := map[0 := Refreshing(empty)];
    Run([State(empty, map[], [], []),
         State(empty, waiting, [], []),
         State(empty, waiting[1 := Refreshing(empty)], [], []),
         State(before, waiting, readings, []),
         State(before, waiting[1 := Patching(before, input, SILENCE)], readings, editings),
         State(before, waiting[1 := Storing(before, input, SILENCE)], readings, editings),
         State(edited, waiting, readings, editings),
         State(before, map[], readings + readings, editings)],
        [BeginRefresh(0), BeginRefresh(1), EndRefresh(1, answer), BeginUpdate(1, input, SILENCE), EndPatch(1), EndStore(1),
         EndRefresh(0, answer)])
  }

  lemma ResetBegins(url: Text, scope: Text, k: nat)
    requires ScopeToken(scope) && k < 3
    ensures Next(ResetRun(url, scope).states[k], ResetRun(url, scope).steps[k], ResetRun(url, scope).states[k + 1])
  {
    var run := ResetRun(url, scope);
    OneScopeRead(url, scope);
    assert run.states[2].work - {1} == run.states[3].work;
  }

  lemma ResetEnds(url: Text, scope: Text, k: nat)
    requires ScopeToken(scope) && 3 <= k < 7
    ensures Next(ResetRun(url, scope).states[k], ResetRun(url, scope).steps[k], ResetRun(url, scope).states[k + 1])
  {
    var run := ResetRun(url, scope);
    OneScopeRead(url, scope);
    OneScopeEdited(url, scope);
    assert run.states[5].work - {1} == run.states[6].work && run.states[6].work - {0} == map[];
  }

  /** Both refreshes succeeded, the edit in between was accepted and stored, and is gone. */
  lemma FirstRefreshTakesEditBack(url: Text, scope: Text)
    requires ScopeToken(scope)
    ensures var run := ResetRun(url, scope);
            && IsRun(run) && run.states[6].record == OneScope(url, scope, Automatic)
            && run.states[7].record == OneScope(url, scope, Assigned)
            && run.states[6].work[0].read.registry.None?
  {
    var run := ResetRun(url, scope);
    forall k | 0 <= k < |run.steps| ensures Linked(run, k) {
      if k < 3 { ResetBegins(url, scope, k); } else { ResetEnds(url, scope, k); }
    }
  }
}
