/** Refreshing and updating a Resource Server: refreshResourceScopeRegistry and updateResource in
    server/usecases/authorization.ts. Both read the record, ask the server, and write what they made
    of what they read. */
module ResourceUpdates {
  import opened Options
  import opened Texts
  import opened ScopeRegistries

  /** A registry and the URL it was read from. */
  datatype Discovered = Discovered(source: Text, entries: seq<ScopeEntry>)

  datatype Record = Record(url: Text, enabled: bool, registry: Option<Discovered>)

  function Declared(r: Option<Discovered>): Registry { if r.Some? then Some(r.value.entries) else None }

  /** What the server at a URL answers: its metadata, and whether its contract can be read. */
  datatype Answer = Answer(scopes: Option<seq<Text>>, contract: bool)

  function Advertised(a: Answer): Option<seq<Text>> {
    if a.scopes.Some? then ScopeArray(a.scopes.value) else None
  }

  // ---- Refreshing ----

  /** The registry that a refresh makes of what it read, or None if the server cannot be read. */
  function Refreshed(read: Record, a: Answer): Option<Discovered> {
    if Advertised(a).None? || !a.contract then None
    else Some(Discovered(read.url, Synchronized(Declared(read.registry), Advertised(a).value)))
  }

  /** What is stored in the end. A failed refresh stores the registry that it read. */
  function RefreshWrites(stored: Option<Discovered>, read: Record, a: Answer): Option<Discovered> {
    if Refreshed(read, a).Some? then Refreshed(read, a)
    else if read.registry.Some? then read.registry
    else stored
  }

  function RefreshOnce(r: Record, a: Answer): Record {
    if r.enabled then r.(registry := RefreshWrites(r.registry, r, a)) else r
  }

  // ---- Updating ----

  /** The members of an update that matter here; `connector` and `details` say whether they are given. */
  datatype Input = Input(url: Option<Text>, enabled: Option<bool>, connector: bool, details: bool, modes: Option<seq<ScopeEntry>>)

  function NewUrl(read: Record, input: Input): Text { if input.url.Some? then input.url.value else read.url }

  function NewEnabled(read: Record, input: Input): bool { if input.enabled.Some? then input.enabled.value else read.enabled }

  predicate ReadsBoundary(input: Input) {
    input.url.Some? || input.connector || input.details || input.enabled == Some(true)
  }

  predicate Synchronizes(read: Record, input: Input) {
    NewEnabled(read, input) && (input.enabled == Some(true) || input.url.Some? || input.connector)
  }

  datatype Planned = Refused | Keep | Store(registry: Discovered)

  /** The registry that grant modes are edited in: the one just read, or the stored one. */
  function Base(read: Record, input: Input, a: Answer): Option<Discovered> {
    if !Synchronizes(read, input) || Advertised(a).None? then read.registry
    else
      var previous := if NewUrl(read, input) != read.url then None else Declared(read.registry);
      Some(Discovered(NewUrl(read, input), Synchronized(previous, Advertised(a).value)))
  }

  predicate Answered(read: Record, input: Input, a: Answer) {
    (ReadsBoundary(input) ==> Advertised(a).Some?) && (Synchronizes(read, input) ==> a.contract)
  }

  function Plan(read: Record, input: Input, a: Answer): Planned {
    var base := Base(read, input, a);
    if !Answered(read, input, a) then Refused
    else if input.modes.None? then (if Synchronizes(read, input) then Store(base.value) else Keep)
    else if !EditAllowed(Declared(base), input.modes.value) then Refused
    else Store(base.value.(entries := Edited(base.value.entries, input.modes.value)))
  }

  /** The first of the two writes: the members given. */
  function Patched(r: Record, input: Input): Record {
    r.(url := NewUrl(r, input), enabled := NewEnabled(r, input))
  }

  function UpdateOnce(r: Record, input: Input, a: Answer): Record {
    match Plan(r, input, a)
    case Refused => r
    case Keep => Patched(r, input)
    case Store(registry) => Patched(r, input).(registry := Some(registry))
  }

  class ResourceRecord {
    var url: Text
    var enabled: bool
    var registry: Option<Discovered>

    constructor (at: Text)
      ensures Value() == Record(at, false, None)
    {
      url, enabled, registry := at, false, None;
    }

    function Value(): Record
      reads this
    {
      Record(url, enabled, registry)
    }

    method RefreshScopeRegistry(a: Answer) returns (ok: bool)
      modifies this`registry
      ensures Value() == RefreshOnce(old(Value()), a)
      ensures ok <==> old(enabled) && Refreshed(old(Value()), a).Some?
    {
      if !enabled { return false; }
      var saved := registry;
      if a.scopes.None? || !a.contract { registry := saved; return false; }
      var scopes := ScopeArray(a.scopes.value);
      if scopes.None? { registry := saved; return false; }
      registry := Some(Discovered(url, Synchronized(Declared(registry), scopes.value)));
      return true;
    }

    /** An edit is refused exactly if some scope is not declared. */
    method UpdateScopeGrantModes(base: Option<Discovered>, updates: seq<ScopeEntry>) returns (edited: Option<Discovered>)
      ensures edited == if EditAllowed(Declared(base), updates)
                        then Some(base.value.(entries := Edited(base.value.entries, updates))) else None
    {
      if base.None? { return None; }
      var i := 0;
      while i < |updates|
        invariant 0 <= i <= |updates|
        invariant forall j | 0 <= j < i :: Declares(Declared(base), updates[j].value)
      {
        if !Declares(Declared(base), updates[i].value) { return None; }
        i := i + 1;
      }
      return Some(base.value.(entries := Edited(base.value.entries, updates)));
    }

    /** synchronizeResourceDiscovery and updateScopeGrantModes, as an update calls them. */
    method PlanRegistry(input: Input, a: Answer, resourceUrl: Text, shouldSynchronize: bool) returns (planned: Planned)
      requires Answered(Value(), input, a) && resourceUrl == NewUrl(Value(), input) && shouldSynchronize == Synchronizes(Value(), input)
      ensures planned == Plan(Value(), input, a)
    {
      var base := registry;
      if shouldSynchronize {
        base := Some(Discovered(resourceUrl, Synchronized(if resourceUrl != url then None else Declared(registry), Advertised(a).value)));
      }
      if input.modes.Some? {
        var edited := UpdateScopeGrantModes(base, input.modes.value);
        return if edited.Some? then Store(edited.value) else Refused;
      }
      return if shouldSynchronize then Store(base.value) else Keep;
    }

    method Update(input: Input, a: Answer) returns (ok: bool)
      modifies this
      ensures Value() == UpdateOnce(old(Value()), input, a)
      ensures ok <==> !Plan(old(Value()), input, a).Refused?
    {
      var resourceUrl := if input.url.Some? then input.url.value else url;
      var on := if input.enabled.Some? then input.enabled.value else enabled;
      var boundaryChanged := input.url.Some? || input.details || input.connector;
      if (boundaryChanged || input.enabled == Some(true)) && Advertised(a).None? { return false; }
      var shouldSynchronize := on && (input.enabled == Some(true) || input.url.Some? || input.connector);
      if shouldSynchronize && !a.contract { return false; }
      var planned := PlanRegistry(input, a, resourceUrl, shouldSynchronize);
      if planned.Refused? { return false; }
      url, enabled := resourceUrl, on;
      if planned.Store? { registry := Some(planned.registry); }
      return true;
    }
  }

  // ---- What becomes of the registry when the URL changes ----

  /** The registry, if there is one, was read from the stored URL. */
  predicate InSync(r: Record) { r.registry.Some? ==> r.registry.value.source == r.url }

  /** An update leaves the resource with the registry of another server exactly if it moves a resource
      that has one to a new URL, and the resource is not enabled afterwards. */
  lemma LeftBehindExactly(r: Record, input: Input, a: Answer)
    requires InSync(r) && !Plan(r, input, a).Refused?
    ensures !InSync(UpdateOnce(r, input, a)) <==> NewUrl(r, input) != r.url && !NewEnabled(r, input) && UpdateOnce(r, input, a).registry.Some?
    ensures !NewEnabled(r, input) ==> Declared(UpdateOnce(r, input, a).registry).Some? == r.registry.Some?
  {
  }

  function JustUrl(url: Text): Input { Input(Some(url), None, false, false, None) }

  function JustEnable(): Input { Input(None, Some(true), false, false, None) }

  /** A resource is moved while it is disabled, and then enabled: the scopes of the new server take the
      modes that scopes of the same name had on the old one. They are all assigned, as those of a new
      server should be, exactly if none of them was automatic there. Had it been moved and enabled at
      once, they would be. */
  lemma MovedWhileDisabled(r: Record, url: Text, a: Answer, b: Answer)
    requires !r.enabled && r.registry.Some? && url != r.url && Advertised(a).Some? && Advertised(b).Some? && b.contract
    ensures var scopes, old_ := Advertised(b).value, r.registry.value.entries;
            var apart := UpdateOnce(UpdateOnce(r, JustUrl(url), a), JustEnable(), b);
            var atOnce := UpdateOnce(r, JustUrl(url).(enabled := Some(true)), b);
            && apart == Record(url, true, Some(Discovered(url, Synchronized(Some(old_), scopes))))
            && atOnce == Record(url, true, Some(Discovered(url, Synchronized(None, scopes))))
            && (apart == atOnce <==> forall i | 0 <= i < |scopes| :: ModeOr(old_, scopes[i]) == Assigned)
  {
    var scopes, entries := Advertised(b).value, r.registry.value.entries;
    StaleSyncExactly(entries, [], scopes);
    assert Synchronized(Some([]), scopes) == Synchronized(None, scopes);
  }

  // ---- As events of the registry alone ----

  function UpdateEvents(read: Record, input: Input, a: Answer): seq<Event> {
    (if Synchronizes(read, input) then [Sync(a.scopes, NewUrl(read, input) != read.url)] else [])
    + (if input.modes.Some? then [Edit(input.modes.value)] else [])
  }

  function RefreshEvent(a: Answer): Event { Sync(if a.contract then a.scopes else None, false) }

  function ApplyAll(r: Registry, events: seq<Event>): Registry
    decreases |events|
  {
    if events == [] then r else Apply(ApplyAll(r, events[..|events| - 1]), events[|events| - 1])
  }

  lemma RefreshIsEvent(r: Record, a: Answer)
    ensures Declared(RefreshWrites(r.registry, r, a)) == Apply(Declared(r.registry), RefreshEvent(a))
  {
  }

  lemma OneEvent(r: Registry, e: Event)
    ensures ApplyAll(r, [e]) == Apply(r, e)
  {
    assert [e][..0] == [];
  }

  lemma TwoEvents(r: Registry, d: Event, e: Event)
    ensures ApplyAll(r, [d, e]) == Apply(Apply(r, d), e)
  {
    assert [d, e][..1] == [d];
    OneEvent(r, d);
  }

  /** An update that is not refused does to the registry what a synchronization and an edit do. */
  lemma UpdateIsEvents(r: Record, input: Input, a: Answer)
    requires !Plan(r, input, a).Refused?
    ensures Declared(UpdateOnce(r, input, a).registry) == ApplyAll(Declared(r.registry), UpdateEvents(r, input, a))
  {
    var sync := Sync(a.scopes, NewUrl(r, input) != r.url);
    if Synchronizes(r, input) && input.modes.Some? {
      TwoEvents(Declared(r.registry), sync, Edit(input.modes.value));
      assert UpdateEvents(r, input, a) == [sync, Edit(input.modes.value)];
    } else if Synchronizes(r, input) {
      OneEvent(Declared(r.registry), sync);
      assert UpdateEvents(r, input, a) == [sync];
    } else if input.modes.Some? {
      OneEvent(Declared(r.registry), Edit(input.modes.value));
      assert UpdateEvents(r, input, a) == [Edit(input.modes.value)];
    }
  }
}
