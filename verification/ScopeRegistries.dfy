/** The scope registry of a Resource Server: what it declares, and how each scope is granted.
    server/usecases/resource-metadata.ts and server/usecases/authorization.ts. */
module ScopeRegistries {
  import opened Options
  import opened Texts
  import opened AuthorizationDetails
  import opened ScopeTexts

  datatype GrantMode = Assigned | Automatic

  datatype ScopeEntry = ScopeEntry(value: Text, mode: GrantMode)

  /** None until the first successful synchronization. */
  type Registry = Option<seq<ScopeEntry>>

  /** %x21 / %x23-5B / %x5D-7E, one or more (section 3.3 of RFC 6749). */
  predicate ScopeToken(t: Text) {
    t != [] && forall u | u in t :: u == 0x21 || 0x23 <= u <= 0x5B || 0x5D <= u <= 0x7E
  }

  /** The advertised scopes in order, each once; None if there is none or one is malformed. */
  function ScopeArray(advertised: seq<Text>): Option<seq<Text>> {
    if advertised == [] || exists i :: 0 <= i < |advertised| && !ScopeToken(advertised[i]) then None
    else Some(SortTexts(Unique(advertised)))
  }

  /** The mode of the last entry with that value. */
  function ModeIn(entries: seq<ScopeEntry>, value: Text): (mode: Option<GrantMode>)
    ensures mode.None? <==> forall i | 0 <= i < |entries| :: entries[i].value != value
  {
    if entries == [] then None
    else if entries[|entries| - 1].value == value then Some(entries[|entries| - 1].mode)
    else
      assert forall i | 0 <= i < |entries| - 1 :: entries[..|entries| - 1][i] == entries[i];
      ModeIn(entries[..|entries| - 1], value)
  }

  function EntriesOf(previous: Registry): seq<ScopeEntry> { if previous.Some? then previous.value else [] }

  /** The registry after a successful synchronization over `previous`. */
  function Synchronized(previous: Registry, scopes: seq<Text>): (entries: seq<ScopeEntry>)
    ensures |entries| == |scopes|
    ensures forall i | 0 <= i < |scopes| ::
              entries[i] == ScopeEntry(scopes[i], if ModeIn(EntriesOf(previous), scopes[i]).Some?
                                                  then ModeIn(EntriesOf(previous), scopes[i]).value else Assigned)
  {
    seq(|scopes|, i requires 0 <= i < |scopes| =>
      ScopeEntry(scopes[i], if ModeIn(EntriesOf(previous), scopes[i]).Some?
                            then ModeIn(EntriesOf(previous), scopes[i]).value else Assigned))
  }

  predicate Declares(r: Registry, value: Text) { r.Some? && exists i :: 0 <= i < |r.value| && r.value[i].value == value }

  /** Every edited scope is declared. */
  predicate EditAllowed(r: Registry, updates: seq<ScopeEntry>) {
    r.Some? && forall i | 0 <= i < |updates| :: Declares(r, updates[i].value)
  }

  function Edited(entries: seq<ScopeEntry>, updates: seq<ScopeEntry>): (r: seq<ScopeEntry>)
    ensures |r| == |entries|
    ensures forall i | 0 <= i < |r| ::
              r[i] == entries[i].(mode := if ModeIn(updates, entries[i].value).Some? then ModeIn(updates, entries[i].value).value else entries[i].mode)
  {
    seq(|entries|, i requires 0 <= i < |entries| =>
      entries[i].(mode := if ModeIn(updates, entries[i].value).Some? then ModeIn(updates, entries[i].value).value else entries[i].mode))
  }

  /** A synchronization, with what the server advertised (None if it could not be read) and whether
      its URL has changed; or an edit of grant modes. */
  datatype Event = Sync(advertised: Option<seq<Text>>, urlChanged: bool) | Edit(updates: seq<ScopeEntry>)

  function Succeeds(e: Event): Option<seq<Text>> {
    if e.Sync? && e.advertised.Some? then ScopeArray(e.advertised.value) else None
  }

  function Apply(r: Registry, e: Event): Registry {
    match e
    case Sync(_, urlChanged) =>
      if Succeeds(e).None? then r else Some(Synchronized(if urlChanged then None else r, Succeeds(e).value))
    case Edit(updates) =>
      if EditAllowed(r, updates) then Some(Edited(r.value, updates)) else r
  }

  // ---- Histories ----

  function After(history: seq<Event>): Registry {
    if history == [] then None else Apply(After(history[..|history| - 1]), history[|history| - 1])
  }

  /** The scope list that was last read successfully. */
  function LastRead(history: seq<Event>): Option<seq<Text>> {
    if history == [] then None
    else if Succeeds(history[|history| - 1]).Some? then Succeeds(history[|history| - 1])
    else LastRead(history[..|history| - 1])
  }

  function ValuesOf(entries: seq<ScopeEntry>): (values: seq<Text>)
    ensures |values| == |entries| && forall i | 0 <= i < |values| :: values[i] == entries[i].value
  {
    seq(|entries|, i requires 0 <= i < |entries| => entries[i].value)
  }

  /** The registry lists exactly what was last read successfully, in order and each scope once. */
  lemma {:induction false} RegistryIsLastRead(history: seq<Event>)
    ensures After(history).Some? <==> LastRead(history).Some?
    ensures After(history).Some? ==>
              && ValuesOf(After(history).value) == LastRead(history).value
              && Distinct(LastRead(history).value) && Ordered(LastRead(history).value, UnitLe)
  {
    if history != [] {
      RegistryIsLastRead(history[..|history| - 1]);
      var e := history[|history| - 1];
      if Succeeds(e).Some? {
        UniqueDistinct(e.advertised.value);
        SortTextsDistinct(Unique(e.advertised.value));
        SortTextsSorts(Unique(e.advertised.value));
      }
    }
  }

  lemma DeclaresRead(history: seq<Event>, s: Text)
    ensures Declares(After(history), s) <==> LastRead(history).Some? && s in LastRead(history).value
  {
    RegistryIsLastRead(history);
    if LastRead(history).Some? && s in LastRead(history).value {
      var i :| 0 <= i < |LastRead(history).value| && LastRead(history).value[i] == s;
      assert After(history).value[i].value == ValuesOf(After(history).value)[i];
    }
    if Declares(After(history), s) {
      var i :| 0 <= i < |After(history).value| && After(history).value[i].value == s;
      assert ValuesOf(After(history).value)[i] == s;
    }
  }

  /** Event i declares the scope where it was not declared before, or under a new URL. */
  predicate NewlyDeclared(history: seq<Event>, i: nat, s: Text)
    requires i < |history|
  {
    && Succeeds(history[i]).Some? && s in Succeeds(history[i]).value
    && (history[i].urlChanged || !Declares(After(history[..i]), s))
  }

  /** The mode that an allowed edit set last, among the events from i on. */
  function SetSince(history: seq<Event>, i: nat, s: Text): Option<GrantMode> {
    if |history| <= i then None
    else
      var before, e := history[..|history| - 1], history[|history| - 1];
      if e.Edit? && EditAllowed(After(before), e.updates) && ModeIn(e.updates, s).Some? then ModeIn(e.updates, s)
      else SetSince(before, i, s)
  }

  /** Event i is the last to have newly declared the scope. */
  ghost predicate DeclaredSince(history: seq<Event>, i: nat, s: Text) {
    i < |history| && NewlyDeclared(history, i, s) && forall k | i < k < |history| :: !NewlyDeclared(history, k, s)
  }

  lemma {:induction false} ModeInDistinct(entries: seq<ScopeEntry>, i: nat)
    requires i < |entries| && Distinct(ValuesOf(entries))
    ensures ModeIn(entries, entries[i].value) == Some(entries[i].mode)
  {
    var last := |entries| - 1;
    if i < last {
      assert ValuesOf(entries)[i] != ValuesOf(entries)[last];
      assert forall j | 0 <= j < last :: entries[..last][j] == entries[j] && ValuesOf(entries[..last])[j] == ValuesOf(entries)[j];
      ModeInDistinct(entries[..last], i);
    }
  }

  lemma NewlyBefore(history: seq<Event>, k: nat, s: Text)
    requires k + 1 < |history|
    ensures NewlyDeclared(history[..|history| - 1], k, s) == NewlyDeclared(history, k, s)
  {
    assert history[..|history| - 1][..k] == history[..k];
  }

  /** A declared scope was newly declared by the last event or declared before it. */
  lemma DeclaredBefore(history: seq<Event>, s: Text)
    requires history != [] && Declares(After(history), s) && !NewlyDeclared(history, |history| - 1, s)
    ensures Declares(After(history[..|history| - 1]), s)
  {
    DeclaresRead(history, s);
    DeclaresRead(history[..|history| - 1], s);
  }

  lemma {:induction false} DeclaredEventExists(history: seq<Event>, s: Text) returns (i: nat)
    requires Declares(After(history), s)
    ensures DeclaredSince(history, i, s)
    decreases |history|
  {
    var n := |history| - 1;
    if NewlyDeclared(history, n, s) {
      i := n;
    } else {
      DeclaredBefore(history, s);
      i := DeclaredEventExists(history[..n], s);
      SinceLonger(history, i, s);
    }
  }

  lemma SinceLonger(history: seq<Event>, i: nat, s: Text)
    requires i + 1 < |history| && !NewlyDeclared(history, |history| - 1, s)
    ensures DeclaredSince(history[..|history| - 1], i, s) <==> DeclaredSince(history, i, s)
  {
    var before := history[..|history| - 1];
    NewlyBefore(history, i, s);
    if DeclaredSince(before, i, s) {
      forall k | i < k < |history| ensures !NewlyDeclared(history, k, s) {
        if k < |history| - 1 {
          NewlyBefore(history, k, s);
          assert !NewlyDeclared(before, k, s);
        }
      }
    }
    if DeclaredSince(history, i, s) {
      forall k | i < k < |before| ensures !NewlyDeclared(before, k, s) {
        NewlyBefore(history, k, s);
        assert !NewlyDeclared(history, k, s);
      }
    }
  }

  lemma {:induction false} NothingSince(history: seq<Event>, i: nat, s: Text)
    requires |history| <= i
    ensures SetSince(history, i, s).None?
  {
  }

  /** The mode of a declared scope is the last one set since it was last newly declared, and
      `assigned` if none was. */
  lemma {:induction false} ModeIsLastSet(history: seq<Event>, s: Text, i: nat)
    requires DeclaredSince(history, i, s) && Declares(After(history), s)
    ensures ModeIn(After(history).value, s)
            == Some(if SetSince(history, i, s).Some? then SetSince(history, i, s).value else Assigned)
    decreases |history|
  {
    var n := |history| - 1;
    var before, e := history[..n], history[n];
    assert history == before + [e];
    if i == n {
      FreshMode(before, e, s);
      NothingSince(before, i, s);
    } else {
      assert !NewlyDeclared(history, n, s);
      DeclaredBefore(history, s);
      SinceLonger(history, i, s);
      ModeIsLastSet(before, s, i);
      KeptMode(before, e, s);
    }
  }

  lemma EntryOf(history: seq<Event>, s: Text) returns (j: nat)
    requires Declares(After(history), s)
    ensures j < |After(history).value| && After(history).value[j].value == s
    ensures ModeIn(After(history).value, s) == Some(After(history).value[j].mode)
  {
    RegistryIsLastRead(history);
    j :| 0 <= j < |After(history).value| && After(history).value[j].value == s;
    ModeInDistinct(After(history).value, j);
  }

  lemma FreshMode(before: seq<Event>, e: Event, s: Text)
    requires NewlyDeclared(before + [e], |before|, s) && Declares(After(before + [e]), s)
    ensures ModeIn(After(before + [e]).value, s) == Some(Assigned)
  {
    assert (before + [e])[..|before|] == before;
    var j := EntryOf(before + [e], s);
    if !e.urlChanged && After(before).Some? {
      assert ModeIn(After(before).value, s).None?;
    }
  }

  lemma KeptMode(before: seq<Event>, e: Event, s: Text)
    requires Declares(After(before), s) && Declares(After(before + [e]), s) && !NewlyDeclared(before + [e], |before|, s)
    ensures ModeIn(After(before + [e]).value, s)
            == if e.Edit? && EditAllowed(After(before), e.updates) && ModeIn(e.updates, s).Some?
               then ModeIn(e.updates, s) else ModeIn(After(before).value, s)
  {
    assert (before + [e])[..|before|] == before;
    var j := EntryOf(before + [e], s);
    var i := EntryOf(before, s);
    if e.Edit? && EditAllowed(After(before), e.updates) {
      RegistryIsLastRead(before);
      assert After(before + [e]).value[i].value == s;
      RegistryIsLastRead(before + [e]);
      ModeInDistinct(After(before + [e]).value, i);
    } else if Succeeds(e).Some? {
      assert s in Succeeds(e).value by {
        assert ValuesOf(After(before + [e]).value)[j] == s;
        RegistryIsLastRead(before + [e]);
      }
    }
  }

  // ---- Changes made over an old registry ----

  /** A synchronization over a registry that is no longer the stored one gives the same exactly if the
      two agree on the mode of every scope now advertised. */
  lemma StaleSyncExactly(read: seq<ScopeEntry>, stored: seq<ScopeEntry>, scopes: seq<Text>)
    ensures Synchronized(Some(read), scopes) == Synchronized(Some(stored), scopes)
            <==> forall i | 0 <= i < |scopes| ::
                   ModeOr(read, scopes[i]) == ModeOr(stored, scopes[i])
  {
    var a, b := Synchronized(Some(read), scopes), Synchronized(Some(stored), scopes);
    if a == b {
      forall i | 0 <= i < |scopes| ensures ModeOr(read, scopes[i]) == ModeOr(stored, scopes[i]) {
        assert a[i] == b[i];
      }
    }
  }

  function ModeOr(entries: seq<ScopeEntry>, value: Text): GrantMode {
    if ModeIn(entries, value).Some? then ModeIn(entries, value).value else Assigned
  }

  /** So does an edit exactly if the two declare the same scopes and agree on the mode of each scope
      that is not edited. */
  lemma StaleEditExactly(read: seq<ScopeEntry>, stored: seq<ScopeEntry>, updates: seq<ScopeEntry>)
    ensures Edited(read, updates) == Edited(stored, updates)
            <==> && ValuesOf(read) == ValuesOf(stored)
                 && forall i | 0 <= i < |read| && ModeIn(updates, read[i].value).None? :: read[i].mode == stored[i].mode
  {
    var a, b := Edited(read, updates), Edited(stored, updates);
    if a == b {
      forall i | 0 <= i < |read| ensures read[i].value == stored[i].value && (ModeIn(updates, read[i].value).None? ==> read[i].mode == stored[i].mode) {
        assert a[i] == b[i];
      }
      assert ValuesOf(read) == ValuesOf(stored);
    }
    if ValuesOf(read) == ValuesOf(stored) && forall i | 0 <= i < |read| && ModeIn(updates, read[i].value).None? :: read[i].mode == stored[i].mode {
      forall i | 0 <= i < |a| ensures a[i] == b[i] {
        assert ValuesOf(read)[i] == ValuesOf(stored)[i];
      }
    }
  }
}
