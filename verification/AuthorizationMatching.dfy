/** Matching the details a controller approves against the details an Agent requested. */
module AuthorizationMatching {
  import opened Texts
  import opened CanonicalJson
  import opened AuthorizationDetails
  import opened Assignments

  /** A missing member has no canonical text, so it equals no printed value. */
  predicate AuthorizationDetailMatchesTemplate(detail: Detail, template: Detail, le: Collation) {
    forall i | 0 <= i < |template.members| ::
      var found := Lookup(detail.members, template.members[i].key);
      found.Some? && Canonical(found.value, le) == Canonical(template.members[i].value, le)
  }

  predicate Fits(candidate: Detail, requirement: Detail, le: Collation) {
    || Canonical(candidate, le) == Canonical(requirement, le)
    || AuthorizationDetailMatchesTemplate(candidate, requirement, le)
  }

  function FirstFit(remaining: seq<Detail>, requirement: Detail, le: Collation): (index: int)
    ensures -1 <= index < |remaining|
    ensures index >= 0 ==> Fits(remaining[index], requirement, le)
    ensures forall i | 0 <= i < |remaining| && (i < index || index == -1) :: !Fits(remaining[i], requirement, le)
  {
    FirstIndex(remaining, (candidate: Detail) => Fits(candidate, requirement, le))
  }

  /** The first index whose candidate fits, or -1. */
  method FindIndex(remaining: seq<Detail>, requirement: Detail, le: Collation) returns (index: int)
    ensures index == FirstFit(remaining, requirement, le)
  {
    index := FindFirst(remaining, (candidate: Detail) => Fits(candidate, requirement, le));
  }

  /** Each requirement in turn takes the first remaining candidate that fits it. */
  predicate Greedy(remaining: seq<Detail>, requested: seq<Detail>, le: Collation)
    decreases |requested|
  {
    requested == [] ||
    var index := FirstFit(remaining, requested[0], le);
    index != -1 && Greedy(RemoveAt(remaining, index), requested[1..], le)
  }

  predicate MatchesRequest(approved: seq<Detail>, requested: seq<Detail>, le: Collation) {
    && |approved| == |requested|
    && |set form | form in Forms(approved, le)| == |approved|
    && Greedy(approved, requested, le)
  }

  method AuthorizationDetailsMatchRequest(approved: seq<Detail>, requested: seq<Detail>, le: Collation)
    returns (matched: bool)
    ensures matched <==> MatchesRequest(approved, requested, le)
  {
    if |approved| != |requested| || |set form | form in Forms(approved, le)| != |approved| {
      return false;
    }
    var remaining := approved;
    var i := 0;
    while i < |requested|
      invariant 0 <= i <= |requested|
      invariant Greedy(approved, requested, le) <==> Greedy(remaining, requested[i..], le)
    {
      assert requested[i..][1..] == requested[i + 1..];
      var index := FindIndex(remaining, requested[i], le);
      if index == -1 { return false; }
      remaining := RemoveAt(remaining, index);
      i := i + 1;
    }
    return true;
  }

  // ---- What matching means ----

  /** Has every member of the requirement, with an equal value. */
  ghost predicate Serves(candidate: Detail, requirement: Detail) {
    Submap(MapOfDetail(requirement), MapOfDetail(candidate))
  }

  /** A successful greedy run is a one-to-one assignment of all approved details. */
  lemma {:induction false} GreedyAssigns(approved: seq<Detail>, requested: seq<Detail>, le: Collation)
    returns (chosen: seq<Detail>)
    requires AllWellFormed(approved) && AllWellFormed(requested)
    requires |approved| == |requested| && Greedy(approved, requested, le)
    ensures Assigns(chosen, approved, requested, Serves)
    decreases |requested|
  {
    if requested == [] {
      chosen := [];
    } else {
      var index := FirstFit(approved, requested[0], le);
      FittingServes(approved[index], requested[0], le);
      var rest := GreedyAssigns(RemoveAt(approved, index), requested[1..], le);
      chosen := [approved[index]] + rest;
      Consed(rest, approved, requested, index, Serves);
    }
  }

  function MapOfDetail(d: Detail): map<Text, Value> {
    MapOf(Meanings(d.members))
  }

  ghost predicate Submap(m: map<Text, Value>, n: map<Text, Value>) {
    forall k | k in m :: k in n && n[k] == m[k]
  }

  lemma LookupIsMap(members: seq<Pair<Json>>, key: Text)
    requires Distinct(Keys(members))
    ensures var m := MapOf(Meanings(members));
            var found := Lookup(members, key);
            && (found.Some? <==> key in m)
            && (found.Some? ==> Pair(key, found.value) in members && m[key] == Meaning(found.value))
  {
    var found := Lookup(members, key);
    if found.Some? {
      var i :| 0 <= i < |members| && members[i].key == key && members[i].value == found.value;
      MemberMeaning(members, i);
    } else if key in MapOf(Meanings(members)) {
      var i := MemberOfKey(members, key);
    }
  }

  /** Whatever the collation, a candidate that fits has every member of the requirement. */
  lemma FittingServes(candidate: Detail, requirement: Detail, le: Collation)
    requires WellFormed(candidate) && WellFormed(requirement) && Fits(candidate, requirement, le)
    ensures Serves(candidate, requirement)
  {
    if Canonical(candidate, le) == Canonical(requirement, le) {
      CanonicalJsonInjective(candidate, requirement, le);
      assert MapOfDetail(candidate) == MapOfDetail(requirement);
    } else {
      var m, n := MapOfDetail(requirement), MapOfDetail(candidate);
      forall k | k in m ensures k in n && n[k] == m[k] {
        var i := MemberOfKey(requirement.members, k);
        var found := Lookup(candidate.members, requirement.members[i].key);
        LookupIsMap(candidate.members, k);
        MemberMeaning(requirement.members, i);
        var j :| 0 <= j < |candidate.members| && candidate.members[j] == Pair(k, found.value);
        CanonicalJsonInjective(found.value, requirement.members[i].value, le);
      }
    }
  }

  /** A candidate fits exactly when it has every member of the requirement, with an equal value.
      Equality of the two details is the special case with no further members. */
  lemma FitsIsServes(candidate: Detail, requirement: Detail, le: Collation)
    requires TotalPreorder(le) && Separates(le) && WellFormed(candidate) && WellFormed(requirement)
    ensures Fits(candidate, requirement, le) <==> Serves(candidate, requirement)
  {
    SameFormSameMeaning(candidate, requirement, le);
    TemplateIsSubmap(candidate, requirement, le);
  }

  lemma MemberMeaning(members: seq<Pair<Json>>, i: nat)
    requires Distinct(Keys(members)) && i < |members|
    ensures members[i].key in MapOf(Meanings(members))
    ensures MapOf(Meanings(members))[members[i].key] == Meaning(members[i].value)
  {
    MeaningsEntry(members, i);
    EntryGiven(Meanings(members), i, members[i].key, Meaning(members[i].value));
  }

  lemma MeaningsEntry(members: seq<Pair<Json>>, i: nat)
    requires i < |members|
    ensures Meanings(members)[i] == Pair(members[i].key, Meaning(members[i].value))
    ensures Keys(Meanings(members)) == Keys(members)
  {
  }

  lemma EntryGiven<T>(entries: seq<Pair<T>>, i: nat, key: Text, value: T)
    requires Distinct(Keys(entries)) && i < |entries| && entries[i] == Pair(key, value)
    ensures key in MapOf(entries) && MapOf(entries)[key] == value
  {
    EntryOfMap(entries, i);
  }

  lemma MemberOfKey(members: seq<Pair<Json>>, key: Text) returns (i: nat)
    requires Distinct(Keys(members)) && key in MapOf(Meanings(members))
    ensures i < |members| && members[i].key == key
  {
    assert Keys(Meanings(members)) == Keys(members);
    MapKeys(Meanings(members));
    i :| 0 <= i < |members| && Keys(members)[i] == key;
  }

  lemma TemplateIsSubmap(detail: Detail, template: Detail, le: Collation)
    requires TotalPreorder(le) && Separates(le) && WellFormed(detail) && WellFormed(template)
    ensures AuthorizationDetailMatchesTemplate(detail, template, le)
            <==> Submap(MapOfDetail(template), MapOfDetail(detail))
  {
    var m, n := MapOfDetail(template), MapOfDetail(detail);
    if AuthorizationDetailMatchesTemplate(detail, template, le) {
      forall k | k in m ensures k in n && n[k] == m[k] {
        var i := MemberOfKey(template.members, k);
        MemberAgrees(detail, template, i, le);
      }
    }
    if Submap(m, n) {
      forall i | 0 <= i < |template.members|
        ensures var found := Lookup(detail.members, template.members[i].key);
                found.Some? && Canonical(found.value, le) == Canonical(template.members[i].value, le)
      {
        MemberMeaning(template.members, i);
        MemberAgrees(detail, template, i, le);
      }
    }
  }

  lemma MemberAgrees(detail: Detail, template: Detail, i: nat, le: Collation)
    requires TotalPreorder(le) && Separates(le) && WellFormed(detail) && WellFormed(template)
    requires i < |template.members|
    ensures template.members[i].key in MapOfDetail(template)
    ensures var key := template.members[i].key;
            var found := Lookup(detail.members, key);
            (found.Some? && Canonical(found.value, le) == Canonical(template.members[i].value, le))
            <==> (key in MapOfDetail(detail) && MapOfDetail(detail)[key] == MapOfDetail(template)[key])
  {
    var key := template.members[i].key;
    LookupIsMap(detail.members, key);
    MemberMeaning(template.members, i);
    var found := Lookup(detail.members, key);
    if found.Some? {
      var j :| 0 <= j < |detail.members| && detail.members[j] == Pair(key, found.value);
      SameFormSameMeaning(found.value, template.members[i].value, le);
    }
  }

  // ---- When greedy matching finds an assignment whenever there is one ----

  ghost predicate Compatible(m: map<Text, Value>, n: map<Text, Value>) {
    forall k | k in m && k in n :: m[k] == n[k]
  }

  /** Of two requirements that one detail could meet, the later one asks for no more. */
  ghost predicate SpecificBefore(earlier: Detail, later: Detail) {
    Compatible(MapOfDetail(earlier), MapOfDetail(later)) ==> Submap(MapOfDetail(later), MapOfDetail(earlier))
  }

  ghost predicate SpecificFirst(requested: seq<Detail>) {
    forall i, j | 0 <= i < j < |requested| :: SpecificBefore(requested[i], requested[j])
  }

  /** Then whatever serves the earlier of two requirements that some detail serves both serves the later. */
  lemma SpecificFirstExchanges(approved: seq<Detail>, requested: seq<Detail>)
    requires SpecificFirst(requested)
    ensures Exchanges(approved, requested, Serves)
  {
    forall c, d, j, k | c in approved && d in approved && 0 <= j < k < |requested| &&
                        Serves(c, requested[j]) && Serves(c, requested[k]) && Serves(d, requested[j])
      ensures Serves(d, requested[k])
    {
      assert SpecificBefore(requested[j], requested[k]);
    }
  }

  lemma {:induction false} GreedyCompletes(chosen: seq<Detail>, approved: seq<Detail>, requested: seq<Detail>, le: Collation)
    requires TotalPreorder(le) && Separates(le) && AllWellFormed(approved) && AllWellFormed(requested)
    requires Exchanges(approved, requested, Serves) && Assigns(chosen, approved, requested, Serves)
    ensures Greedy(approved, requested, le)
    decreases |requested|
  {
    if requested != [] {
      var index := GreedyFinds(chosen, approved, requested, le);
      var rest := Reassign(chosen, approved, requested, index, Serves);
      ExchangesRest(approved, requested, index, Serves);
      GreedyCompletes(rest, RemoveAt(approved, index), requested[1..], le);
    }
  }

  lemma GreedyFinds(chosen: seq<Detail>, approved: seq<Detail>, requested: seq<Detail>, le: Collation)
    returns (index: nat)
    requires TotalPreorder(le) && Separates(le) && AllWellFormed(approved) && AllWellFormed(requested)
    requires requested != [] && Assigns(chosen, approved, requested, Serves)
    ensures index < |approved| && index == FirstFit(approved, requested[0], le)
    ensures Serves(approved[index], requested[0])
  {
    assert chosen[0] in multiset(approved) && Serves(chosen[0], requested[0]);
    var i :| 0 <= i < |approved| && approved[i] == chosen[0];
    FitsIsServes(approved[i], requested[0], le);
    assert FirstFit(approved, requested[0], le) != -1;
    index := FirstFit(approved, requested[0], le);
    FitsIsServes(approved[index], requested[0], le);
  }

  // ---- And when it does not ----

  /** When each of the first requirements finds its own detail in front, the run skips past them. */
  lemma {:induction false} GreedySkips(approved: seq<Detail>, requested: seq<Detail>, n: nat, le: Collation)
    requires n <= |requested| <= |approved|
    requires forall i | 0 <= i < n :: Fits(approved[i], requested[i], le)
    ensures Greedy(approved, requested, le) <==> Greedy(approved[n..], requested[n..], le)
    decreases n
  {
    if n == 0 {
      assert approved[0..] == approved && requested[0..] == requested;
    } else {
      assert FirstFit(approved, requested[0], le) == 0;
      assert RemoveAt(approved, 0) == approved[1..];
      GreedySkips(approved[1..], requested[1..], n - 1, le);
      assert approved[1..][n - 1..] == approved[n..] && requested[1..][n - 1..] == requested[n..];
    }
  }

  /** The requirement's members and one fresh member that no requirement mentions. */
  function Entry(members: seq<Pair<Json>>, mark: Text, n: nat): Detail {
    Obj(members + [Pair(mark, Nulls(n))])
  }

  function Nulls(n: nat): Json {
    Arr(seq(n, _ => Null))
  }

  lemma EntryFacts(members: seq<Pair<Json>>, mark: Text, n: nat)
    requires WellFormed(Obj(members)) && mark !in Keys(members)
    ensures WellFormed(Entry(members, mark, n))
    ensures MapOfDetail(Entry(members, mark, n)) == MapOfDetail(Obj(members))[mark := Meaning(Nulls(n))]
  {
    var all := members + [Pair(mark, Nulls(n))];
    assert Keys(all) == Keys(members) + [mark];
    assert WellFormed(Nulls(n));
    var meanings := Meanings(all);
    assert meanings[..|members|] == Meanings(members);
    assert meanings[|members|] == Pair(mark, Meaning(Nulls(n)));
  }

  /** The members of a, then those of b under keys that a does not have. */
  function Merged(a: seq<Pair<Json>>, b: seq<Pair<Json>>): seq<Pair<Json>> {
    a + Extra(b, Keys(a))
  }

  function Extra(b: seq<Pair<Json>>, keys: seq<Text>): seq<Pair<Json>> {
    if b == [] then [] else (if b[0].key in keys then [] else [b[0]]) + Extra(b[1..], keys)
  }

  lemma {:induction false} ExtraMembers(b: seq<Pair<Json>>, keys: seq<Text>)
    ensures forall p :: p in Extra(b, keys) <==> p in b && p.key !in keys
  {
    if b != [] {
      ExtraMembers(b[1..], keys);
      assert b == [b[0]] + b[1..];
    }
  }

  lemma ExtraKeys(b: seq<Pair<Json>>, keys: seq<Text>)
    ensures forall k | k in Keys(Extra(b, keys)) :: k in Keys(b) && k !in keys
  {
    var extra := Extra(b, keys);
    ExtraMembers(b, keys);
    forall k | k in Keys(extra) ensures k in Keys(b) && k !in keys {
      var i := PlaceOf(Keys(extra), k);
      assert extra[i] in extra;
      var j := PlaceOf(b, extra[i]);
      assert Keys(b)[j] == k;
    }
  }

  lemma {:induction false} ExtraDistinct(b: seq<Pair<Json>>, keys: seq<Text>)
    requires Distinct(Keys(b))
    ensures Distinct(Keys(Extra(b, keys)))
  {
    if b != [] {
      var ks, rest := Keys(b), Extra(b[1..], keys);
      assert Keys(b[1..]) == ks[1..];
      ExtraDistinct(b[1..], keys);
      ExtraKeys(b[1..], keys);
      TailMembers(ks, b[0].key);
      if b[0].key !in keys { assert Keys([b[0]] + rest) == [b[0].key] + Keys(rest); }
    }
  }

  lemma ExtraFacts(b: seq<Pair<Json>>, keys: seq<Text>)
    requires Distinct(Keys(b))
    ensures Distinct(Keys(Extra(b, keys)))
    ensures forall p :: p in Extra(b, keys) <==> p in b && p.key !in keys
    ensures forall k | k in Keys(Extra(b, keys)) :: k in Keys(b) && k !in keys
  {
    ExtraMembers(b, keys);
    ExtraKeys(b, keys);
    ExtraDistinct(b, keys);
  }

  lemma PlaceOf<T>(s: seq<T>, x: T) returns (i: nat)
    requires x in s
    ensures i < |s| && s[i] == x
  {
    i :| 0 <= i < |s| && s[i] == x;
  }

  lemma MergedWellFormed(a: seq<Pair<Json>>, b: seq<Pair<Json>>)
    requires WellFormed(Obj(a)) && WellFormed(Obj(b))
    ensures WellFormed(Obj(Merged(a, b)))
    ensures forall k | k in Keys(Merged(a, b)) :: k in Keys(a) || k in Keys(b)
  {
    MergedKeys(a, b);
    ExtraWellFormed(b, Keys(a));
    Appended(a, Extra(b, Keys(a)));
  }

  lemma MergedKeys(a: seq<Pair<Json>>, b: seq<Pair<Json>>)
    requires Distinct(Keys(a)) && Distinct(Keys(b))
    ensures Distinct(Keys(Merged(a, b)))
    ensures forall k | k in Keys(Merged(a, b)) :: k in Keys(a) || k in Keys(b)
  {
    var extra := Extra(b, Keys(a));
    ExtraFacts(b, Keys(a));
    assert Keys(Merged(a, b)) == Keys(a) + Keys(extra);
    MergedDistinct(Keys(a), Keys(extra));
  }

  lemma ExtraWellFormed(b: seq<Pair<Json>>, keys: seq<Text>)
    requires WellFormed(Obj(b))
    ensures forall i | 0 <= i < |Extra(b, keys)| :: WellFormed(Extra(b, keys)[i].value)
  {
    var extra := Extra(b, keys);
    ExtraFacts(b, keys);
    forall i | 0 <= i < |extra| ensures WellFormed(extra[i].value) {
      assert extra[i] in extra;
    }
  }

  lemma Appended(a: seq<Pair<Json>>, extra: seq<Pair<Json>>)
    requires WellFormed(Obj(a)) && Distinct(Keys(a + extra))
    requires forall i | 0 <= i < |extra| :: WellFormed(extra[i].value)
    ensures WellFormed(Obj(a + extra))
  {
  }

  lemma MergedDistinct(s: seq<Text>, t: seq<Text>)
    requires Distinct(s) && Distinct(t) && forall k | k in t :: k !in s
    ensures Distinct(s + t)
  {
    forall i, j | 0 <= i < j < |s + t| ensures (s + t)[i] != (s + t)[j] {
      if i < |s| <= j { assert t[j - |s|] in t; }
    }
  }

  lemma MergedServes(a: seq<Pair<Json>>, b: seq<Pair<Json>>)
    requires WellFormed(Obj(a)) && WellFormed(Obj(b))
    requires Compatible(MapOfDetail(Obj(a)), MapOfDetail(Obj(b)))
    ensures Serves(Obj(Merged(a, b)), Obj(a)) && Serves(Obj(Merged(a, b)), Obj(b))
  {
    MergedWellFormed(a, b);
    forall k | k in MapOfDetail(Obj(a))
      ensures k in MapOfDetail(Obj(Merged(a, b))) && MapOfDetail(Obj(Merged(a, b)))[k] == MapOfDetail(Obj(a))[k]
    {
      var i := MemberOfKey(a, k);
      MergedFirst(a, b, i);
    }
    forall k | k in MapOfDetail(Obj(b))
      ensures k in MapOfDetail(Obj(Merged(a, b))) && MapOfDetail(Obj(Merged(a, b)))[k] == MapOfDetail(Obj(b))[k]
    {
      MergedSecond(a, b, k);
    }
  }

  lemma MergedFirst(a: seq<Pair<Json>>, b: seq<Pair<Json>>, i: nat)
    requires WellFormed(Obj(a)) && WellFormed(Obj(Merged(a, b))) && i < |a|
    ensures var m := MapOfDetail(Obj(Merged(a, b)));
            a[i].key in m && a[i].key in MapOfDetail(Obj(a)) && m[a[i].key] == MapOfDetail(Obj(a))[a[i].key]
  {
    MemberMeaning(a, i);
    MemberMeaning(Merged(a, b), i);
  }

  lemma ExtraMember(a: seq<Pair<Json>>, b: seq<Pair<Json>>, i: nat) returns (j: nat)
    requires WellFormed(Obj(b)) && i < |b| && b[i].key !in Keys(a)
    ensures j < |Merged(a, b)| && Merged(a, b)[j] == b[i]
  {
    ExtraFacts(b, Keys(a));
    assert b[i] in b;
    j := PlaceOf(Extra(b, Keys(a)), b[i]);
    j := |a| + j;
  }

  lemma MergedSecond(a: seq<Pair<Json>>, b: seq<Pair<Json>>, k: Text)
    requires WellFormed(Obj(a)) && WellFormed(Obj(b)) && WellFormed(Obj(Merged(a, b)))
    requires Compatible(MapOfDetail(Obj(a)), MapOfDetail(Obj(b))) && k in MapOfDetail(Obj(b))
    ensures var m := MapOfDetail(Obj(Merged(a, b))); k in m && m[k] == MapOfDetail(Obj(b))[k]
  {
    var i := MemberOfKey(b, k);
    MemberMeaning(b, i);
    if k in Keys(a) {
      var j :| 0 <= j < |a| && Keys(a)[j] == k;
      MemberMeaning(a, j);
      MergedFirst(a, b, j);
    } else {
      var j := ExtraMember(a, b, i);
      MemberMeaning(Merged(a, b), j);
    }
  }

  // A key longer than every key of the requirements.

  function LongestKey(members: seq<Pair<Json>>): (n: nat)
    ensures forall i | 0 <= i < |members| :: |members[i].key| <= n
  {
    if members == [] then 0
    else
      var rest := LongestKey(members[1..]);
      assert forall i | 1 <= i < |members| :: members[i] == members[1..][i - 1];
      if |members[0].key| > rest then |members[0].key| else rest
  }

  function LongestOfAll(details: seq<Detail>): (n: nat)
    ensures forall i | 0 <= i < |details| :: LongestKey(details[i].members) <= n
  {
    if details == [] then 0
    else
      var rest := LongestOfAll(details[1..]);
      assert forall i | 1 <= i < |details| :: details[i] == details[1..][i - 1];
      if LongestKey(details[0].members) > rest then LongestKey(details[0].members) else rest
  }

  function FreshKey(details: seq<Detail>): (key: Text)
    ensures forall i | 0 <= i < |details| :: key !in Keys(details[i].members)
  {
    var key := seq(LongestOfAll(details) + 1, _ => 0x61);
    assert forall i, j | 0 <= i < |details| && 0 <= j < |details[i].members| ::
      |details[i].members[j].key| <= LongestKey(details[i].members) < |key|;
    key
  }

  /** In place of the i-th requirement a detail that serves the i-th and the j-th, in place of
      the j-th one that serves only the i-th, and elsewhere one detail for each requirement. */
  function Tempting(requested: seq<Detail>, i: nat, j: nat): (approved: seq<Detail>)
    requires i < j < |requested|
    ensures |approved| == |requested|
  {
    seq(|requested|, k requires 0 <= k < |requested| => TemptingAt(requested, i, j, k))
  }

  function TemptingAt(requested: seq<Detail>, i: nat, j: nat, k: nat): Detail
    requires i < j < |requested| && k < |requested|
  {
    Entry(if k == i then Merged(requested[i].members, requested[j].members)
          else if k == j then requested[i].members
          else requested[k].members, FreshKey(requested), k)
  }

  ghost predicate Crosses(requested: seq<Detail>, i: nat, j: nat) {
    i < j < |requested| && AllWellFormed(requested) && !SpecificBefore(requested[i], requested[j])
  }

  lemma EntryServes(members: seq<Pair<Json>>, mark: Text, n: nat, requirement: Detail)
    requires WellFormed(Obj(members)) && mark !in Keys(members)
    requires WellFormed(requirement) && mark !in Keys(requirement.members)
    ensures Serves(Entry(members, mark, n), requirement) <==> Serves(Obj(members), requirement)
  {
    EntryFacts(members, mark, n);
    assert Keys(Meanings(requirement.members)) == Keys(requirement.members);
    MapKeys(Meanings(requirement.members));
    assert mark !in MapOfDetail(requirement);
  }

  lemma TemptingServes(requested: seq<Detail>, i: nat, j: nat, k: nat)
    requires Crosses(requested, i, j) && k < |requested|
    ensures WellFormed(Tempting(requested, i, j)[k])
    ensures k != j ==> Serves(Tempting(requested, i, j)[k], requested[k])
    ensures k == i ==> Serves(Tempting(requested, i, j)[k], requested[j])
    ensures k == j ==> forall r | 0 <= r < |requested| ::
      Serves(Tempting(requested, i, j)[k], requested[r]) <==> Serves(requested[i], requested[r])
  {
    var mark := FreshKey(requested);
    var a, b := requested[i].members, requested[j].members;
    if k == i {
      MergedWellFormed(a, b);
      MergedServes(a, b);
      EntryFacts(Merged(a, b), mark, k);
      EntryServes(Merged(a, b), mark, k, requested[i]);
      EntryServes(Merged(a, b), mark, k, requested[j]);
    } else if k == j {
      EntryFacts(a, mark, k);
      forall r | 0 <= r < |requested|
        ensures Serves(Tempting(requested, i, j)[k], requested[r]) <==> Serves(requested[i], requested[r])
      {
        EntryServes(a, mark, k, requested[r]);
      }
    } else {
      EntryFacts(requested[k].members, mark, k);
      EntryServes(requested[k].members, mark, k, requested[k]);
    }
  }

  lemma TemptingMark(requested: seq<Detail>, i: nat, j: nat, k: nat)
    requires Crosses(requested, i, j) && k < |requested|
    ensures var m := MapOfDetail(Tempting(requested, i, j)[k]);
            FreshKey(requested) in m && m[FreshKey(requested)] == Meaning(Nulls(k))
  {
    var mark := FreshKey(requested);
    var a, b := requested[i].members, requested[j].members;
    if k == i {
      MergedWellFormed(a, b);
      EntryFacts(Merged(a, b), mark, k);
    } else if k == j {
      EntryFacts(a, mark, k);
    } else {
      EntryFacts(requested[k].members, mark, k);
    }
  }

  lemma TemptingDistinct(requested: seq<Detail>, i: nat, j: nat, le: Collation)
    requires Crosses(requested, i, j)
    ensures AllWellFormed(Tempting(requested, i, j)) && Distinct(Forms(Tempting(requested, i, j), le))
  {
    var approved := Tempting(requested, i, j);
    forall k | 0 <= k < |approved| ensures WellFormed(approved[k]) {
      TemptingServes(requested, i, j, k);
    }
    forall k, l | 0 <= k < l < |approved| ensures Canonical(approved[k], le) != Canonical(approved[l], le) {
      TemptingMark(requested, i, j, k);
      TemptingMark(requested, i, j, l);
      assert |Meaning(Nulls(k)).items| == k && |Meaning(Nulls(l)).items| == l;
      if Canonical(approved[k], le) == Canonical(approved[l], le) {
        CanonicalJsonInjective(approved[k], approved[l], le);
      }
    }
  }

  lemma SwapPermutes<T>(s: seq<T>, i: nat, j: nat)
    requires i < j < |s|
    ensures multiset(s[i := s[j]][j := s[i]]) == multiset(s)
  {
  }

  /** An assignment exists: exchange the two tempting details. */
  lemma TemptingAssignment(requested: seq<Detail>, i: nat, j: nat) returns (chosen: seq<Detail>)
    requires Crosses(requested, i, j)
    ensures Assigns(chosen, Tempting(requested, i, j), requested, Serves)
  {
    var approved := Tempting(requested, i, j);
    chosen := approved[i := approved[j]][j := approved[i]];
    SwapPermutes(approved, i, j);
    forall k | 0 <= k < |requested| ensures Serves(chosen[k], requested[k]) {
      TemptingServes(requested, i, j, k);
      TemptingServes(requested, i, j, i);
      TemptingServes(requested, i, j, j);
    }
  }

  /** But the greedy run gives the i-th requirement the detail that the j-th one needs. */
  lemma TemptingFails(requested: seq<Detail>, i: nat, j: nat, le: Collation)
    requires TotalPreorder(le) && Separates(le) && Crosses(requested, i, j)
    ensures !Greedy(Tempting(requested, i, j), requested, le)
  {
    var approved := Tempting(requested, i, j);
    forall k | 0 <= k <= i ensures Fits(approved[k], requested[k], le) {
      TemptingServes(requested, i, j, k);
      FitsIsServes(approved[k], requested[k], le);
    }
    GreedySkips(approved, requested, i + 1, le);
    TemptingDistinct(requested, i, j, le);
    TemptingRestFails(requested, i, j, le);
  }

  lemma TemptingRestFails(requested: seq<Detail>, i: nat, j: nat, le: Collation)
    requires TotalPreorder(le) && Separates(le) && Crosses(requested, i, j)
    ensures !Greedy(Tempting(requested, i, j)[i + 1..], requested[i + 1..], le)
  {
    var rest, wanted := Tempting(requested, i, j)[i + 1..], requested[i + 1..];
    TemptingDistinct(requested, i, j, le);
    if Greedy(rest, wanted, le) {
      var chosen := GreedyAssigns(rest, wanted, le);
      TemptingShortage(requested, i, j, chosen);
    }
  }

  /** The candidates that serve a requirement. */
  ghost function Server(requirement: Detail): Detail -> bool { (d: Detail) => Serves(d, requirement) }

  lemma TemptingShortage(requested: seq<Detail>, i: nat, j: nat, chosen: seq<Detail>)
    requires Crosses(requested, i, j)
    ensures !Assigns(chosen, Tempting(requested, i, j)[i + 1..], requested[i + 1..], Serves)
  {
    var covers := Server(requested[j]);
    TemptingCount(requested, i, j);
    if Assigns(chosen, Tempting(requested, i, j)[i + 1..], requested[i + 1..], Serves) {
      ServesTransitive(requested[j]);
      AssignsNeeds(chosen, Tempting(requested, i, j)[i + 1..], requested[i + 1..], Serves, covers, covers);
    }
  }

  lemma ServesTransitive(least: Detail)
    ensures forall c: Detail, r: Detail | Serves(c, r) && Serves(r, least) :: Serves(c, least)
  {
  }

  lemma TemptingCount(requested: seq<Detail>, i: nat, j: nat)
    requires Crosses(requested, i, j)
    ensures Count(Tempting(requested, i, j)[i + 1..], Server(requested[j])) < Count(requested[i + 1..], Server(requested[j]))
  {
    TemptingLess(requested, i, j);
    CountsLess(Tempting(requested, i, j), requested, i + 1, j);
  }

  /** The k-th candidate serves the j-th requirement only if the k-th requirement does; the j-th does not. */
  ghost predicate ServesLess(approved: seq<Detail>, requested: seq<Detail>, j: nat, k: nat)
    requires |approved| == |requested| && j < |requested| && k < |requested|
  {
    && (Serves(approved[k], requested[j]) ==> Serves(requested[k], requested[j]))
    && (k == j ==> !Serves(approved[j], requested[j]) && Serves(requested[j], requested[j]))
  }

  ghost predicate ServesLessFrom(approved: seq<Detail>, requested: seq<Detail>, j: nat, start: nat)
    requires |approved| == |requested| && j < |requested|
  {
    forall k {:trigger ServesLess(approved, requested, j, k)} | start <= k < |requested| :: ServesLess(approved, requested, j, k)
  }

  lemma TemptingLess(requested: seq<Detail>, i: nat, j: nat)
    requires Crosses(requested, i, j)
    ensures ServesLessFrom(Tempting(requested, i, j), requested, j, i + 1)
  {
    forall k | i + 1 <= k < |requested| ensures ServesLess(Tempting(requested, i, j), requested, j, k) {
      TemptingCovers(requested, i, j, k);
    }
  }

  lemma CountsLess(approved: seq<Detail>, requested: seq<Detail>, start: nat, j: nat)
    requires |approved| == |requested| && start <= j < |requested|
    requires ServesLessFrom(approved, requested, j, start)
    ensures Count(approved[start..], Server(requested[j])) < Count(requested[start..], Server(requested[j]))
  {
    var covers := Server(requested[j]);
    forall k | start <= k < |requested|
      ensures (covers(approved[k]) ==> covers(requested[k])) && (k == j ==> !covers(approved[k]) && covers(requested[k]))
    {
      assert ServesLess(approved, requested, j, k);
    }
    CountsDrop(approved, requested, start, j, covers);
  }

  lemma CountsDrop<T>(approved: seq<T>, requested: seq<T>, start: nat, j: nat, covers: T -> bool)
    requires |approved| == |requested| && start <= j < |requested|
    requires forall k | start <= k < |requested| ::
      (covers(approved[k]) ==> covers(requested[k])) && (k == j ==> !covers(approved[k]) && covers(requested[k]))
    ensures Count(approved[start..], covers) < Count(requested[start..], covers)
  {
    CountTails(approved, requested, start, j, covers);
  }

  lemma TemptingCovers(requested: seq<Detail>, i: nat, j: nat, k: nat)
    requires Crosses(requested, i, j) && i < k < |requested|
    ensures k == j ==> !Serves(Tempting(requested, i, j)[k], requested[j]) && Serves(requested[k], requested[j])
    ensures Serves(Tempting(requested, i, j)[k], requested[j]) ==> Serves(requested[k], requested[j])
  {
    if k == j {
      TemptingServes(requested, i, j, j);
    } else {
      EntryServes(requested[k].members, FreshKey(requested), k, requested[j]);
    }
  }

  // ---- The result ----

  lemma {:induction false} SetSizeIsDistinct<T>(s: seq<T>)
    ensures |set x | x in s| == |s| <==> Distinct(s)
    ensures |set x | x in s| <= |s|
  {
    if s != [] {
      SetSizeIsDistinct(s[1..]);
      var all, tail := set x | x in s, set x | x in s[1..];
      assert s == [s[0]] + s[1..];
      assert all == tail + {s[0]};
      if Distinct(s) {
        TailMembers(s, s[0]);
      } else if s[0] !in s[1..] {
        NotDistinctTail(s);
      }
    }
  }

  lemma NotDistinctTail<T>(s: seq<T>)
    requires s != [] && !Distinct(s) && s[0] !in s[1..]
    ensures !Distinct(s[1..])
  {
    var i, j :| 0 <= i < j < |s| && s[i] == s[j];
    assert s[1..][j - 1] == s[j];
    assert s[1..][i - 1] == s[i];
  }

  /** Whatever it accepts is a one-to-one assignment of the approved details to the requirements, and
      no two of these mean the same unless the collation ties two keys. */
  lemma MatchIsSound(approved: seq<Detail>, requested: seq<Detail>, le: Collation) returns (chosen: seq<Detail>)
    requires AllWellFormed(approved) && AllWellFormed(requested) && MatchesRequest(approved, requested, le)
    ensures Assigns(chosen, approved, requested, Serves)
    ensures TotalPreorder(le) && Separates(le) ==> Distinct(DetailMeanings(approved))
  {
    SetSizeIsDistinct(Forms(approved, le));
    if TotalPreorder(le) && Separates(le) {
      forall i, j | 0 <= i < j < |approved| ensures Meaning(approved[i]) != Meaning(approved[j]) {
        assert Forms(approved, le)[i] != Forms(approved, le)[j];
        SameFormSameMeaning(approved[i], approved[j], le);
      }
    }
    chosen := GreedyAssigns(approved, requested, le);
  }

  /** Accepts every duplicate-free approval that could be assigned to these requirements. */
  ghost predicate AcceptsAllAssignable(requested: seq<Detail>, le: Collation) {
    forall approved, chosen {:trigger Assigns(chosen, approved, requested, Serves)} |
      && AllWellFormed(approved)
      && Distinct(Forms(approved, le))
      && Assigns(chosen, approved, requested, Serves) ::
      MatchesRequest(approved, requested, le)
  }

  /** One approval: an assignable list without repetition is accepted if, where one of its details meets
      two requirements, all of them that meet the earlier meet the later. */
  lemma ExchangeableApprovalAccepted(chosen: seq<Detail>, approved: seq<Detail>, requested: seq<Detail>, le: Collation)
    requires TotalPreorder(le) && Separates(le) && AllWellFormed(approved) && AllWellFormed(requested)
    requires Distinct(Forms(approved, le)) && Assigns(chosen, approved, requested, Serves)
    requires Exchanges(approved, requested, Serves)
    ensures MatchesRequest(approved, requested, le)
  {
    SetSizeIsDistinct(Forms(approved, le));
    assert |multiset(chosen)| == |multiset(approved)|;
    GreedyCompletes(chosen, approved, requested, le);
  }

  /** So it is if none of its details meets two requirements, whatever the order of these. */
  lemma UnambiguousApprovalAccepted(chosen: seq<Detail>, approved: seq<Detail>, requested: seq<Detail>, le: Collation)
    requires TotalPreorder(le) && Separates(le) && AllWellFormed(approved) && AllWellFormed(requested)
    requires Distinct(Forms(approved, le)) && Assigns(chosen, approved, requested, Serves)
    requires forall c, j, k | c in approved && 0 <= j < k < |requested| :: !(Serves(c, requested[j]) && Serves(c, requested[k]))
    ensures MatchesRequest(approved, requested, le)
  {
    ExchangeableApprovalAccepted(chosen, approved, requested, le);
  }

  /** First-fit matching misses no assignable approval exactly when, of any two requirements
      that one detail could meet, the later one asks for no more than the earlier. */
  lemma MatchIsCompleteExactlyWhenSpecificFirst(requested: seq<Detail>, le: Collation)
    requires TotalPreorder(le) && Separates(le) && AllWellFormed(requested)
    ensures AcceptsAllAssignable(requested, le) <==> SpecificFirst(requested)
  {
    if SpecificFirst(requested) {
      forall approved, chosen | AllWellFormed(approved) && Distinct(Forms(approved, le))
                                && Assigns(chosen, approved, requested, Serves)
        ensures MatchesRequest(approved, requested, le)
      {
        SpecificFirstExchanges(approved, requested);
        ExchangeableApprovalAccepted(chosen, approved, requested, le);
      }
    } else {
      var i, j :| 0 <= i < j < |requested| && !SpecificBefore(requested[i], requested[j]);
      TemptingDistinct(requested, i, j, le);
      var chosen := TemptingAssignment(requested, i, j);
      TemptingFails(requested, i, j, le);
    }
  }
}
