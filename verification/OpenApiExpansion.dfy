/** When expanding references leaves none behind. */
module OpenApiExpansion {
  import opened Options
  import opened Texts
  import opened CanonicalJson
  import opened OpenApiDocuments

  /** The references that expansion meets in a value: what stands beside a `$ref` is dropped. */
  function Live(v: Json): set<Text>
    decreases v
  {
    if RefOf(v).Some? then {RefOf(v).value}
    else match v
      case Arr(items) => (set i, r | 0 <= i < |items| && r in Live(items[i]) :: r)
      case Obj(members) => (set i, r | 0 <= i < |members| && r in Live(members[i].value) :: r)
      case _ => {}
  }

  /** Objects have each key once, and no `$ref` member holds an object. */
  ghost predicate Plain(v: Json)
    decreases v
  {
    match v
    case Arr(items) => forall i | 0 <= i < |items| :: Plain(items[i])
    case Obj(members) =>
      && Distinct(Keys(members))
      && (Lookup(members, REF_KEY).Some? ==> !Lookup(members, REF_KEY).value.Obj?)
      && forall i | 0 <= i < |members| :: Plain(members[i].value)
    case _ => true
  }

  lemma {:induction false} FollowPlain(v: Json, segments: seq<Text>)
    requires Plain(v) && Follow(v, segments).Some?
    ensures Plain(Follow(v, segments).value)
    decreases |segments|
  {
    if segments != [] {
      FollowPlain(Step(v, segments[0]).value, segments[1..]);
    }
  }

  // ---- The reference graph ----

  function Edges(doc: Json, ref: Text): set<Text> {
    if Target(doc, ref).Some? then Live(Target(doc, ref).value) else {}
  }

  ghost predicate Path(doc: Json, p: seq<Text>) {
    forall i | 0 <= i < |p| - 1 :: p[i + 1] in Edges(doc, p[i])
  }

  ghost predicate Reaches(doc: Json, r: Text, q: Text) {
    exists p: seq<Text> :: |p| >= 2 && p[0] == r && p[|p| - 1] == q && Path(doc, p)
  }

  ghost predicate Cyclic(doc: Json, r: Text) { Reaches(doc, r, r) }

  /** The reference is met when expanding v. */
  ghost predicate Met(doc: Json, v: Json, r: Text) {
    r in Live(v) || exists q :: q in Live(v) && Reaches(doc, q, r)
  }

  lemma EdgeReaches(doc: Json, r: Text, q: Text)
    requires q in Edges(doc, r)
    ensures Reaches(doc, r, q)
  {
    var p := [r, q];
    assert |p| >= 2 && p[0] == r && p[|p| - 1] == q && Path(doc, p);
  }

  lemma EdgeThenReaches(doc: Json, r: Text, q: Text, s: Text)
    requires q in Edges(doc, r) && Reaches(doc, q, s)
    ensures Reaches(doc, r, s)
  {
    var p :| |p| >= 2 && p[0] == q && p[|p| - 1] == s && Path(doc, p);
    var longer := [r] + p;
    forall i | 0 <= i < |longer| - 1 ensures longer[i + 1] in Edges(doc, longer[i]) {
      if i > 0 { assert p[i] in Edges(doc, p[i - 1]); }
    }
    assert |longer| >= 2 && longer[0] == r && longer[|longer| - 1] == s && Path(doc, longer);
  }

  lemma MetThroughTarget(doc: Json, ref: Text, r: Text)
    requires Target(doc, ref).Some? && Met(doc, Target(doc, ref).value, r)
    ensures Reaches(doc, ref, r)
  {
    if r in Live(Target(doc, ref).value) {
      EdgeReaches(doc, ref, r);
    } else {
      var q :| q in Live(Target(doc, ref).value) && Reaches(doc, q, r);
      EdgeThenReaches(doc, ref, q, r);
    }
  }

  lemma MetInPart(doc: Json, v: Json, part: Json, r: Text)
    requires Met(doc, part, r) && Live(part) <= Live(v)
    ensures Met(doc, v, r)
  {
    if r !in Live(part) {
      var q :| q in Live(part) && Reaches(doc, q, r);
      assert q in Live(v);
    }
  }

  // ---- The parts of an expanded value ----

  function MemberValues(members: seq<Pair<Json>>): (r: seq<Json>)
    ensures |r| == |members| && forall i | 0 <= i < |r| :: r[i] == members[i].value
  {
    seq(|members|, i requires 0 <= i < |members| => members[i].value)
  }

  function Parts(v: Json): seq<Json>
    requires v.Arr? || v.Obj?
  {
    if v.Arr? then v.items else MemberValues(v.members)
  }

  predicate SomeLive(vs: seq<Json>, r: Text) {
    exists i :: 0 <= i < |vs| && r in Live(vs[i])
  }

  ghost predicate Expands(vs: seq<Json>, doc: Json, seen: set<Text>, le: Collation) {
    forall i | 0 <= i < |vs| :: Dereference(vs[i], doc, seen, le).Some?
  }

  function Expanded(vs: seq<Json>, doc: Json, seen: set<Text>, le: Collation): (r: seq<Json>)
    requires Expands(vs, doc, seen, le)
    ensures |r| == |vs| && forall i | 0 <= i < |vs| :: Dereference(vs[i], doc, seen, le) == Some(r[i])
  {
    seq(|vs|, i requires 0 <= i < |vs| => Dereference(vs[i], doc, seen, le).value)
  }

  lemma DereferencedItems(items: seq<Json>, doc: Json, seen: set<Text>, le: Collation, out: Json)
    requires Dereference(Arr(items), doc, seen, le) == Some(out)
    ensures Expands(items, doc, seen, le) && out == Arr(Expanded(items, doc, seen, le))
  {
    var results := seq(|items|, i requires 0 <= i < |items| => Dereference(items[i], doc, seen, le));
    assert AllSome(results);
    assert forall i | 0 <= i < |items| :: results[i] == Dereference(items[i], doc, seen, le);
    assert Values(results) == Expanded(items, doc, seen, le);
  }

  lemma DereferencedMembers(members: seq<Pair<Json>>, doc: Json, seen: set<Text>, le: Collation, out: Json)
    requires RefOf(Obj(members)).None? && Dereference(Obj(members), doc, seen, le) == Some(out)
    ensures Expands(MemberValues(members), doc, seen, le)
    ensures out == Obj(SortByKey(WithValues(members, Expanded(MemberValues(members), doc, seen, le)), le))
  {
    var results := seq(|members|, i requires 0 <= i < |members| => Dereference(members[i].value, doc, seen, le));
    assert AllSome(results);
    assert forall i | 0 <= i < |members| :: results[i] == Dereference(MemberValues(members)[i], doc, seen, le);
    assert Values(results) == Expanded(MemberValues(members), doc, seen, le);
  }

  lemma PartsLive(v: Json, r: Text)
    requires (v.Arr? || v.Obj?) && RefOf(v).None?
    ensures r in Live(v) <==> SomeLive(Parts(v), r)
  {
    if v.Obj? {
      if SomeLive(Parts(v), r) {
        var i :| 0 <= i < |Parts(v)| && r in Live(Parts(v)[i]);
        assert r in Live(v.members[i].value);
      }
      if r in Live(v) {
        var i :| 0 <= i < |v.members| && r in Live(v.members[i].value);
        assert r in Live(Parts(v)[i]);
      }
    }
  }

  lemma SortKeepsLive(entries: seq<Pair<Json>>, le: Collation, r: Text)
    ensures SomeLive(MemberValues(SortByKey(entries, le)), r) <==> SomeLive(MemberValues(entries), r)
  {
    var sorted := SortByKey(entries, le);
    SortSameEntries(entries, le);
    if SomeLive(MemberValues(sorted), r) {
      var j :| 0 <= j < |sorted| && r in Live(MemberValues(sorted)[j]);
      assert sorted[j] in entries;
      var i :| 0 <= i < |entries| && entries[i] == sorted[j];
      assert MemberValues(entries)[i] == MemberValues(sorted)[j];
    }
    if SomeLive(MemberValues(entries), r) {
      var i :| 0 <= i < |entries| && r in Live(MemberValues(entries)[i]);
      assert entries[i] in sorted;
      var j :| 0 <= j < |sorted| && sorted[j] == entries[i];
      assert MemberValues(entries)[i] == MemberValues(sorted)[j];
    }
  }

  /** An expanded object is no reference. */
  lemma ExpandedNoRef(members: seq<Pair<Json>>, doc: Json, seen: set<Text>, le: Collation)
    requires Plain(Obj(members)) && RefOf(Obj(members)).None? && Expands(MemberValues(members), doc, seen, le)
    ensures RefOf(Obj(SortByKey(WithValues(members, Expanded(MemberValues(members), doc, seen, le)), le))).None?
  {
    var values := Expanded(MemberValues(members), doc, seen, le);
    var entries := WithValues(members, values);
    var sorted := SortByKey(entries, le);
    var found := Lookup(sorted, REF_KEY);
    if found.Some? {
      var j :| 0 <= j < |sorted| && sorted[j].key == REF_KEY && sorted[j].value == found.value;
      SortSameEntries(entries, le);
      assert sorted[j] in entries;
      var i :| 0 <= i < |entries| && entries[i] == sorted[j];
      LookupMember(members, i);
      NonObjectKept(members[i].value, doc, seen, le, found.value);
    }
  }

  lemma NonObjectKept(v: Json, doc: Json, seen: set<Text>, le: Collation, out: Json)
    requires !v.Obj? && Dereference(v, doc, seen, le) == Some(out)
    ensures out.Str? ==> out == v
  {
  }

  /** The references left in an expanded value are those left in its parts. */
  lemma ExpandedLive(v: Json, doc: Json, seen: set<Text>, le: Collation, out: Json, r: Text)
    requires Plain(v) && (v.Arr? || v.Obj?) && RefOf(v).None? && Dereference(v, doc, seen, le) == Some(out)
    ensures Expands(Parts(v), doc, seen, le)
    ensures r in Live(out) <==> SomeLive(Expanded(Parts(v), doc, seen, le), r)
  {
    if v.Arr? {
      DereferencedItems(v.items, doc, seen, le, out);
      PartsLive(out, r);
    } else {
      DereferencedMembers(v.members, doc, seen, le, out);
      ExpandedNoRef(v.members, doc, seen, le);
      PartsLive(out, r);
      var entries := WithValues(v.members, Expanded(Parts(v), doc, seen, le));
      SortKeepsLive(entries, le, r);
      assert MemberValues(entries) == Expanded(Parts(v), doc, seen, le);
    }
  }

  lemma PlainParts(v: Json, i: nat)
    requires Plain(v) && (v.Arr? || v.Obj?) && i < |Parts(v)|
    ensures Plain(Parts(v)[i])
  {
  }

  lemma LiveRefOnly(ref: Text)
    requires LocalRef(ref)
    ensures Live(RefOnly(ref)) == {ref}
  {
    var members := [Pair(REF_KEY, Str(ref))];
    assert members[0].key == REF_KEY;
    assert Lookup(members, REF_KEY) == Some(Str(ref));
  }

  // ---- What is left ----

  /** A reference left in the result was met, and was already being expanded: it was in `seen`, or it
      leads back to itself. */
  lemma {:induction false} LeftoversAreCyclic(v: Json, doc: Json, seen: set<Text>, le: Collation, out: Json, r: Text)
    requires Plain(v) && Plain(doc) && Dereference(v, doc, seen, le) == Some(out) && r in Live(out)
    ensures Met(doc, v, r) && (r in seen || Cyclic(doc, r))
    decreases AllRefs(doc) + AllRefs(v) - seen, v
  {
    if RefOf(v).Some? {
      var ref := RefOf(v).value;
      if ref in seen {
        LiveRefOnly(ref);
      } else {
        TargetSmaller(v, doc, seen);
        LeftoversAreCyclic(Target(doc, ref).value, doc, seen + {ref}, le, out, r);
        MetThroughTarget(doc, ref, r);
      }
    } else if v.Arr? || v.Obj? {
      var i, part := LeftoverPart(v, doc, seen, le, out, r);
      PartSmaller(v, i, doc, seen);
      LeftoversAreCyclic(Parts(v)[i], doc, seen, le, part, r);
      MetInPart(doc, v, Parts(v)[i], r);
    }
  }

  /** Following a reference that is not yet being expanded leaves fewer to follow. */
  lemma TargetSmaller(v: Json, doc: Json, seen: set<Text>)
    requires Plain(doc) && RefOf(v).Some? && RefOf(v).value !in seen && Target(doc, RefOf(v).value).Some?
    ensures var ref, target := RefOf(v).value, Target(doc, RefOf(v).value).value;
            Plain(target) && AllRefs(doc) + AllRefs(target) - (seen + {ref}) < AllRefs(doc) + AllRefs(v) - seen
  {
    var ref := RefOf(v).value;
    FollowPlain(doc, Segments(ref[2..]));
    assert ref in AllRefs(v);
  }

  lemma LeftoverPart(v: Json, doc: Json, seen: set<Text>, le: Collation, out: Json, r: Text) returns (i: nat, part: Json)
    requires Plain(v) && (v.Arr? || v.Obj?) && RefOf(v).None? && Dereference(v, doc, seen, le) == Some(out) && r in Live(out)
    ensures i < |Parts(v)| && Plain(Parts(v)[i]) && Live(Parts(v)[i]) <= Live(v)
    ensures Dereference(Parts(v)[i], doc, seen, le) == Some(part) && r in Live(part)
  {
    ExpandedLive(v, doc, seen, le, out, r);
    i :| 0 <= i < |Parts(v)| && r in Live(Expanded(Parts(v), doc, seen, le)[i]);
    part := Expanded(Parts(v), doc, seen, le)[i];
    PlainParts(v, i);
    LivePart(v, i);
  }

  lemma LivePart(v: Json, i: nat)
    requires (v.Arr? || v.Obj?) && RefOf(v).None? && i < |Parts(v)|
    ensures Live(Parts(v)[i]) <= Live(v)
  {
    forall r | r in Live(Parts(v)[i]) ensures r in Live(v) {
      PartsLive(v, r);
    }
  }

  lemma PartSmaller(v: Json, i: nat, doc: Json, seen: set<Text>)
    requires (v.Arr? || v.Obj?) && i < |Parts(v)|
    ensures AllRefs(doc) + AllRefs(Parts(v)[i]) - seen <= AllRefs(doc) + AllRefs(v) - seen
    ensures Parts(v)[i] < v
  {
    if v.Obj? { assert Parts(v)[i] == v.members[i].value; }
  }

  predicate Avoids(p: seq<Text>, refs: set<Text>) {
    forall i | 0 <= i < |p| :: p[i] !in refs
  }

  lemma AvoidsFewer(p: seq<Text>, more: set<Text>, fewer: set<Text>)
    requires Avoids(p, more) && fewer <= more
    ensures Avoids(p, fewer)
  {
  }

  /** A path of references none of which is left over does not come back to where it has been. */
  lemma {:induction false} NoReturnUnlessLeft(v: Json, doc: Json, seen: set<Text>, le: Collation, out: Json, p: seq<Text>)
    requires Plain(v) && Plain(doc) && Dereference(v, doc, seen, le) == Some(out)
    requires p != [] && p[0] in Live(v) && Path(doc, p) && Avoids(p, Live(out))
    ensures Distinct(p) && Avoids(p, seen)
    decreases AllRefs(doc) + AllRefs(v) - seen, v, 1
  {
    if RefOf(v).Some? {
      LiveOfReference(v);
      NoReturnBehind(v, doc, seen, le, out, p);
    } else {
      NoReturnInside(v, doc, seen, le, out, p);
    }
  }

  lemma {:induction false} NoReturnInside(v: Json, doc: Json, seen: set<Text>, le: Collation, out: Json, p: seq<Text>)
    requires Plain(v) && Plain(doc) && RefOf(v).None? && Dereference(v, doc, seen, le) == Some(out)
    requires p != [] && p[0] in Live(v) && Path(doc, p) && Avoids(p, Live(out))
    ensures Distinct(p) && Avoids(p, seen)
    decreases AllRefs(doc) + AllRefs(v) - seen, v, 0
  {
    var i, part := ExpandedPart(v, doc, seen, le, out, p[0]);
    AvoidsFewer(p, Live(out), Live(part));
    PartSmaller(v, i, doc, seen);
    NoReturnUnlessLeft(Parts(v)[i], doc, seen, le, part, p);
  }

  lemma LiveOfReference(v: Json)
    requires RefOf(v).Some?
    ensures Live(v) == {RefOf(v).value}
  {
  }

  lemma {:induction false} NoReturnBehind(v: Json, doc: Json, seen: set<Text>, le: Collation, out: Json, p: seq<Text>)
    requires Plain(doc) && RefOf(v).Some? && Dereference(v, doc, seen, le) == Some(out)
    requires p != [] && p[0] == RefOf(v).value && Path(doc, p) && Avoids(p, Live(out))
    ensures Distinct(p) && Avoids(p, seen)
    decreases AllRefs(doc) + AllRefs(v) - seen, v, 0
  {
    FollowedOn(v, doc, seen, le, out);
    if |p| > 1 {
      PathRest(doc, p);
      NoReturnUnlessLeft(Target(doc, p[0]).value, doc, seen + {p[0]}, le, out, p[1..]);
      DistinctAhead(p, seen);
    }
  }

  /** A reference that is not left over was followed. */
  lemma FollowedOn(v: Json, doc: Json, seen: set<Text>, le: Collation, out: Json)
    requires Plain(doc) && RefOf(v).Some? && Dereference(v, doc, seen, le) == Some(out) && RefOf(v).value !in Live(out)
    ensures var ref := RefOf(v).value;
            && ref !in seen && Target(doc, ref).Some? && Plain(Target(doc, ref).value)
            && Dereference(Target(doc, ref).value, doc, seen + {ref}, le) == Some(out)
            && AllRefs(doc) + AllRefs(Target(doc, ref).value) - (seen + {ref}) < AllRefs(doc) + AllRefs(v) - seen
  {
    LiveRefOnly(RefOf(v).value);
    TargetSmaller(v, doc, seen);
  }

  /** If nothing is left, no path of references comes back to where it has been. */
  lemma CompleteMeansNoReturn(v: Json, doc: Json, seen: set<Text>, le: Collation, out: Json, p: seq<Text>)
    requires Plain(v) && Plain(doc) && Dereference(v, doc, seen, le) == Some(out) && Live(out) == {}
    requires p != [] && p[0] in Live(v) && Path(doc, p)
    ensures Distinct(p) && Avoids(p, seen)
  {
    NoReturnUnlessLeft(v, doc, seen, le, out, p);
  }

  /** The part that a live reference comes from, and what becomes of it. */
  lemma ExpandedPart(v: Json, doc: Json, seen: set<Text>, le: Collation, out: Json, r: Text) returns (i: nat, part: Json)
    requires Plain(v) && Plain(doc) && RefOf(v).None? && Dereference(v, doc, seen, le) == Some(out) && r in Live(v)
    ensures (v.Arr? || v.Obj?) && i < |Parts(v)| && r in Live(Parts(v)[i]) && Plain(Parts(v)[i])
    ensures Dereference(Parts(v)[i], doc, seen, le) == Some(part) && Live(part) <= Live(out)
  {
    PartsLive(v, r);
    i :| 0 <= i < |Parts(v)| && r in Live(Parts(v)[i]);
    PlainParts(v, i);
    ExpandedLive(v, doc, seen, le, out, r);
    part := Expanded(Parts(v), doc, seen, le)[i];
    forall q | q in Live(part) ensures q in Live(out) {
      ExpandedLive(v, doc, seen, le, out, q);
    }
  }

  lemma DistinctAhead(p: seq<Text>, seen: set<Text>)
    requires |p| > 1 && p[0] !in seen && Distinct(p[1..]) && Avoids(p[1..], seen + {p[0]})
    ensures Distinct(p) && Avoids(p, seen)
  {
    assert forall i | 1 <= i < |p| :: p[i] == p[1..][i - 1];
  }

  lemma PathRest(doc: Json, p: seq<Text>)
    requires |p| > 1 && Path(doc, p)
    ensures Path(doc, p[1..]) && p[1] in Edges(doc, p[0])
  {
    assert p[0 + 1] in Edges(doc, p[0]);
    forall i | 0 <= i < |p[1..]| - 1 ensures p[1..][i + 1] in Edges(doc, p[1..][i]) {
      assert p[(i + 1) + 1] in Edges(doc, p[i + 1]);
    }
  }

  lemma PathsJoin(doc: Json, p: seq<Text>, q: seq<Text>)
    requires p != [] && q != [] && Path(doc, p) && Path(doc, q) && p[|p| - 1] == q[0]
    ensures Path(doc, p + q[1..])
  {
    var j := p + q[1..];
    forall i | 0 <= i < |j| - 1 ensures j[i + 1] in Edges(doc, j[i]) {
      if i < |p| - 1 {
        assert p[i + 1] in Edges(doc, p[i]);
      } else {
        var k := i - (|p| - 1);
        assert q[k + 1] in Edges(doc, q[k]);
      }
    }
  }

  /** Expansion leaves no reference exactly when no reference it meets leads back to itself. */
  lemma ExpandsCompletelyExactlyWhenAcyclic(v: Json, doc: Json, le: Collation, out: Json)
    requires Plain(v) && Plain(doc) && Dereference(v, doc, {}, le) == Some(out)
    ensures Live(out) == {} <==> forall r :: Met(doc, v, r) ==> !Cyclic(doc, r)
  {
    if Live(out) == {} {
      forall r | Met(doc, v, r) ensures !Cyclic(doc, r) {
        if Cyclic(doc, r) { NoReturn(v, doc, le, out, r); }
      }
    } else {
      var r :| r in Live(out);
      LeftoversAreCyclic(v, doc, {}, le, out, r);
    }
  }

  lemma NoReturn(v: Json, doc: Json, le: Collation, out: Json, r: Text)
    requires Plain(v) && Plain(doc) && Dereference(v, doc, {}, le) == Some(out)
    requires Met(doc, v, r) && Cyclic(doc, r)
    ensures Live(out) != {}
  {
    if Live(out) == {} {
      var p := Lasso(doc, v, r);
      CompleteMeansNoReturn(v, doc, {}, le, out, p);
    }
  }

  /** A path that starts in the value, comes to r and comes back to r. */
  lemma Lasso(doc: Json, v: Json, r: Text) returns (p: seq<Text>)
    requires Met(doc, v, r) && Cyclic(doc, r)
    ensures p != [] && p[0] in Live(v) && Path(doc, p) && !Distinct(p) && p[|p| - 1] == r
  {
    var lead := Lead(doc, v, r);
    var cycle: seq<Text> :| |cycle| >= 2 && cycle[0] == r && cycle[|cycle| - 1] == r && Path(doc, cycle);
    p := lead + cycle[1..];
    PathsJoin(doc, lead, cycle);
    assert p[|lead| - 1] == r && p[|p| - 1] == r;
  }

  lemma Lead(doc: Json, v: Json, r: Text) returns (lead: seq<Text>)
    requires Met(doc, v, r)
    ensures lead != [] && lead[0] in Live(v) && lead[|lead| - 1] == r && Path(doc, lead)
  {
    if r in Live(v) {
      lead := [r];
    } else {
      var q :| q in Live(v) && Reaches(doc, q, r);
      lead :| |lead| >= 2 && lead[0] == q && lead[|lead| - 1] == r && Path(doc, lead);
    }
  }
}
