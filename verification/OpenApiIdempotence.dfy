/** When expanding an expanded value again changes nothing. */
module OpenApiIdempotence {
  import opened Options
  import opened Texts
  import opened CanonicalJson
  import opened OpenApiDocuments
  import opened OpenApiExpansion
  import opened OpenApiOrder

  // ---- References alone ----

  /** Every reference in the value stands alone in its object. */
  ghost predicate Bare(v: Json)
    decreases v
  {
    if RefOf(v).Some? then v == RefOnly(RefOf(v).value)
    else match v
      case Arr(items) => forall i | 0 <= i < |items| :: Bare(items[i])
      case Obj(members) => forall i | 0 <= i < |members| :: Bare(members[i].value)
      case _ => true
  }

  lemma {:induction false} ResultsBare(v: Json, doc: Json, seen: set<Text>, le: Collation, out: Json)
    requires Plain(v) && Plain(doc) && Dereference(v, doc, seen, le) == Some(out)
    ensures Bare(out)
    decreases AllRefs(doc) + AllRefs(v) - seen, v
  {
    if RefOf(v).Some? {
      var ref := RefOf(v).value;
      if ref in seen {
        RefOfRefOnly(ref);
      } else {
        TargetSmaller(v, doc, seen);
        ResultsBare(Target(doc, ref).value, doc, seen + {ref}, le, out);
      }
    } else if v.Arr? || v.Obj? {
      if v.Arr? { DereferencedItems(v.items, doc, seen, le, out); } else { DereferencedMembers(v.members, doc, seen, le, out); }
      var values := Expanded(Parts(v), doc, seen, le);
      forall i | 0 <= i < |values| ensures Bare(values[i]) {
        PartSmaller(v, i, doc, seen);
        PlainParts(v, i);
        ResultsBare(Parts(v)[i], doc, seen, le, values[i]);
      }
      if v.Obj? {
        ExpandedNoRef(v.members, doc, seen, le);
        SortedBare(v.members, values, le);
      }
    }
  }

  lemma SortedBare(members: seq<Pair<Json>>, values: seq<Json>, le: Collation)
    requires |values| == |members| && forall i | 0 <= i < |values| :: Bare(values[i])
    ensures forall j | 0 <= j < |members| :: Bare(SortByKey(WithValues(members, values), le)[j].value)
  {
    var entries := WithValues(members, values);
    var sorted := SortByKey(entries, le);
    SortSameEntries(entries, le);
    forall j | 0 <= j < |sorted| ensures Bare(sorted[j].value) {
      assert sorted[j] in sorted;
    }
  }

  // ---- A value whose references expand to themselves ----

  ghost predicate Stays(v: Json, doc: Json, le: Collation) {
    Dereference(v, doc, {}, le) == Some(v)
  }

  /** A value in order stays exactly if each of its references does. */
  lemma {:induction false} StaysByReferences(v: Json, doc: Json, le: Collation)
    requires InOrder(v, le) && Bare(v)
    ensures Stays(v, doc, le) <==> forall r | r in Live(v) :: Stays(RefOnly(r), doc, le)
    decreases v
  {
    if RefOf(v).None? && (v.Arr? || v.Obj?) {
      forall i | 0 <= i < |Parts(v)|
        ensures Stays(Parts(v)[i], doc, le) <==> forall r | r in Live(Parts(v)[i]) :: Stays(RefOnly(r), doc, le)
      {
        PartSmaller(v, i, doc, {});
        StaysByReferences(Parts(v)[i], doc, le);
      }
      StaysByParts(v, doc, le);
      forall r ensures r in Live(v) <==> SomeLive(Parts(v), r) { PartsLive(v, r); }
    }
  }

  lemma StaysByParts(v: Json, doc: Json, le: Collation)
    requires InOrder(v, le) && RefOf(v).None? && (v.Arr? || v.Obj?)
    ensures Stays(v, doc, le) <==> forall i | 0 <= i < |Parts(v)| :: Stays(Parts(v)[i], doc, le)
  {
    match v
    case Arr(items) =>
      ArrayStays(items, doc, le);
      assert Parts(v) == items;
    case Obj(members) =>
      ObjectStays(members, doc, le);
      assert Parts(v) == MemberValues(members);
  }

  lemma ArrayStays(items: seq<Json>, doc: Json, le: Collation)
    ensures Stays(Arr(items), doc, le) <==> forall i | 0 <= i < |items| :: Stays(items[i], doc, le)
  {
    if Stays(Arr(items), doc, le) { DereferencedItems(items, doc, {}, le, Arr(items)); }
    if forall i | 0 <= i < |items| :: Stays(items[i], doc, le) {
      assert forall i | 0 <= i < |items| :: Stays(items[i], doc, le) ==> Dereference(items[i], doc, {}, le) == Some(items[i]);
      ItemsStay(items, doc, {}, le);
    }
  }

  lemma ObjectStays(members: seq<Pair<Json>>, doc: Json, le: Collation)
    requires Sorted(members, le) && RefOf(Obj(members)).None?
    ensures Stays(Obj(members), doc, le) <==> forall i | 0 <= i < |members| :: Stays(MemberValues(members)[i], doc, le)
  {
    if Stays(Obj(members), doc, le) { MembersStayed(members, doc, le); }
    if forall i | 0 <= i < |members| :: Stays(MemberValues(members)[i], doc, le) {
      assert forall i | 0 <= i < |members| :: Stays(MemberValues(members)[i], doc, le) ==>
        Dereference(MemberValues(members)[i], doc, {}, le) == Some(MemberValues(members)[i]);
      MembersStay(members, doc, {}, le);
    }
  }

  lemma MembersStayed(members: seq<Pair<Json>>, doc: Json, le: Collation)
    requires Sorted(members, le) && RefOf(Obj(members)).None? && Stays(Obj(members), doc, le)
    ensures forall i | 0 <= i < |members| :: Stays(MemberValues(members)[i], doc, le)
  {
    DereferencedMembers(members, doc, {}, le, Obj(members));
    var values := Expanded(MemberValues(members), doc, {}, le);
    SortedStays(WithValues(members, values), le);
    forall i | 0 <= i < |members| ensures Stays(MemberValues(members)[i], doc, le) {
      assert WithValues(members, values)[i] == members[i];
    }
  }

  // ---- References that lead back through references alone ----

  /** The reference that the target of `ref` consists of. */
  function NextRef(doc: Json, ref: Text): Option<Text> {
    if Target(doc, ref).Some? then RefOf(Target(doc, ref).value) else None
  }

  /** p follows references whose targets are references, and repeats none of them before its last. */
  ghost predicate BarePath(doc: Json, p: seq<Text>) {
    && p != [] && Distinct(p[..|p| - 1])
    && forall i | 0 <= i < |p| - 1 :: NextRef(doc, p[i]) == Some(p[i + 1])
  }

  /** The reference comes back to itself through references alone. */
  ghost predicate BareCycle(doc: Json, r: Text) {
    exists p :: |p| >= 2 && p[0] == r && p[|p| - 1] == r && BarePath(doc, p)
  }

  // ---- A reference stays exactly if it comes back bare ----

  /** A value that expands to a bare reference is a reference that leads to it through references, up
      to one that is already being expanded. */
  lemma {:induction false} ReferenceMadeBare(v: Json, doc: Json, seen: set<Text>, le: Collation, q: Text) returns (p: seq<Text>)
    requires Plain(v) && Plain(doc) && Dereference(v, doc, seen, le) == Some(RefOnly(q)) && LocalRef(q)
    ensures RefOf(v).Some? && BarePath(doc, p) && p[0] == RefOf(v).value && p[|p| - 1] == q
    ensures forall i | 0 <= i < |p| - 1 :: p[i] !in seen
    decreases AllRefs(doc) + AllRefs(v) - seen, v
  {
    RefOfRefOnly(q);
    MadeByReference(v, doc, seen, le, q);
    var ref := RefOf(v).value;
    if ref in seen {
      RefOfRefOnly(ref);
      p := [ref];
    } else {
      TargetSmaller(v, doc, seen);
      var rest := ReferenceMadeBare(Target(doc, ref).value, doc, seen + {ref}, le, q);
      p := [ref] + rest;
      LongerBarePath(doc, ref, rest);
    }
  }

  lemma MadeByReference(v: Json, doc: Json, seen: set<Text>, le: Collation, q: Text)
    requires Plain(v) && Dereference(v, doc, seen, le) == Some(RefOnly(q)) && LocalRef(q)
    ensures RefOf(v).Some?
  {
    RefOfRefOnly(q);
    if v.Obj? && RefOf(v).None? {
      DereferencedMembers(v.members, doc, seen, le, RefOnly(q));
      ExpandedNoRef(v.members, doc, seen, le);
    }
  }

  lemma LongerBarePath(doc: Json, ref: Text, rest: seq<Text>)
    requires BarePath(doc, rest) && NextRef(doc, ref) == Some(rest[0]) && forall i | 0 <= i < |rest| - 1 :: rest[i] != ref
    ensures BarePath(doc, [ref] + rest)
  {
    var p := [ref] + rest;
    assert p[..|p| - 1] == [ref] + rest[..|rest| - 1];
    forall i | 0 <= i < |p| - 1 ensures NextRef(doc, p[i]) == Some(p[i + 1]) {
      if i > 0 { assert NextRef(doc, rest[i - 1]) == Some(rest[i]); }
    }
  }

  /** Following a bare path whose last reference is being expanded leads to that reference. */
  lemma {:induction false} BarePathExpands(v: Json, doc: Json, seen: set<Text>, le: Collation, p: seq<Text>)
    requires BarePath(doc, p) && RefOf(v) == Some(p[0]) && p[|p| - 1] in seen
    requires forall i | 0 <= i < |p| - 1 :: p[i] !in seen
    ensures Dereference(v, doc, seen, le) == Some(RefOnly(p[|p| - 1]))
    decreases |p|
  {
    if |p| > 1 {
      assert NextRef(doc, p[0]) == Some(p[1]);
      ShorterBarePath(doc, p);
      NotAhead(p);
      BarePathExpands(Target(doc, p[0]).value, doc, seen + {p[0]}, le, p[1..]);
    }
  }

  lemma ShorterBarePath(doc: Json, p: seq<Text>)
    requires BarePath(doc, p) && |p| > 1
    ensures BarePath(doc, p[1..])
  {
    var rest := p[1..];
    assert forall i, j | 0 <= i < j < |rest| - 1 :: rest[i] == p[..|p| - 1][i + 1] && rest[j] == p[..|p| - 1][j + 1];
    forall i | 0 <= i < |rest| - 1 ensures NextRef(doc, rest[i]) == Some(rest[i + 1]) {
      assert NextRef(doc, p[i + 1]) == Some(p[i + 2]);
    }
  }

  lemma ReferenceStaysExactly(doc: Json, r: Text, le: Collation)
    requires Plain(doc) && LocalRef(r)
    ensures Stays(RefOnly(r), doc, le) <==> BareCycle(doc, r)
  {
    if Stays(RefOnly(r), doc, le) { StayingComesBack(doc, r, le); }
    if BareCycle(doc, r) { ComingBackStays(doc, r, le); }
  }

  lemma StayingComesBack(doc: Json, r: Text, le: Collation)
    requires Plain(doc) && LocalRef(r) && Stays(RefOnly(r), doc, le)
    ensures BareCycle(doc, r)
  {
    StayingTarget(doc, r, le);
    var rest := ReferenceMadeBare(Target(doc, r).value, doc, {r}, le, r);
    LongerBarePath(doc, r, rest);
    var p := [r] + rest;
    assert |p| >= 2 && p[0] == r && p[|p| - 1] == r && BarePath(doc, p);
  }

  lemma StayingTarget(doc: Json, r: Text, le: Collation)
    requires Plain(doc) && LocalRef(r) && Stays(RefOnly(r), doc, le)
    ensures Target(doc, r).Some? && Plain(Target(doc, r).value)
    ensures Dereference(Target(doc, r).value, doc, {r}, le) == Some(RefOnly(r))
  {
    RefOfRefOnly(r);
    TargetSmaller(RefOnly(r), doc, {});
    assert {} + {r} == {r};
  }

  lemma ComingBackStays(doc: Json, r: Text, le: Collation)
    requires LocalRef(r) && BareCycle(doc, r)
    ensures Stays(RefOnly(r), doc, le)
  {
    RefOfRefOnly(r);
    var p :| |p| >= 2 && p[0] == r && p[|p| - 1] == r && BarePath(doc, p);
    ShorterBarePath(doc, p);
    NotAhead(p);
    assert NextRef(doc, p[0]) == Some(p[1]);
    assert {} + {r} == {r};
    BarePathExpands(Target(doc, r).value, doc, {r}, le, p[1..]);
  }

  lemma NotAhead(p: seq<Text>)
    requires |p| > 1 && Distinct(p[..|p| - 1])
    ensures forall i | 0 <= i < |p[1..]| - 1 :: p[1..][i] != p[0]
  {
    assert forall i | 0 <= i < |p| - 1 :: p[..|p| - 1][i] == p[i];
  }

  // ---- The result ----

  lemma {:induction false} LiveAreLocal(v: Json)
    ensures forall r | r in Live(v) :: LocalRef(r)
    decreases v
  {
    if RefOf(v).None? && (v.Arr? || v.Obj?) {
      forall r | r in Live(v) ensures LocalRef(r) {
        PartsLive(v, r);
        var i :| 0 <= i < |Parts(v)| && r in Live(Parts(v)[i]);
        PartSmaller(v, i, v, {});
        LiveAreLocal(Parts(v)[i]);
      }
    }
  }

  /** Expanding the result again changes nothing exactly if each reference left in it comes back to
      itself through references alone. */
  lemma IdempotentExactly(v: Json, doc: Json, le: Collation, out: Json)
    requires TotalPreorder(le) && Plain(v) && Plain(doc) && Dereference(v, doc, {}, le) == Some(out)
    ensures Dereference(out, doc, {}, le) == Some(out) <==> forall r | r in Live(out) :: BareCycle(doc, r)
  {
    ResultsInOrder(v, doc, {}, le, out);
    ResultsBare(v, doc, {}, le, out);
    StaysByReferences(out, doc, le);
    LiveAreLocal(out);
    forall r | r in Live(out) ensures Stays(RefOnly(r), doc, le) <==> BareCycle(doc, r) {
      ReferenceStaysExactly(doc, r, le);
    }
  }

  // ---- As a condition on the document ----

  lemma BareEdges(doc: Json, r: Text)
    requires NextRef(doc, r).Some?
    ensures Edges(doc, r) == {NextRef(doc, r).value}
  {
  }

  lemma RestDistinct(p: seq<Text>)
    requires |p| > 1 && p[0] == p[|p| - 1] && Distinct(p[..|p| - 1])
    ensures Distinct(p[1..])
  {
    assert forall i | 0 <= i < |p| - 1 :: p[..|p| - 1][i] == p[i];
  }

  /** A bare cycle begun one reference later. */
  lemma TurnedCycle(doc: Json, p: seq<Text>)
    requires |p| > 1 && p[0] == p[|p| - 1] && BarePath(doc, p)
    ensures BarePath(doc, p[1..] + [p[1]])
  {
    var turned := p[1..] + [p[1]];
    RestDistinct(p);
    assert turned[..|turned| - 1] == p[1..];
    forall i | 0 <= i < |turned| - 1 ensures NextRef(doc, turned[i]) == Some(turned[i + 1]) {
      if i < |p| - 2 {
        assert NextRef(doc, p[i + 1]) == Some(p[i + 2]);
      } else {
        assert NextRef(doc, p[0]) == Some(p[1]);
      }
    }
  }

  /** The next reference of a bare cycle comes back to itself along the same cycle. */
  lemma NextOnBareCycle(doc: Json, r: Text, q: Text)
    requires BareCycle(doc, r) && q in Edges(doc, r)
    ensures BareCycle(doc, q)
  {
    var p :| |p| >= 2 && p[0] == r && p[|p| - 1] == r && BarePath(doc, p);
    assert NextRef(doc, p[0]) == Some(p[1]);
    BareEdges(doc, r);
    TurnedCycle(doc, p);
    var turned := p[1..] + [p[1]];
    assert |turned| >= 2 && turned[0] == q && turned[|turned| - 1] == q;
  }

  lemma {:induction false} AlongBareCycle(doc: Json, p: seq<Text>, i: nat)
    requires i < |p| && Path(doc, p) && BareCycle(doc, p[i])
    ensures BareCycle(doc, p[|p| - 1])
    decreases |p| - i
  {
    if i < |p| - 1 {
      NextOnBareCycle(doc, p[i], p[i + 1]);
      AlongBareCycle(doc, p, i + 1);
    }
  }

  /** On the way to a reference that comes back, and once around, some reference is left over. */
  lemma CyclicLeavesSome(v: Json, doc: Json, le: Collation, out: Json, r: Text) returns (q: Text)
    requires Plain(v) && Plain(doc) && Dereference(v, doc, {}, le) == Some(out) && Met(doc, v, r) && Cyclic(doc, r)
    ensures q in Live(out) && (BareCycle(doc, q) ==> BareCycle(doc, r))
  {
    var p := Lasso(doc, v, r);
    var i := LeftOnPath(v, doc, le, out, p);
    q := p[i];
    if BareCycle(doc, q) { AlongBareCycle(doc, p, i); }
  }

  lemma LeftOnPath(v: Json, doc: Json, le: Collation, out: Json, p: seq<Text>) returns (i: nat)
    requires Plain(v) && Plain(doc) && Dereference(v, doc, {}, le) == Some(out)
    requires p != [] && p[0] in Live(v) && Path(doc, p) && !Distinct(p)
    ensures i < |p| && p[i] in Live(out)
  {
    if Avoids(p, Live(out)) {
      NoReturnUnlessLeft(v, doc, {}, le, out, p);
      assert false;
    }
    i :| 0 <= i < |p| && p[i] in Live(out);
  }

  /** Expanding again changes nothing exactly if every reference met that leads back to itself does so
      through references alone. */
  lemma IdempotentExactlyOnDocument(v: Json, doc: Json, le: Collation, out: Json)
    requires TotalPreorder(le) && Plain(v) && Plain(doc) && Dereference(v, doc, {}, le) == Some(out)
    ensures Dereference(out, doc, {}, le) == Some(out) <==> forall r | Met(doc, v, r) && Cyclic(doc, r) :: BareCycle(doc, r)
  {
    IdempotentExactly(v, doc, le, out);
    if forall r | r in Live(out) :: BareCycle(doc, r) {
      forall r | Met(doc, v, r) && Cyclic(doc, r) ensures BareCycle(doc, r) {
        var q := CyclicLeavesSome(v, doc, le, out, r);
      }
    }
    if forall r | Met(doc, v, r) && Cyclic(doc, r) :: BareCycle(doc, r) {
      forall r | r in Live(out) ensures BareCycle(doc, r) {
        LeftoversAreCyclic(v, doc, {}, le, out, r);
      }
    }
  }

  /** Where no reference met leads back to itself, expanding again changes nothing. */
  lemma ExpansionIsIdempotent(v: Json, doc: Json, le: Collation, out: Json, again: Json, seen: set<Text>)
    requires TotalPreorder(le) && Plain(v) && Plain(doc) && Dereference(v, doc, {}, le) == Some(out)
    requires forall r :: Met(doc, v, r) ==> !Cyclic(doc, r)
    ensures Dereference(out, again, seen, le) == Some(out)
  {
    ExpandsCompletelyExactlyWhenAcyclic(v, doc, le, out);
    ResultsInOrder(v, doc, {}, le, out);
    NothingToExpand(out, again, seen, le);
  }

  // ---- Two cyclic documents ----

  /** An object whose one member refers back to the object. */
  function Loop(key: Text, ref: Text): Json { Obj([Pair(key, RefOnly(ref))]) }

  /** On a cyclic document the second expansion goes one level deeper than the first. */
  lemma CyclicExpandsFurther(doc: Json, key: Text, ref: Text, le: Collation)
    requires key != REF_KEY && LocalRef(ref) && Target(doc, ref) == Some(Loop(key, ref))
    ensures Dereference(RefOnly(ref), doc, {}, le) == Some(Loop(key, ref))
    ensures Dereference(Loop(key, ref), doc, {}, le) == Some(Obj([Pair(key, Loop(key, ref))]))
    ensures Loop(key, ref) != Obj([Pair(key, Loop(key, ref))])
  {
    RefOfRefOnly(ref);
    assert {} + {ref} == {ref};
    assert Dereference(RefOnly(ref), doc, {ref}, le) == Some(RefOnly(ref));
    OneMember(key, RefOnly(ref), doc, {ref}, le, RefOnly(ref));
    OneMember(key, RefOnly(ref), doc, {}, le, Loop(key, ref));
  }

  /** A reference to itself leads back to itself, and stays as it is however often it is expanded. */
  lemma SelfReferenceStays(doc: Json, ref: Text, le: Collation, seen: set<Text>)
    requires LocalRef(ref) && Target(doc, ref) == Some(RefOnly(ref))
    ensures Cyclic(doc, ref) && BareCycle(doc, ref) && Dereference(RefOnly(ref), doc, seen, le) == Some(RefOnly(ref))
  {
    RefOfRefOnly(ref);
    LiveRefOnly(ref);
    EdgeReaches(doc, ref, ref);
    var p := [ref, ref];
    assert |p| >= 2 && p[0] == ref && p[|p| - 1] == ref && BarePath(doc, p);
    if ref !in seen {
      assert Dereference(RefOnly(ref), doc, seen, le) == Dereference(RefOnly(ref), doc, seen + {ref}, le);
    }
  }

  lemma PointsToMember(v: Json)
    ensures Target(Obj([Pair([0x61], v)]), [HASH, SLASH, 0x61]) == Some(v)
  {
    var doc := Obj([Pair([0x61], v)]);
    assert [HASH, SLASH, 0x61][2..] == [0x61];
    assert Segments([0x61][1..]) == [[]];
    assert [0x61] + [] == [0x61];
    assert Segments([0x61]) == [[0x61]];
    assert doc.members[0].key == [0x61];
    assert Lookup(doc.members, [0x61]) == Some(v);
    assert Follow(doc, [[0x61]]) == Follow(v, [[0x61]][1..]);
  }

  /** Two such documents: `{"a":{"b":{"$ref":"#/a"}}}` and `{"a":{"$ref":"#/a"}}`. */
  lemma CyclicDocumentsExist()
    ensures var ref := [HASH, SLASH, 0x61];
            && LocalRef(ref)
            && Target(Obj([Pair([0x61], Loop([0x62], ref))]), ref) == Some(Loop([0x62], ref))
            && Target(Obj([Pair([0x61], RefOnly(ref))]), ref) == Some(RefOnly(ref))
  {
    PointsToMember(Loop([0x62], [HASH, SLASH, 0x61]));
    PointsToMember(RefOnly([HASH, SLASH, 0x61]));
  }
}
