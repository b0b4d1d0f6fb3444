/** Expanded documents are in order, and do not depend on the order of the members they came from. */
module OpenApiOrder {
  import opened Options
  import opened Texts
  import opened CanonicalJson
  import opened OpenApiDocuments
  import opened OpenApiExpansion

  ghost predicate InOrder(v: Json, le: Collation)
    decreases v
  {
    match v
    case Arr(items) => forall i | 0 <= i < |items| :: InOrder(items[i], le)
    case Obj(members) => Sorted(members, le) && forall i | 0 <= i < |members| :: InOrder(members[i].value, le)
    case _ => true
  }

  lemma {:induction false} SortedStays<T>(entries: seq<Pair<T>>, le: Collation)
    requires Sorted(entries, le)
    ensures SortByKey(entries, le) == entries
  {
    if entries != [] {
      assert Sorted(entries[1..], le);
      SortedStays(entries[1..], le);
      assert entries == [entries[0]] + entries[1..];
      if |entries| > 1 { assert le(entries[0].key, entries[1].key); }
    }
  }

  lemma {:induction false} ResultsInOrder(v: Json, doc: Json, seen: set<Text>, le: Collation, out: Json)
    requires TotalPreorder(le) && Dereference(v, doc, seen, le) == Some(out)
    ensures InOrder(out, le)
    decreases AllRefs(doc) + AllRefs(v) - seen, v
  {
    if RefOf(v).Some? {
      var ref := RefOf(v).value;
      assert ref in AllRefs(v);
      if ref !in seen { ResultsInOrder(Target(doc, ref).value, doc, seen + {ref}, le, out); }
    } else if v.Arr? || v.Obj? {
      if v.Arr? { DereferencedItems(v.items, doc, seen, le, out); } else { DereferencedMembers(v.members, doc, seen, le, out); }
      var values := Expanded(Parts(v), doc, seen, le);
      forall i | 0 <= i < |values| ensures InOrder(values[i], le) {
        PartSmaller(v, i, doc, seen);
        ResultsInOrder(Parts(v)[i], doc, seen, le, values[i]);
      }
      if v.Obj? { SortedInOrder(v.members, values, le); }
    }
  }

  lemma SortedInOrder(members: seq<Pair<Json>>, values: seq<Json>, le: Collation)
    requires TotalPreorder(le) && |values| == |members| && forall i | 0 <= i < |values| :: InOrder(values[i], le)
    ensures InOrder(Obj(SortByKey(WithValues(members, values), le)), le)
  {
    var entries := WithValues(members, values);
    var sorted := SortByKey(entries, le);
    SortSorts(entries, le);
    SortSameEntries(entries, le);
    forall j | 0 <= j < |sorted| ensures InOrder(sorted[j].value, le) {
      assert sorted[j] in sorted;
    }
  }

  /** A value in order with no reference in it expands to itself, whatever the document. */
  lemma {:induction false} NothingToExpand(v: Json, doc: Json, seen: set<Text>, le: Collation)
    requires InOrder(v, le) && Live(v) == {}
    ensures Dereference(v, doc, seen, le) == Some(v)
    decreases v
  {
    if v.Arr? || v.Obj? {
      forall i | 0 <= i < |Parts(v)| ensures Dereference(Parts(v)[i], doc, seen, le) == Some(Parts(v)[i]) {
        LivePart(v, i);
        PartSmaller(v, i, doc, seen);
        NothingToExpand(Parts(v)[i], doc, seen, le);
      }
      assert v.Arr? ==> Parts(v) == v.items;
      assert v.Obj? ==> Parts(v) == MemberValues(v.members);
      if v.Arr? { ItemsStay(v.items, doc, seen, le); } else { MembersStay(v.members, doc, seen, le); }
    }
  }

  lemma ItemsStay(items: seq<Json>, doc: Json, seen: set<Text>, le: Collation)
    requires forall i | 0 <= i < |items| :: Dereference(items[i], doc, seen, le) == Some(items[i])
    ensures Dereference(Arr(items), doc, seen, le) == Some(Arr(items))
  {
    var results := seq(|items|, i requires 0 <= i < |items| => Dereference(items[i], doc, seen, le));
    assert AllSome(results) && Values(results) == items;
  }

  lemma MembersStay(members: seq<Pair<Json>>, doc: Json, seen: set<Text>, le: Collation)
    requires RefOf(Obj(members)).None? && Sorted(members, le)
    requires forall i | 0 <= i < |members| :: Dereference(MemberValues(members)[i], doc, seen, le) == Some(MemberValues(members)[i])
    ensures Dereference(Obj(members), doc, seen, le) == Some(Obj(members))
  {
    var results := seq(|members|, i requires 0 <= i < |members| => Dereference(members[i].value, doc, seen, le));
    assert forall i | 0 <= i < |members| :: results[i] == Dereference(MemberValues(members)[i], doc, seen, le);
    assert AllSome(results) && Values(results) == MemberValues(members);
    assert WithValues(members, Values(results)) == members;
    SortedStays(members, le);
  }

  function ResultsOf(members: seq<Pair<Json>>, doc: Json, seen: set<Text>, le: Collation): (r: seq<Option<Json>>)
    ensures |r| == |members|
    ensures forall i | 0 <= i < |r| :: r[i] == Dereference(members[i].value, doc, seen, le)
  {
    seq(|members|, i requires 0 <= i < |members| => Dereference(members[i].value, doc, seen, le))
  }

  lemma ObjectResult(members: seq<Pair<Json>>, doc: Json, seen: set<Text>, le: Collation)
    requires RefOf(Obj(members)).None?
    ensures var r := ResultsOf(members, doc, seen, le);
            Dereference(Obj(members), doc, seen, le)
            == if AllSome(r) then Some(Obj(SortByKey(WithValues(members, Values(r)), le))) else None
  {
    assert seq(|members|, i requires 0 <= i < |members| => Dereference(members[i].value, doc, seen, le))
           == ResultsOf(members, doc, seen, le);
  }

  // ---- Small objects ----

  lemma OneMember(key: Text, value: Json, doc: Json, seen: set<Text>, le: Collation, out: Json)
    requires key != REF_KEY && Dereference(value, doc, seen, le) == Some(out)
    ensures Dereference(Obj([Pair(key, value)]), doc, seen, le) == Some(Obj([Pair(key, out)]))
  {
    var members := [Pair(key, value)];
    assert members[0].key == key;
    assert Lookup(members, REF_KEY).None?;
    ObjectResult(members, doc, seen, le);
    assert Values(ResultsOf(members, doc, seen, le)) == [out];
    assert WithValues(members, [out]) == [Pair(key, out)];
    SortedStays([Pair(key, out)], le);
  }

  lemma RefOfRefOnly(ref: Text)
    requires LocalRef(ref)
    ensures RefOf(RefOnly(ref)) == Some(ref)
  {
    var members := [Pair(REF_KEY, Str(ref))];
    assert members[0].key == REF_KEY && Lookup(members, REF_KEY) == Some(Str(ref));
  }

  /** Why `$ref` members must not hold objects: such an object can expand to a reference that was
      never met. Here `{"$ref":{"$ref":ref}}` becomes `{"$ref":other}`. */
  lemma ObjectUnderRefMakesReference(doc: Json, ref: Text, other: Text, le: Collation)
    requires LocalRef(ref) && LocalRef(other) && Target(doc, ref) == Some(Str(other))
    ensures var v := Obj([Pair(REF_KEY, RefOnly(ref))]);
            && !Plain(v) && Live(v) == {ref}
            && Dereference(v, doc, {}, le) == Some(RefOnly(other)) && Live(RefOnly(other)) == {other}
  {
    var members := [Pair(REF_KEY, RefOnly(ref))];
    assert members[0].key == REF_KEY && Lookup(members, REF_KEY) == Some(RefOnly(ref));
    RefOfRefOnly(ref);
    LiveRefOnly(ref);
    LiveRefOnly(other);
    assert {} + {ref} == {ref};
    assert Dereference(RefOnly(ref), doc, {}, le) == Dereference(Str(other), doc, {ref}, le);
    ObjectResult(members, doc, {}, le);
    assert Values(ResultsOf(members, doc, {}, le)) == [Str(other)];
    assert WithValues(members, [Str(other)]) == [Pair(REF_KEY, Str(other))];
    SortedStays([Pair(REF_KEY, Str(other))], le);
  }

  // ---- Member order ----

  ghost predicate Alike(a: Json, b: Json) {
    WellFormed(a) && WellFormed(b) && Meaning(a) == Meaning(b)
  }

  ghost predicate AlikeIfAny(a: Option<Json>, b: Option<Json>) {
    (a.None? && b.None?) || (a.Some? && b.Some? && Alike(a.value, b.value))
  }

  lemma AlikeMembers(m: seq<Pair<Json>>, n: seq<Pair<Json>>, i: nat, j: nat)
    requires Alike(Obj(m), Obj(n)) && i < |m| && j < |n| && m[i].key == n[j].key
    ensures Alike(m[i].value, n[j].value)
  {
    assert Keys(Meanings(m)) == Keys(m) && Keys(Meanings(n)) == Keys(n);
    EntryOfMap(Meanings(m), i);
    EntryOfMap(Meanings(n), j);
    assert Meaning(Obj(m)).members == MapOf(Meanings(m)) && Meaning(Obj(n)).members == MapOf(Meanings(n));
  }

  lemma AlikeKeys(m: seq<Pair<Json>>, n: seq<Pair<Json>>, k: Text)
    requires Alike(Obj(m), Obj(n))
    ensures k in Keys(m) <==> k in Keys(n)
  {
    assert Keys(Meanings(m)) == Keys(m) && Keys(Meanings(n)) == Keys(n);
    MapKeys(Meanings(m));
    MapKeys(Meanings(n));
    assert Meaning(Obj(m)).members == MapOf(Meanings(m)) && Meaning(Obj(n)).members == MapOf(Meanings(n));
  }

  lemma AlikeLookup(m: seq<Pair<Json>>, n: seq<Pair<Json>>, k: Text)
    requires Alike(Obj(m), Obj(n))
    ensures AlikeIfAny(Lookup(m, k), Lookup(n, k))
  {
    AlikeKeys(m, n, k);
    var a, b := Lookup(m, k), Lookup(n, k);
    if a.Some? {
      var i :| 0 <= i < |m| && m[i].key == k && m[i].value == a.value;
      assert Keys(m)[i] == k;
      assert k in Keys(n);
    }
    if b.Some? {
      var j :| 0 <= j < |n| && n[j].key == k && n[j].value == b.value;
      assert Keys(n)[j] == k;
      assert k in Keys(m);
    }
    if a.Some? && b.Some? { AlikeFound(m, n, k, a.value, b.value); }
  }

  lemma AlikeFound(m: seq<Pair<Json>>, n: seq<Pair<Json>>, k: Text, a: Json, b: Json)
    requires Alike(Obj(m), Obj(n)) && Lookup(m, k) == Some(a) && Lookup(n, k) == Some(b)
    ensures Alike(a, b)
  {
    var i :| 0 <= i < |m| && m[i].key == k && m[i].value == a;
    var j :| 0 <= j < |n| && n[j].key == k && n[j].value == b;
    AlikeMembers(m, n, i, j);
  }

  lemma AlikeKinds(a: Json, b: Json)
    requires Alike(a, b)
    ensures (a.Str? <==> b.Str?) && (a.Str? ==> a == b)
    ensures (a.Obj? <==> b.Obj?) && (a.Arr? <==> b.Arr?)
    ensures !a.Obj? && !a.Arr? ==> a == b
    ensures a.Arr? ==> |a.items| == |b.items| && forall i | 0 <= i < |a.items| :: Alike(a.items[i], b.items[i])
  {
    if a.Arr? {
      assert |Meaning(a).items| == |Meaning(b).items|;
      forall i | 0 <= i < |a.items| ensures Alike(a.items[i], b.items[i]) {
        assert Meaning(a).items[i] == Meaning(b).items[i];
      }
    }
  }

  lemma AlikeRefs(a: Json, b: Json)
    requires Alike(a, b)
    ensures RefOf(a) == RefOf(b)
  {
    AlikeKinds(a, b);
    if a.Obj? {
      AlikeLookup(a.members, b.members, REF_KEY);
      if Lookup(a.members, REF_KEY).Some? {
        AlikeKinds(Lookup(a.members, REF_KEY).value, Lookup(b.members, REF_KEY).value);
      }
    }
  }

  lemma {:induction false} AlikeFollow(a: Json, b: Json, segments: seq<Text>)
    requires Alike(a, b)
    ensures AlikeIfAny(Follow(a, segments), Follow(b, segments))
    decreases |segments|
  {
    if segments != [] {
      AlikeStep(a, b, segments[0]);
      if Step(a, segments[0]).Some? {
        AlikeFollow(Step(a, segments[0]).value, Step(b, segments[0]).value, segments[1..]);
      }
    }
  }

  lemma AlikeStep(a: Json, b: Json, segment: Text)
    requires Alike(a, b)
    ensures AlikeIfAny(Step(a, segment), Step(b, segment))
  {
    AlikeKinds(a, b);
    if a.Obj? { AlikeLookup(a.members, b.members, segment); }
  }

  /** Equal results under equal keys make equal objects. */
  lemma SameObject(m: seq<Pair<Json>>, n: seq<Pair<Json>>, rm: seq<Option<Json>>, rn: seq<Option<Json>>, le: Collation)
    requires TotalPreorder(le) && Separates(le)
    requires |rm| == |m| && |rn| == |n| && Distinct(Keys(m)) && Distinct(Keys(n))
    requires forall k :: k in Keys(m) <==> k in Keys(n)
    requires forall i, j | 0 <= i < |m| && 0 <= j < |n| && m[i].key == n[j].key :: rm[i] == rn[j]
    ensures AllSome(rm) <==> AllSome(rn)
    ensures AllSome(rm) ==> SortByKey(WithValues(m, Values(rm)), le) == SortByKey(WithValues(n, Values(rn)), le)
  {
    forall i | 0 <= i < |m| ensures exists j :: 0 <= j < |n| && n[j].key == m[i].key && rn[j] == rm[i] {
      assert Keys(m)[i] in Keys(n);
      var j :| 0 <= j < |n| && Keys(n)[j] == m[i].key;
      assert n[j].key == m[i].key;
    }
    forall j | 0 <= j < |n| ensures exists i :: 0 <= i < |m| && n[j].key == m[i].key && rn[j] == rm[i] {
      assert Keys(n)[j] in Keys(m);
      var i :| 0 <= i < |m| && Keys(m)[i] == n[j].key;
      assert n[j].key == m[i].key;
    }
    if AllSome(rm) {
      assert AllSome(rn);
      var e, f := WithValues(m, Values(rm)), WithValues(n, Values(rn));
      assert Keys(e) == Keys(m) && Keys(f) == Keys(n);
      SameEntriesSameMap(e, f);
      SameMapSameOrder(e, f, le);
    }
  }

  lemma SameEntriesSameMap<T>(e: seq<Pair<T>>, f: seq<Pair<T>>)
    requires Distinct(Keys(e)) && Distinct(Keys(f)) && forall k :: k in Keys(e) <==> k in Keys(f)
    requires forall i, j | 0 <= i < |e| && 0 <= j < |f| && e[i].key == f[j].key :: e[i].value == f[j].value
    ensures MapOf(e) == MapOf(f)
  {
    MapKeys(e);
    MapKeys(f);
    forall k | k in MapOf(e) ensures k in MapOf(f) && MapOf(e)[k] == MapOf(f)[k] {
      assert k in Keys(e) && k in Keys(f);
      var i :| 0 <= i < |e| && Keys(e)[i] == k;
      var j :| 0 <= j < |f| && Keys(f)[j] == k;
      EntryOfMap(e, i);
      EntryOfMap(f, j);
    }
    forall k | k in MapOf(f) ensures k in MapOf(e) {
      assert k in Keys(f) && k in Keys(e);
    }
  }

  lemma FewerLeft(v: Json, doc: Json, seen: set<Text>)
    requires RefOf(v).Some? && RefOf(v).value !in seen && Target(doc, RefOf(v).value).Some?
    ensures var ref, target := RefOf(v).value, Target(doc, RefOf(v).value).value;
            AllRefs(doc) + AllRefs(target) - (seen + {ref}) < AllRefs(doc) + AllRefs(v) - seen
  {
    assert RefOf(v).value in AllRefs(v);
  }

  /** Values and documents that mean the same expand to the very same value. */
  lemma {:induction false} ExpansionIgnoresMemberOrder(v: Json, w: Json, doc: Json, docw: Json, seen: set<Text>, le: Collation)
    requires TotalPreorder(le) && Separates(le) && Alike(v, w) && Alike(doc, docw)
    ensures Dereference(v, doc, seen, le) == Dereference(w, docw, seen, le)
    decreases AllRefs(doc) + AllRefs(v) - seen, v, 1
  {
    AlikeRefs(v, w);
    AlikeKinds(v, w);
    if RefOf(v).Some? {
      var ref := RefOf(v).value;
      if ref !in seen {
        AlikeFollow(doc, docw, Segments(ref[2..]));
        if Target(doc, ref).Some? {
          FewerLeft(v, doc, seen);
          ExpansionIgnoresMemberOrder(Target(doc, ref).value, Target(docw, ref).value, doc, docw, seen + {ref}, le);
        }
      }
    } else if v.Arr? {
      ArraysExpandAlike(v, w, doc, docw, seen, le);
    } else if v.Obj? {
      ObjectsExpandAlike(v, w, doc, docw, seen, le);
    }
  }

  lemma {:induction false} ArraysExpandAlike(v: Json, w: Json, doc: Json, docw: Json, seen: set<Text>, le: Collation)
    requires TotalPreorder(le) && Separates(le) && Alike(v, w) && Alike(doc, docw)
    requires v.Arr? && w.Arr? && |v.items| == |w.items| && forall i | 0 <= i < |v.items| :: Alike(v.items[i], w.items[i])
    ensures Dereference(v, doc, seen, le) == Dereference(w, docw, seen, le)
    decreases AllRefs(doc) + AllRefs(v) - seen, v, 0
  {
    forall i | 0 <= i < |v.items| ensures Dereference(v.items[i], doc, seen, le) == Dereference(w.items[i], docw, seen, le) {
      PartSmaller(v, i, doc, seen);
      ExpansionIgnoresMemberOrder(v.items[i], w.items[i], doc, docw, seen, le);
    }
    SameItems(v.items, w.items, doc, docw, seen, le);
  }

  lemma {:induction false} ObjectsExpandAlike(v: Json, w: Json, doc: Json, docw: Json, seen: set<Text>, le: Collation)
    requires TotalPreorder(le) && Separates(le) && Alike(v, w) && Alike(doc, docw)
    requires v.Obj? && w.Obj? && RefOf(v).None? && RefOf(w).None?
    ensures Dereference(v, doc, seen, le) == Dereference(w, docw, seen, le)
    decreases AllRefs(doc) + AllRefs(v) - seen, v, 0
  {
    forall i, j | 0 <= i < |v.members| && 0 <= j < |w.members| && v.members[i].key == w.members[j].key
      ensures Dereference(v.members[i].value, doc, seen, le) == Dereference(w.members[j].value, docw, seen, le)
    {
      AlikeMembers(v.members, w.members, i, j);
      PartSmaller(v, i, doc, seen);
      ExpansionIgnoresMemberOrder(v.members[i].value, w.members[j].value, doc, docw, seen, le);
    }
    SameMembers(v.members, w.members, doc, docw, seen, le);
  }

  lemma SameMembers(m: seq<Pair<Json>>, n: seq<Pair<Json>>, doc: Json, docw: Json, seen: set<Text>, le: Collation)
    requires TotalPreorder(le) && Separates(le) && Alike(Obj(m), Obj(n)) && RefOf(Obj(m)).None? && RefOf(Obj(n)).None?
    requires forall i, j | 0 <= i < |m| && 0 <= j < |n| && m[i].key == n[j].key ::
               Dereference(m[i].value, doc, seen, le) == Dereference(n[j].value, docw, seen, le)
    ensures Dereference(Obj(m), doc, seen, le) == Dereference(Obj(n), docw, seen, le)
  {
    var rm, rn := ResultsOf(m, doc, seen, le), ResultsOf(n, docw, seen, le);
    forall k ensures k in Keys(m) <==> k in Keys(n) { AlikeKeys(m, n, k); }
    SameObject(m, n, rm, rn, le);
    ObjectResult(m, doc, seen, le);
    ObjectResult(n, docw, seen, le);
  }

  lemma SameItems(a: seq<Json>, b: seq<Json>, doc: Json, docw: Json, seen: set<Text>, le: Collation)
    requires |a| == |b| && forall i | 0 <= i < |a| :: Dereference(a[i], doc, seen, le) == Dereference(b[i], docw, seen, le)
    ensures Dereference(Arr(a), doc, seen, le) == Dereference(Arr(b), docw, seen, le)
  {
    var ra := seq(|a|, i requires 0 <= i < |a| => Dereference(a[i], doc, seen, le));
    var rb := seq(|b|, i requires 0 <= i < |b| => Dereference(b[i], docw, seen, le));
    assert ra == rb;
  }
}
