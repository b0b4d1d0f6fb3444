/** The semantic snapshot of an OpenAPI document: one entry for each operation of each path. */
module OpenApiSnapshots {
  import opened Options
  import opened Texts
  import opened CanonicalJson
  import opened OpenApiDocuments
  import opened OpenApiExpansion
  import opened OpenApiOrder

  /** The hash of the operation's text stands for the text; its members are in order already. */
  datatype Operation = Operation(method_: Text, path: Text, operationId: Option<Json>, semantic: Text)

  const PATHS: Text := [0x70, 0x61, 0x74, 0x68, 0x73]
  const OPERATION_ID: Text := [0x6F, 0x70, 0x65, 0x72, 0x61, 0x74, 0x69, 0x6F, 0x6E, 0x49, 0x64]
  const CLI_HIDDEN: Text := [0x78, 0x2D, 0x63, 0x6C, 0x69, 0x2D, 0x68, 0x69, 0x64, 0x64, 0x65, 0x6E]
  const TAGS: Text := [0x74, 0x61, 0x67, 0x73]

  /** get, post, put, patch, delete */
  const METHODS: seq<Text> := [
    [0x67, 0x65, 0x74], [0x70, 0x6F, 0x73, 0x74], [0x70, 0x75, 0x74],
    [0x70, 0x61, 0x74, 0x63, 0x68], [0x64, 0x65, 0x6C, 0x65, 0x74, 0x65]]

  predicate Lower(t: Text) { forall i | 0 <= i < |t| :: 0x61 <= t[i] <= 0x7A }

  function Upper(t: Text): (r: Text)
    requires Lower(t)
    ensures |r| == |t| && forall i | 0 <= i < |r| :: r[i] == t[i] - 0x20
  {
    seq(|t|, i requires 0 <= i < |t| => t[i] - 0x20)
  }

  predicate IsMethod(t: Text) { Lower(t) && t in METHODS }

  function Without(members: seq<Pair<Json>>, key: Text): seq<Pair<Json>> {
    if members == [] then []
    else (if members[0].key == key then [] else [members[0]]) + Without(members[1..], key)
  }

  /** Operations hidden from the command line are compared without their tags. */
  function SemanticOperation(op: Json): Json {
    if op.Obj? && Lookup(op.members, CLI_HIDDEN) == Some(Bool(true)) then Obj(Without(op.members, TAGS)) else op
  }

  function EntryKey(path: Text, m: Text): Text { path + [COLON] + m }

  /** The operation under one member of a path item: nothing if the member is no method, None if a
      pointer leads nowhere or the operation is null. */
  function MemberEntries(path: Text, m: Pair<Json>, doc: Json, le: Collation): Option<seq<Pair<Operation>>> {
    if !IsMethod(m.key) then Some([])
    else
      var op := Dereference(m.value, doc, {}, le);
      if op.None? || op.value.Null? then None
      else
        var id := if op.value.Obj? then Lookup(op.value.members, OPERATION_ID) else None;
        Some([Pair(EntryKey(path, Upper(m.key)),
                   Operation(Upper(m.key), path, id, Canonical(SemanticOperation(op.value), le)))])
  }

  /** All lists one after the other, unless one is missing. */
  function Concat<T>(lists: seq<Option<seq<T>>>): Option<seq<T>> {
    if lists == [] then Some([])
    else
      var before := Concat(lists[..|lists| - 1]);
      var last := lists[|lists| - 1];
      if before.None? || last.None? then None else Some(before.value + last.value)
  }

  function Members(v: Json): seq<Pair<Json>> { if v.Obj? then v.members else [] }

  function MemberLists(path: Text, members: seq<Pair<Json>>, doc: Json, le: Collation): (r: seq<Option<seq<Pair<Operation>>>>)
    ensures |r| == |members| && forall i | 0 <= i < |r| :: r[i] == MemberEntries(path, members[i], doc, le)
  {
    seq(|members|, i requires 0 <= i < |members| => MemberEntries(path, members[i], doc, le))
  }

  function PathEntries(path: Text, item: Json, doc: Json, le: Collation): Option<seq<Pair<Operation>>> {
    var expanded := Dereference(item, doc, {}, le);
    if expanded.None? || expanded.value.Null? then None
    else Concat(MemberLists(path, Members(expanded.value), doc, le))
  }

  function IncludedEntries(m: Pair<Json>, includePath: Text -> bool, doc: Json, le: Collation): Option<seq<Pair<Operation>>> {
    if includePath(m.key) then PathEntries(m.key, m.value, doc, le) else Some([])
  }

  function PathLists(paths: seq<Pair<Json>>, includePath: Text -> bool, doc: Json, le: Collation): (r: seq<Option<seq<Pair<Operation>>>>)
    ensures |r| == |paths| && forall i | 0 <= i < |r| :: r[i] == IncludedEntries(paths[i], includePath, doc, le)
  {
    seq(|paths|, i requires 0 <= i < |paths| => IncludedEntries(paths[i], includePath, doc, le))
  }

  function Paths(doc: Json): Option<seq<Pair<Json>>> {
    var paths := if doc.Obj? then Lookup(doc.members, PATHS) else None;
    if paths.None? || paths.value.Null? then None else Some(Members(paths.value))
  }

  /** The entries in the order of their `path:METHOD` keys. */
  function Snapshot(doc: Json, includePath: Text -> bool, le: Collation): Option<seq<Pair<Operation>>> {
    var paths := Paths(doc);
    if paths.None? then None
    else
      var entries := Concat(PathLists(paths.value, includePath, doc, le));
      if entries.None? then None else Some(SortByKey(entries.value, le))
  }

  /** The loop over paths and, inside it, over the members of each path item. */
  method OpenApiSemanticSnapshot(doc: Json, includePath: Text -> bool, le: Collation) returns (snapshot: Option<seq<Pair<Operation>>>)
    ensures snapshot == Snapshot(doc, includePath, le)
  {
    var paths := Paths(doc);
    if paths.None? { return None; }
    ghost var lists := PathLists(paths.value, includePath, doc, le);
    var operations := [];
    var i := 0;
    while i < |paths.value|
      invariant 0 <= i <= |paths.value|
      invariant Concat(lists[..i]) == Some(operations)
    {
      ConcatStep(lists, i);
      var path := paths.value[i].key;
      if includePath(path) {
        var added := ItemOperations(path, paths.value[i].value, doc, le);
        if added.None? {
          ConcatMissing(lists, i);
          return None;
        }
        operations := operations + added.value;
      } else {
        operations := operations + [];
      }
      i := i + 1;
    }
    assert lists[..i] == lists;
    snapshot := Some(SortByKey(operations, le));
  }

  method ItemOperations(path: Text, item: Json, doc: Json, le: Collation) returns (operations: Option<seq<Pair<Operation>>>)
    ensures operations == PathEntries(path, item, doc, le)
  {
    var expanded := Dereference(item, doc, {}, le);
    if expanded.None? || expanded.value.Null? { return None; }
    operations := PathOperations(path, Members(expanded.value), doc, le);
  }

  method PathOperations(path: Text, members: seq<Pair<Json>>, doc: Json, le: Collation) returns (operations: Option<seq<Pair<Operation>>>)
    ensures operations == Concat(MemberLists(path, members, doc, le))
  {
    ghost var lists := MemberLists(path, members, doc, le);
    var pushed := [];
    var i := 0;
    while i < |members|
      invariant 0 <= i <= |members|
      invariant Concat(lists[..i]) == Some(pushed)
    {
      ConcatStep(lists, i);
      if IsMethod(members[i].key) {
        var op := Dereference(members[i].value, doc, {}, le);
        if op.None? || op.value.Null? {
          ConcatMissing(lists, i);
          return None;
        }
        var id := if op.value.Obj? then Lookup(op.value.members, OPERATION_ID) else None;
        pushed := pushed + [Pair(EntryKey(path, Upper(members[i].key)),
                                 Operation(Upper(members[i].key), path, id, Canonical(SemanticOperation(op.value), le)))];
      } else {
        assert pushed + [] == pushed;
      }
      i := i + 1;
    }
    assert lists[..i] == lists;
    operations := Some(pushed);
  }

  lemma ConcatStep<T>(lists: seq<Option<seq<T>>>, i: nat)
    requires i < |lists|
    ensures Concat(lists[..i + 1]) == if Concat(lists[..i]).None? || lists[i].None? then None
                                      else Some(Concat(lists[..i]).value + lists[i].value)
  {
    assert lists[..i + 1][..i] == lists[..i];
  }

  lemma {:induction false} ConcatSome<T>(lists: seq<Option<seq<T>>>)
    ensures Concat(lists).Some? <==> AllSome(lists)
  {
    if lists != [] {
      ConcatSome(lists[..|lists| - 1]);
    }
  }

  lemma ConcatMissing<T>(lists: seq<Option<seq<T>>>, i: nat)
    requires i < |lists| && lists[i].None?
    ensures Concat(lists).None?
  {
    ConcatSome(lists);
  }

  /** The value occurs in one of the lists. */
  ghost predicate InSome<T>(lists: seq<Option<seq<T>>>, x: T) {
    exists i :: 0 <= i < |lists| && lists[i].Some? && x in lists[i].value
  }

  lemma {:induction false} ConcatMembers<T>(lists: seq<Option<seq<T>>>, x: T)
    requires Concat(lists).Some?
    ensures x in Concat(lists).value <==> InSome(lists, x)
  {
    if lists != [] {
      var shorter := lists[..|lists| - 1];
      ConcatMembers(shorter, x);
      if InSome(shorter, x) {
        var i :| 0 <= i < |shorter| && shorter[i].Some? && x in shorter[i].value;
        assert lists[i] == shorter[i];
      }
      if InSome(lists, x) && x !in lists[|lists| - 1].value {
        var i :| 0 <= i < |lists| && lists[i].Some? && x in lists[i].value;
        assert shorter[i] == lists[i];
      }
    }
  }

  // ---- Every operation has its own key ----

  ghost predicate KeysApart(lists: seq<Option<seq<Pair<Operation>>>>) {
    && (forall i | 0 <= i < |lists| && lists[i].Some? :: Distinct(Keys(lists[i].value)))
    && (forall i, j, x, y | 0 <= i < j < |lists| && lists[i].Some? && lists[j].Some? && x in lists[i].value && y in lists[j].value ::
          x.key != y.key)
  }

  lemma {:induction false} ConcatKeysDistinct(lists: seq<Option<seq<Pair<Operation>>>>)
    requires Concat(lists).Some? && KeysApart(lists)
    ensures Distinct(Keys(Concat(lists).value))
  {
    if lists != [] {
      var shorter, last := lists[..|lists| - 1], lists[|lists| - 1].value;
      ShorterApart(lists);
      ConcatKeysDistinct(shorter);
      var front := Concat(shorter).value;
      forall x, y | x in front && y in last ensures x.key != y.key {
        ConcatMembers(shorter, x);
        var i :| 0 <= i < |shorter| && shorter[i].Some? && x in shorter[i].value;
        assert lists[i] == shorter[i];
      }
      JoinedDistinct(front, last);
    }
  }

  lemma ShorterApart(lists: seq<Option<seq<Pair<Operation>>>>)
    requires lists != [] && KeysApart(lists)
    ensures KeysApart(lists[..|lists| - 1])
  {
    var shorter := lists[..|lists| - 1];
    assert forall i | 0 <= i < |shorter| :: shorter[i] == lists[i];
  }

  lemma JoinedDistinct<T>(a: seq<Pair<T>>, b: seq<Pair<T>>)
    requires Distinct(Keys(a)) && Distinct(Keys(b)) && forall x, y | x in a && y in b :: x.key != y.key
    ensures Distinct(Keys(a + b))
  {
    assert Keys(a + b) == Keys(a) + Keys(b);
    forall i, j | 0 <= i < |a| && 0 <= j < |b| ensures Keys(a)[i] != Keys(b)[j] {
      assert a[i] in a && b[j] in b;
    }
  }

  lemma UpperTellsApart(a: Text, b: Text)
    requires Lower(a) && Lower(b) && Upper(a) == Upper(b)
    ensures a == b
  {
    forall i | 0 <= i < |a| ensures a[i] == b[i] {
      assert Upper(a)[i] == Upper(b)[i];
    }
  }

  /** The method has no colon, so the last colon of a key ends its path. */
  lemma EntryKeysTellApart(p: Text, m: Text, q: Text, n: Text)
    requires COLON !in m && COLON !in n && EntryKey(p, m) == EntryKey(q, n)
    ensures p == q && m == n
  {
    NoLongerPath(p, m, q, n);
    NoLongerPath(q, n, p, m);
    assert p == EntryKey(p, m)[..|p|] && q == EntryKey(q, n)[..|q|];
    assert m == EntryKey(p, m)[|p| + 1..] && n == EntryKey(q, n)[|q| + 1..];
  }

  lemma NoLongerPath(p: Text, m: Text, q: Text, n: Text)
    requires COLON !in n && EntryKey(p, m) == EntryKey(q, n)
    ensures |p| <= |q|
  {
    assert EntryKey(p, m)[|p|] == COLON;
    assert forall l | |q| < l < |EntryKey(q, n)| :: EntryKey(q, n)[l] == n[l - |q| - 1] && n[l - |q| - 1] in n;
  }

  lemma MemberKey(path: Text, m: Pair<Json>, doc: Json, le: Collation, x: Pair<Operation>)
    requires MemberEntries(path, m, doc, le).Some? && x in MemberEntries(path, m, doc, le).value
    ensures IsMethod(m.key) && x.key == EntryKey(path, Upper(m.key)) && COLON !in Upper(m.key)
  {
  }

  lemma MemberListsApart(path: Text, members: seq<Pair<Json>>, doc: Json, le: Collation)
    requires Distinct(Keys(members))
    ensures KeysApart(MemberLists(path, members, doc, le))
  {
    var lists := MemberLists(path, members, doc, le);
    forall i, j, x, y | 0 <= i < j < |lists| && lists[i].Some? && lists[j].Some? && x in lists[i].value && y in lists[j].value
      ensures x.key != y.key
    {
      MemberKey(path, members[i], doc, le, x);
      MemberKey(path, members[j], doc, le, y);
      assert Keys(members)[i] != Keys(members)[j];
      if x.key == y.key {
        EntryKeysTellApart(path, Upper(members[i].key), path, Upper(members[j].key));
        UpperTellsApart(members[i].key, members[j].key);
      }
    }
  }

  lemma PathKey(path: Text, item: Json, doc: Json, le: Collation, x: Pair<Operation>)
    requires PathEntries(path, item, doc, le).Some? && x in PathEntries(path, item, doc, le).value
    ensures exists m :: COLON !in m && x.key == EntryKey(path, m)
  {
    var members := Members(Dereference(item, doc, {}, le).value);
    var lists := MemberLists(path, members, doc, le);
    ConcatMembers(lists, x);
    var i :| 0 <= i < |lists| && lists[i].Some? && x in lists[i].value;
    MemberKey(path, members[i], doc, le, x);
  }

  // ---- Expanded values are well formed ----

  lemma {:induction false} FollowWellFormed(v: Json, segments: seq<Text>)
    requires WellFormed(v) && Follow(v, segments).Some?
    ensures WellFormed(Follow(v, segments).value)
    decreases |segments|
  {
    if segments != [] { FollowWellFormed(Step(v, segments[0]).value, segments[1..]); }
  }

  lemma {:induction false} ExpandedWellFormed(v: Json, doc: Json, seen: set<Text>, le: Collation, out: Json)
    requires WellFormed(v) && WellFormed(doc) && Dereference(v, doc, seen, le) == Some(out)
    ensures WellFormed(out)
    decreases AllRefs(doc) + AllRefs(v) - seen, v
  {
    if RefOf(v).Some? {
      var ref := RefOf(v).value;
      assert ref in AllRefs(v);
      if ref !in seen {
        FollowWellFormed(doc, Segments(ref[2..]));
        ExpandedWellFormed(Target(doc, ref).value, doc, seen + {ref}, le, out);
      }
    } else if v.Arr? || v.Obj? {
      if v.Arr? { DereferencedItems(v.items, doc, seen, le, out); } else { DereferencedMembers(v.members, doc, seen, le, out); }
      var values := Expanded(Parts(v), doc, seen, le);
      forall i | 0 <= i < |values| ensures WellFormed(values[i]) {
        PartSmaller(v, i, doc, seen);
        ExpandedWellFormed(Parts(v)[i], doc, seen, le, values[i]);
      }
      if v.Obj? { SortedWellFormed(v.members, values, le); }
    }
  }

  lemma SortedWellFormed(members: seq<Pair<Json>>, values: seq<Json>, le: Collation)
    requires |values| == |members| && Distinct(Keys(members)) && forall i | 0 <= i < |values| :: WellFormed(values[i])
    ensures WellFormed(Obj(SortByKey(WithValues(members, values), le)))
  {
    var entries := WithValues(members, values);
    var sorted := SortByKey(entries, le);
    assert Keys(entries) == Keys(members);
    SortDistinct(entries, le);
    SortSameEntries(entries, le);
    forall j | 0 <= j < |sorted| ensures WellFormed(sorted[j].value) {
      assert sorted[j] in sorted;
    }
  }

  // ---- The snapshot does not depend on member order ----

  lemma PathListsApart(paths: seq<Pair<Json>>, includePath: Text -> bool, doc: Json, le: Collation)
    requires Distinct(Keys(paths)) && WellFormed(doc) && forall i | 0 <= i < |paths| :: WellFormed(paths[i].value)
    ensures KeysApart(PathLists(paths, includePath, doc, le))
  {
    var lists := PathLists(paths, includePath, doc, le);
    forall i | 0 <= i < |lists| && lists[i].Some? ensures Distinct(Keys(lists[i].value)) {
      if includePath(paths[i].key) { PathEntriesDistinct(paths[i].key, paths[i].value, doc, le); }
    }
    forall i, j, x, y | 0 <= i < j < |lists| && lists[i].Some? && lists[j].Some? && x in lists[i].value && y in lists[j].value
      ensures x.key != y.key
    {
      PathKey(paths[i].key, paths[i].value, doc, le, x);
      PathKey(paths[j].key, paths[j].value, doc, le, y);
      var m :| COLON !in m && x.key == EntryKey(paths[i].key, m);
      var n :| COLON !in n && y.key == EntryKey(paths[j].key, n);
      assert Keys(paths)[i] != Keys(paths)[j];
      if x.key == y.key { EntryKeysTellApart(paths[i].key, m, paths[j].key, n); }
    }
  }

  lemma PathEntriesDistinct(path: Text, item: Json, doc: Json, le: Collation)
    requires WellFormed(item) && WellFormed(doc) && PathEntries(path, item, doc, le).Some?
    ensures Distinct(Keys(PathEntries(path, item, doc, le).value))
  {
    var expanded := Dereference(item, doc, {}, le).value;
    ExpandedWellFormed(item, doc, {}, le, expanded);
    MemberListsApart(path, Members(expanded), doc, le);
    ConcatKeysDistinct(MemberLists(path, Members(expanded), doc, le));
  }

  lemma SamePathEntries(path: Text, a: Json, b: Json, doc: Json, other: Json, le: Collation)
    requires TotalPreorder(le) && Separates(le) && Alike(a, b) && Alike(doc, other)
    ensures PathEntries(path, a, doc, le) == PathEntries(path, b, other, le)
  {
    ExpansionIgnoresMemberOrder(a, b, doc, other, {}, le);
    var expanded := Dereference(a, doc, {}, le);
    if expanded.Some? {
      ExpandedWellFormed(a, doc, {}, le, expanded.value);
      SameMembersEntries(path, Members(expanded.value), doc, other, le);
    }
  }

  lemma SameMembersEntries(path: Text, members: seq<Pair<Json>>, doc: Json, other: Json, le: Collation)
    requires TotalPreorder(le) && Separates(le) && Alike(doc, other)
    requires forall i | 0 <= i < |members| :: Alike(members[i].value, members[i].value)
    ensures MemberLists(path, members, doc, le) == MemberLists(path, members, other, le)
  {
    forall i | 0 <= i < |members| ensures MemberEntries(path, members[i], doc, le) == MemberEntries(path, members[i], other, le) {
      ExpansionIgnoresMemberOrder(members[i].value, members[i].value, doc, other, {}, le);
    }
  }

  lemma SamePaths(doc: Json, other: Json)
    requires Alike(doc, other)
    ensures Paths(doc).Some? <==> Paths(other).Some?
    ensures Paths(doc).Some? ==> Alike(Obj(Paths(doc).value), Obj(Paths(other).value))
  {
    AlikeKinds(doc, other);
    if doc.Obj? {
      AlikeLookup(doc.members, other.members, PATHS);
      if Lookup(doc.members, PATHS).Some? {
        AlikeKinds(Lookup(doc.members, PATHS).value, Lookup(other.members, PATHS).value);
      }
    }
  }

  lemma ListOf(m: seq<Pair<Json>>, n: seq<Pair<Json>>, includePath: Text -> bool, doc: Json, other: Json, le: Collation, i: nat) returns (j: nat)
    requires TotalPreorder(le) && Separates(le) && Alike(Obj(m), Obj(n)) && Alike(doc, other) && i < |m|
    ensures j < |n| && IncludedEntries(m[i], includePath, doc, le) == IncludedEntries(n[j], includePath, other, le)
  {
    AlikeKeys(m, n, m[i].key);
    assert Keys(m)[i] in Keys(n);
    j :| 0 <= j < |n| && Keys(n)[j] == m[i].key;
    AlikeMembers(m, n, i, j);
    SamePathEntries(m[i].key, m[i].value, n[j].value, doc, other, le);
  }

  /** One half of the comparison: what one document lists, the other lists. */
  lemma ListsIncluded(m: seq<Pair<Json>>, n: seq<Pair<Json>>, includePath: Text -> bool, doc: Json, other: Json, le: Collation)
    requires TotalPreorder(le) && Separates(le) && Alike(Obj(m), Obj(n)) && Alike(doc, other)
    ensures AllSome(PathLists(n, includePath, other, le)) ==> AllSome(PathLists(m, includePath, doc, le))
    ensures forall x | InSome(PathLists(m, includePath, doc, le), x) :: InSome(PathLists(n, includePath, other, le), x)
  {
    var a, b := PathLists(m, includePath, doc, le), PathLists(n, includePath, other, le);
    if AllSome(b) {
      forall i | 0 <= i < |a| ensures a[i].Some? {
        var j := ListOf(m, n, includePath, doc, other, le, i);
        assert b[j].Some?;
      }
    }
    forall x | InSome(a, x) ensures InSome(b, x) {
      var i :| 0 <= i < |a| && a[i].Some? && x in a[i].value;
      var j := ListOf(m, n, includePath, doc, other, le, i);
      assert b[j] == a[i];
    }
  }

  lemma SameSetSameOrder<T>(e: seq<Pair<T>>, f: seq<Pair<T>>, le: Collation)
    requires TotalPreorder(le) && Separates(le) && Distinct(Keys(e)) && Distinct(Keys(f))
    requires forall x :: x in e <==> x in f
    ensures SortByKey(e, le) == SortByKey(f, le)
  {
    forall k ensures k in Keys(e) <==> k in Keys(f) {
      if k in Keys(e) {
        var i :| 0 <= i < |e| && Keys(e)[i] == k;
        assert e[i] in f;
        var j :| 0 <= j < |f| && f[j] == e[i];
        assert Keys(f)[j] == k;
      }
      if k in Keys(f) {
        var j :| 0 <= j < |f| && Keys(f)[j] == k;
        assert f[j] in e;
        var i :| 0 <= i < |e| && e[i] == f[j];
        assert Keys(e)[i] == k;
      }
    }
    forall i, j | 0 <= i < |e| && 0 <= j < |f| && e[i].key == f[j].key ensures e[i].value == f[j].value {
      assert e[i] in f;
      var l :| 0 <= l < |f| && f[l] == e[i];
      SameKeySamePlace(Keys(f), l, j);
    }
    SameEntriesSameMap(e, f);
    SameMapSameOrder(e, f, le);
  }

  lemma SameSorted(a: seq<Option<seq<Pair<Operation>>>>, b: seq<Option<seq<Pair<Operation>>>>, le: Collation)
    requires TotalPreorder(le) && Separates(le) && KeysApart(a) && KeysApart(b)
    requires AllSome(a) <==> AllSome(b)
    requires forall x :: InSome(a, x) <==> InSome(b, x)
    ensures Concat(a).Some? <==> Concat(b).Some?
    ensures Concat(a).Some? ==> SortByKey(Concat(a).value, le) == SortByKey(Concat(b).value, le)
  {
    ConcatSome(a);
    ConcatSome(b);
    if Concat(a).Some? {
      ConcatKeysDistinct(a);
      ConcatKeysDistinct(b);
      forall x ensures x in Concat(a).value <==> x in Concat(b).value {
        ConcatMembers(a, x);
        ConcatMembers(b, x);
      }
      SameSetSameOrder(Concat(a).value, Concat(b).value, le);
    }
  }

  lemma SameLists(m: seq<Pair<Json>>, n: seq<Pair<Json>>, includePath: Text -> bool, doc: Json, other: Json, le: Collation)
    requires TotalPreorder(le) && Separates(le) && Alike(Obj(m), Obj(n)) && Alike(doc, other)
    ensures var a, b := Concat(PathLists(m, includePath, doc, le)), Concat(PathLists(n, includePath, other, le));
            && (a.Some? <==> b.Some?)
            && (a.Some? ==> SortByKey(a.value, le) == SortByKey(b.value, le))
  {
    ListsIncluded(m, n, includePath, doc, other, le);
    ListsIncluded(n, m, includePath, other, doc, le);
    PathListsApart(m, includePath, doc, le);
    PathListsApart(n, includePath, other, le);
    SameSorted(PathLists(m, includePath, doc, le), PathLists(n, includePath, other, le), le);
  }

  /** Documents that mean the same have the same snapshot. */
  lemma SnapshotIgnoresMemberOrder(doc: Json, other: Json, includePath: Text -> bool, le: Collation)
    requires TotalPreorder(le) && Separates(le) && Alike(doc, other)
    ensures Snapshot(doc, includePath, le) == Snapshot(other, includePath, le)
  {
    SamePaths(doc, other);
    if Paths(doc).Some? {
      SameLists(Paths(doc).value, Paths(other).value, includePath, doc, other, le);
    }
  }

  lemma SortedExact(lists: seq<Option<seq<Pair<Operation>>>>, le: Collation, x: Pair<Operation>)
    requires KeysApart(lists) && Concat(lists).Some?
    ensures Distinct(Keys(SortByKey(Concat(lists).value, le)))
    ensures x in SortByKey(Concat(lists).value, le) <==> InSome(lists, x)
  {
    ConcatKeysDistinct(lists);
    SortDistinct(Concat(lists).value, le);
    SortSameEntries(Concat(lists).value, le);
    ConcatMembers(lists, x);
  }

  /** The operation is listed for a path of the document that is included. */
  ghost predicate Listed(paths: seq<Pair<Json>>, includePath: Text -> bool, doc: Json, le: Collation, x: Pair<Operation>) {
    exists i :: 0 <= i < |paths| && includePath(paths[i].key)
                && PathEntries(paths[i].key, paths[i].value, doc, le).Some?
                && x in PathEntries(paths[i].key, paths[i].value, doc, le).value
  }

  lemma ListedInSome(paths: seq<Pair<Json>>, includePath: Text -> bool, doc: Json, le: Collation, x: Pair<Operation>)
    ensures InSome(PathLists(paths, includePath, doc, le), x) <==> Listed(paths, includePath, doc, le, x)
  {
    var lists := PathLists(paths, includePath, doc, le);
    if InSome(lists, x) {
      var i :| 0 <= i < |lists| && lists[i].Some? && x in lists[i].value;
      assert includePath(paths[i].key);
    }
    if i :| 0 <= i < |paths| && includePath(paths[i].key) && PathEntries(paths[i].key, paths[i].value, doc, le).Some?
            && x in PathEntries(paths[i].key, paths[i].value, doc, le).value {
      assert lists[i].Some? && x in lists[i].value;
    }
  }

  /** The snapshot has each operation of each included path once, and nothing else. */
  lemma SnapshotIsExact(doc: Json, includePath: Text -> bool, le: Collation, x: Pair<Operation>)
    requires WellFormed(doc) && Snapshot(doc, includePath, le).Some?
    ensures Distinct(Keys(Snapshot(doc, includePath, le).value))
    ensures x in Snapshot(doc, includePath, le).value <==> Listed(Paths(doc).value, includePath, doc, le, x)
  {
    var paths := Paths(doc).value;
    SamePaths(doc, doc);
    PathListsApart(paths, includePath, doc, le);
    ListedInSome(paths, includePath, doc, le, x);
    SortedExact(PathLists(paths, includePath, doc, le), le, x);
  }
}
