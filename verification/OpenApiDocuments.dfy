/** Expanding `$ref`s in an OpenAPI document: scripts/openapi-semantic-snapshot.ts. */
module OpenApiDocuments {
  import opened Options
  import opened Texts
  import opened CanonicalJson

  const SLASH: CodeUnit := 0x2F
  const HASH: CodeUnit := 0x23
  const REF_KEY: Text := [0x24, 0x72, 0x65, 0x66]

  predicate LocalRef(t: Text) { |t| >= 2 && t[0] == HASH && t[1] == SLASH }

  /** record.$ref, if it is a string that starts with '#/'. */
  function RefOf(v: Json): Option<Text> {
    if v.Obj? && Lookup(v.members, REF_KEY).Some? && Lookup(v.members, REF_KEY).value.Str?
       && LocalRef(Lookup(v.members, REF_KEY).value.text)
    then Some(Lookup(v.members, REF_KEY).value.text)
    else None
  }

  /** Every local reference in a value, those beside a `$ref` included. */
  function AllRefs(v: Json): set<Text>
    decreases v
  {
    (if RefOf(v).Some? then {RefOf(v).value} else {}) +
    match v
    case Arr(items) => (set i, r | 0 <= i < |items| && r in AllRefs(items[i]) :: r)
    case Obj(members) => (set i, r | 0 <= i < |members| && r in AllRefs(members[i].value) :: r)
    case _ => {}
  }

  /** t.split('/') */
  function Segments(t: Text): (segments: seq<Text>)
    ensures segments != []
  {
    if t == [] then [[]]
    else
      var rest := Segments(t[1..]);
      if t[0] == SLASH then [[]] + rest else [[t[0]] + rest[0]] + rest[1..]
  }

  /** The array index a property name stands for. */
  function ArrayIndex(t: Text): Option<nat> {
    if t == [] || (exists i :: 0 <= i < |t| && !(0x30 <= t[i] <= 0x39)) || (t[0] == 0x30 && |t| > 1) then None
    else Some(Decimal(t))
  }

  function Decimal(t: Text): nat
    requires forall i | 0 <= i < |t| :: 0x30 <= t[i] <= 0x39
  {
    if t == [] then 0 else Decimal(t[..|t| - 1]) * 10 + (t[|t| - 1] - 0x30)
  }

  /** One step of a pointer: the property of that name, if the value is an object or an array with one. */
  function Step(v: Json, segment: Text): (r: Option<Json>)
    ensures r.Some? ==> AllRefs(r.value) <= AllRefs(v)
  {
    match v
    case Obj(members) => Lookup(members, segment)
    case Arr(items) =>
      var index := ArrayIndex(segment);
      if index.Some? && index.value < |items| then Some(items[index.value]) else None
    case _ => None
  }

  /** The value a pointer leads to, or None. */
  function Follow(v: Json, segments: seq<Text>): (r: Option<Json>)
    ensures r.Some? ==> AllRefs(r.value) <= AllRefs(v)
    decreases |segments|
  {
    if segments == [] then Some(v)
    else
      var next := Step(v, segments[0]);
      if next.None? then None else Follow(next.value, segments[1..])
  }

  function Target(doc: Json, ref: Text): (r: Option<Json>)
    ensures r.Some? ==> AllRefs(r.value) <= AllRefs(doc)
  {
    if |ref| < 2 then None else Follow(doc, Segments(ref[2..]))
  }

  function RefOnly(ref: Text): Json { Obj([Pair(REF_KEY, Str(ref))]) }

  predicate AllSome<T>(s: seq<Option<T>>) {
    forall i | 0 <= i < |s| :: s[i].Some?
  }

  function Values<T>(s: seq<Option<T>>): (r: seq<T>)
    requires AllSome(s)
    ensures |r| == |s| && forall i | 0 <= i < |s| :: r[i] == s[i].value
  {
    seq(|s|, i requires 0 <= i < |s| => s[i].value)
  }

  /** Members with new values, in the order of `members`. */
  function WithValues(members: seq<Pair<Json>>, values: seq<Json>): (r: seq<Pair<Json>>)
    requires |values| == |members|
    ensures |r| == |members| && forall i | 0 <= i < |r| :: r[i] == Pair(members[i].key, values[i])
  {
    seq(|members|, i requires 0 <= i < |members| => Pair(members[i].key, values[i]))
  }

  /** The value with its local references expanded and its members in order; a reference already
      being expanded stays. None where a pointer leads nowhere. It terminates on every document:
      each expansion leaves fewer references that are not being expanded. */
  function Dereference(v: Json, doc: Json, seen: set<Text>, le: Collation): Option<Json>
    decreases AllRefs(doc) + AllRefs(v) - seen, v
  {
    match v
    case Arr(items) =>
      var results := seq(|items|, i requires 0 <= i < |items| => Dereference(items[i], doc, seen, le));
      if AllSome(results) then Some(Arr(Values(results))) else None
    case Obj(members) =>
      if RefOf(v).Some? then
        var ref := RefOf(v).value;
        if ref in seen then Some(RefOnly(ref))
        else
          var target := Target(doc, ref);
          assert ref in AllRefs(v);
          if target.None? then None else Dereference(target.value, doc, seen + {ref}, le)
      else
        var results := seq(|members|, i requires 0 <= i < |members| => Dereference(members[i].value, doc, seen, le));
        if AllSome(results) then Some(Obj(SortByKey(WithValues(members, Values(results)), le))) else None
    case _ => Some(v)
  }
}
