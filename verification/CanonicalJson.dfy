/** The canonical JSON text that identifies an authorization context or a creation request. */
module CanonicalJson {
  import opened Texts

  /** A finite JSON value. An object lists its own entries in insertion order; a number
      carries the text that JSON.stringify gives it. */
  datatype Json =
    | Null
    | Bool(b: bool)
    | Num(literal: Text)
    | Str(text: Text)
    | Arr(items: seq<Json>)
    | Obj(members: seq<Pair<Json>>)

  /** What a JSON value means: object members form a map. */
  datatype Value =
    | VNull
    | VBool(b: bool)
    | VNum(literal: Text)
    | VStr(text: Text)
    | VArr(items: seq<Value>)
    | VObj(members: map<Text, Value>)

  function Meaning(v: Json): Value
    decreases v
  {
    match v
    case Null => VNull
    case Bool(b) => VBool(b)
    case Num(literal) => VNum(literal)
    case Str(text) => VStr(text)
    case Arr(items) => VArr(seq(|items|, i requires 0 <= i < |items| => Meaning(items[i])))
    case Obj(members) => VObj(MapOf(Meanings(members)))
  }

  function Meanings(members: seq<Pair<Json>>): (r: seq<Pair<Value>>)
    ensures |r| == |members|
    decreases members
  {
    seq(|members|, i requires 0 <= i < |members| => Pair(members[i].key, Meaning(members[i].value)))
  }

  function MapOf<T>(entries: seq<Pair<T>>): map<Text, T> {
    if entries == [] then map[]
    else MapOf(entries[..|entries| - 1])[entries[|entries| - 1].key := entries[|entries| - 1].value]
  }

  /** Numbers are JSON number texts, and an object has each key once. */
  ghost predicate WellFormed(v: Json)
    decreases v
  {
    match v
    case Num(literal) => literal != [] && forall i | 0 <= i < |literal| :: NumberUnit(literal[i])
    case Arr(items) => forall i | 0 <= i < |items| :: WellFormed(items[i])
    case Obj(members) =>
      && Distinct(Keys(members))
      && forall i | 0 <= i < |members| :: WellFormed(members[i].value)
    case _ => true
  }

  const COMMA: CodeUnit := 0x2C
  const COLON: CodeUnit := 0x3A
  const QUOTE: CodeUnit := 0x22
  const BACKSLASH: CodeUnit := 0x5C
  const OPEN_BRACKET: CodeUnit := 0x5B
  const CLOSE_BRACKET: CodeUnit := 0x5D
  const OPEN_BRACE: CodeUnit := 0x7B
  const CLOSE_BRACE: CodeUnit := 0x7D

  /** 0-9, '-', '+', '.', 'e'. */
  predicate NumberUnit(u: CodeUnit) {
    0x30 <= u <= 0x39 || u == 0x2D || u == 0x2B || u == 0x2E || u == 0x65
  }

  function Canonical(v: Json, le: Collation): (text: Text)
    decreases v
  {
    match v
    case Null => [0x6E, 0x75, 0x6C, 0x6C]
    case Bool(b) => if b then [0x74, 0x72, 0x75, 0x65] else [0x66, 0x61, 0x6C, 0x73, 0x65]
    case Num(literal) => literal
    case Str(text) => Quoted(text)
    case Arr(items) => [OPEN_BRACKET] + (Join(PrintedItems(items, le)) + [CLOSE_BRACKET])
    case Obj(members) => [OPEN_BRACE] + (Join(Labelled(SortByKey(Printed(members, le), le))) + [CLOSE_BRACE])
  }

  function PrintedItems(items: seq<Json>, le: Collation): (texts: seq<Text>)
    ensures |texts| == |items|
    decreases items
  {
    seq(|items|, i requires 0 <= i < |items| => Canonical(items[i], le))
  }

  /** The entries with their values printed; sorting looks at keys only, so it may follow. */
  function Printed(members: seq<Pair<Json>>, le: Collation): (entries: seq<Pair<Text>>)
    ensures |entries| == |members|
    decreases members
  {
    seq(|members|, i requires 0 <= i < |members| => Pair(members[i].key, Canonical(members[i].value, le)))
  }

  /** texts.join(',') */
  function Join(texts: seq<Text>): Text {
    if texts == [] then [] else texts[0] + Tail(texts[1..])
  }

  function Tail(texts: seq<Text>): Text {
    if texts == [] then [] else [COMMA] + (texts[0] + Tail(texts[1..]))
  }

  /** Each entry as `"key":text`. */
  function Labelled(entries: seq<Pair<Text>>): (r: seq<Text>)
    ensures |r| == |entries|
  {
    seq(|entries|, i requires 0 <= i < |entries| => Quoted(entries[i].key) + ([COLON] + entries[i].value))
  }

  /** JSON.stringify of a string (section 7 of RFC 8259); an unpaired surrogate is escaped. */
  function Quoted(s: Text): Text {
    [QUOTE] + (Body(s) + [QUOTE])
  }

  function Body(s: Text): Text {
    if s == [] then []
    else if PairAt(s) then [s[0], s[1]] + Body(s[2..])
    else Escape(s[0]) + Body(s[1..])
  }

  predicate High(u: CodeUnit) { 0xD800 <= u <= 0xDBFF }

  predicate Low(u: CodeUnit) { 0xDC00 <= u <= 0xDFFF }

  predicate PairAt(s: Text) {
    |s| > 1 && High(s[0]) && Low(s[1])
  }

  function Escape(u: CodeUnit): Text {
    if u == 0x22 || u == 0x5C then [BACKSLASH, u]
    else if u == 0x08 then [BACKSLASH, 0x62]
    else if u == 0x09 then [BACKSLASH, 0x74]
    else if u == 0x0A then [BACKSLASH, 0x6E]
    else if u == 0x0C then [BACKSLASH, 0x66]
    else if u == 0x0D then [BACKSLASH, 0x72]
    else if u < 0x20 || High(u) || Low(u) then
      HexEscape(u)
    else [u]
  }

  function HexEscape(u: CodeUnit): (t: Text)
    ensures |t| == 6
  {
    [BACKSLASH, 0x75, HexDigit(u / 16 / 16 / 16), HexDigit(u / 16 / 16 % 16), HexDigit(u / 16 % 16), HexDigit(u % 16)]
  }

  function HexDigit(n: int): CodeUnit
    requires 0 <= n < 0x10
  {
    if n < 10 then 0x30 + n else 0x57 + n
  }

  // ---- Quoting is uniquely decodable ----

  lemma HexDigitInjective(m: int, n: int)
    requires 0 <= m < 0x10 && 0 <= n < 0x10 && HexDigit(m) == HexDigit(n)
    ensures m == n
  {
  }

  /** No escaped unit is a prefix of another, and none starts with a bare quote or surrogate. */
  lemma EscapePrefixFree(u: CodeUnit, v: CodeUnit, x: Text, y: Text)
    requires Escape(u) + x == Escape(v) + y
    ensures u == v && x == y
  {
    var eu, ev := Escape(u), Escape(v);
    assert (eu + x)[0] == eu[0] && (ev + y)[0] == ev[0];
    if eu[0] != BACKSLASH {
      assert x == (eu + x)[1..] && y == (ev + y)[1..];
    } else {
      assert (eu + x)[1] == eu[1] && (ev + y)[1] == ev[1];
      if eu[1] == 0x75 {
        EscapeHex(u, v, x, y);
      } else {
        assert x == (eu + x)[2..] && y == (ev + y)[2..];
      }
    }
  }

  lemma EscapeHex(u: CodeUnit, v: CodeUnit, x: Text, y: Text)
    requires Escape(u) + x == Escape(v) + y && |Escape(u)| == |Escape(v)| == 6
    ensures u == v && x == y
  {
    assert Escape(u) == HexEscape(u) && Escape(v) == HexEscape(v);
    assert x == (HexEscape(u) + x)[6..] && y == (HexEscape(v) + y)[6..];
    assert HexEscape(u) == (HexEscape(u) + x)[..6] && HexEscape(v) == (HexEscape(v) + y)[..6];
    HexEscapeInjective(u, v);
  }

  lemma HexEscapeInjective(u: CodeUnit, v: CodeUnit)
    requires HexEscape(u) == HexEscape(v)
    ensures u == v
  {
    var eu, ev := HexEscape(u), HexEscape(v);
    assert eu[2] == ev[2] && eu[3] == ev[3] && eu[4] == ev[4] && eu[5] == ev[5];
    HexDigitInjective(u / 16 / 16 / 16, v / 16 / 16 / 16);
    HexDigitInjective(u / 16 / 16 % 16, v / 16 / 16 % 16);
    HexDigitInjective(u / 16 % 16, v / 16 % 16);
    HexDigitInjective(u % 16, v % 16);
  }

  lemma EscapeFirst(u: CodeUnit)
    ensures Escape(u) != [] && Escape(u)[0] != QUOTE && !High(Escape(u)[0])
  {
  }

  lemma BodyStep(s: Text, x: Text)
    requires s != []
    ensures PairAt(s) ==> Body(s) + x == [s[0], s[1]] + (Body(s[2..]) + x)
    ensures !PairAt(s) ==> Body(s) + x == Escape(s[0]) + (Body(s[1..]) + x)
  {
    if PairAt(s) {
      Associate([s[0], s[1]], Body(s[2..]), x);
    } else {
      Associate(Escape(s[0]), Body(s[1..]), x);
    }
  }

  lemma Associate(a: Text, b: Text, c: Text)
    ensures (a + b) + c == a + (b + c)
  {
  }

  /** What the body of a quoted string starts with. */
  lemma BodyHead(s: Text, x: Text)
    requires s != []
    ensures Body(s) + x != []
    ensures (Body(s) + x)[0] == if PairAt(s) then s[0] else Escape(s[0])[0]
    ensures (Body(s) + x)[0] != QUOTE && (High((Body(s) + x)[0]) <==> PairAt(s))
  {
    EscapeFirst(s[0]);
  }

  lemma {:induction false} BodyPrefixFree(s: Text, t: Text, x: Text, y: Text)
    requires Body(s) + ([QUOTE] + x) == Body(t) + ([QUOTE] + y)
    ensures s == t && x == y
    decreases |s|
  {
    var qx, qy := [QUOTE] + x, [QUOTE] + y;
    if s == [] || t == [] {
      BodyEnds(s, t, x, y);
    } else {
      BodyHead(s, qx);
      BodyHead(t, qy);
      BodyStep(s, qx);
      BodyStep(t, qy);
      if PairAt(s) {
        DropTwo(s[0], s[1], t[0], t[1], Body(s[2..]) + qx, Body(t[2..]) + qy);
        BodyPrefixFree(s[2..], t[2..], x, y);
        assert s == [s[0], s[1]] + s[2..] && t == [t[0], t[1]] + t[2..];
      } else {
        EscapePrefixFree(s[0], t[0], Body(s[1..]) + qx, Body(t[1..]) + qy);
        BodyPrefixFree(s[1..], t[1..], x, y);
        assert s == [s[0]] + s[1..] && t == [t[0]] + t[1..];
      }
    }
  }

  lemma DropTwo(a: CodeUnit, b: CodeUnit, c: CodeUnit, d: CodeUnit, x: Text, y: Text)
    requires [a, b] + x == [c, d] + y
    ensures a == c && b == d && x == y
  {
    assert ([a, b] + x)[0] == a && ([a, b] + x)[1] == b && ([a, b] + x)[2..] == x;
    assert ([c, d] + y)[0] == c && ([c, d] + y)[1] == d && ([c, d] + y)[2..] == y;
  }

  lemma DropOne(a: CodeUnit, b: CodeUnit, x: Text, y: Text)
    requires [a] + x == [b] + y
    ensures a == b && x == y
  {
    assert ([a] + x)[0] == a && ([a] + x)[1..] == x;
    assert ([b] + y)[0] == b && ([b] + y)[1..] == y;
  }

  lemma BodyEnds(s: Text, t: Text, x: Text, y: Text)
    requires s == [] || t == []
    requires Body(s) + ([QUOTE] + x) == Body(t) + ([QUOTE] + y)
    ensures s == t && x == y
  {
    var qx, qy := [QUOTE] + x, [QUOTE] + y;
    assert Body([]) + qx == qx && Body([]) + qy == qy;
    if s != [] {
      BodyHead(s, qx);
    } else if t != [] {
      BodyHead(t, qy);
    } else {
      DropOne(QUOTE, QUOTE, x, y);
    }
  }

  lemma QuotedPrefixFree(s: Text, t: Text, x: Text, y: Text)
    requires Quoted(s) + x == Quoted(t) + y
    ensures s == t && x == y
  {
    assert Quoted(s) + x == [QUOTE] + (Body(s) + ([QUOTE] + x));
    assert Quoted(t) + y == [QUOTE] + (Body(t) + ([QUOTE] + y));
    DropOne(QUOTE, QUOTE, Body(s) + ([QUOTE] + x), Body(t) + ([QUOTE] + y));
    BodyPrefixFree(s, t, x, y);
  }

  // ---- Sorting and maps ----

  ghost predicate Maps<T>(m: map<Text, T>, k: Text, v: T) {
    k in m && m[k] == v
  }

  lemma {:induction false} MapOfEntries<T>(entries: seq<Pair<T>>)
    requires Distinct(Keys(entries))
    ensures forall k, v :: Maps(MapOf(entries), k, v) <==> Pair(k, v) in entries
  {
    if entries != [] {
      var n := |entries| - 1;
      var init, last := entries[..n], entries[n];
      assert entries == init + [last];
      assert forall i | 0 <= i < n :: Keys(entries)[i] == entries[i].key == Keys(init)[i];
      assert Distinct(Keys(init));
      MapOfEntries(init);
      assert forall i | 0 <= i < n :: init[i].key == Keys(entries)[i] != Keys(entries)[n];
    }
  }

  lemma SortedMap<T>(entries: seq<Pair<T>>, le: Collation)
    requires Distinct(Keys(entries))
    ensures MapOf(SortByKey(entries, le)) == MapOf(entries)
  {
    SortDistinct(entries, le);
    SortSameEntries(entries, le);
    var sorted := SortByKey(entries, le);
    MapOfEntries(entries);
    MapOfEntries(sorted);
    SameMaplets(MapOf(sorted), MapOf(entries));
  }

  lemma SameMaplets<T>(m: map<Text, T>, n: map<Text, T>)
    requires forall k, v :: Maps(m, k, v) <==> Maps(n, k, v)
    ensures m == n
  {
    assert forall k | k in m :: Maps(m, k, m[k]);
    assert forall k | k in n :: Maps(n, k, n[k]);
  }

  lemma SortedPrinted(members: seq<Pair<Json>>, le: Collation)
    ensures SortByKey(Printed(members, le), le) == Printed(SortByKey(members, le), le)
  {
    var rel := (j: Json, t: Text) => t == Canonical(j, le);
    SortMatches(members, Printed(members, le), le, rel);
  }

  lemma SortedMeanings(members: seq<Pair<Json>>, le: Collation)
    ensures SortByKey(Meanings(members), le) == Meanings(SortByKey(members, le))
  {
    var rel := (j: Json, m: Value) => m == Meaning(j);
    SortMatches(members, Meanings(members), le, rel);
  }

  lemma SortedMembers(members: seq<Pair<Json>>, le: Collation)
    requires forall i | 0 <= i < |members| :: WellFormed(members[i].value)
    ensures forall i | 0 <= i < |members| :: WellFormed(SortByKey(members, le)[i].value)
    ensures forall i | 0 <= i < |members| :: SortByKey(members, le)[i] in members
  {
    SortSameEntries(members, le);
    var sorted := SortByKey(members, le);
    assert forall i | 0 <= i < |members| :: sorted[i] in sorted;
  }

  // ---- Unique decodability ----

  /** What may follow a printed value inside a text: nothing, or no number character. */
  predicate Stops(rest: Text) {
    rest == [] || !NumberUnit(rest[0])
  }

  /** From whatever may follow them, the two texts can only be read in one way. */
  ghost predicate Unambiguous(s: Text, t: Text) {
    forall x, y {:trigger s + x, t + y} | Stops(x) && Stops(y) && s + x == t + y :: s == t && x == y
  }

  /** Cannot be taken for a separator or for the end of a list. */
  predicate Opens(t: Text) {
    t != [] && t[0] != COMMA && t[0] != CLOSE_BRACKET && t[0] != CLOSE_BRACE
  }

  lemma {:induction false} TailUnambiguous(s: seq<Text>, t: seq<Text>, close: CodeUnit, x: Text, y: Text)
    requires close == CLOSE_BRACKET || close == CLOSE_BRACE
    requires forall i | 0 <= i < |s| && i < |t| :: Unambiguous(s[i], t[i])
    requires Tail(s) + ([close] + x) == Tail(t) + ([close] + y)
    ensures s == t && x == y
    decreases |s|
  {
    var cx, cy := [close] + x, [close] + y;
    if s == [] || t == [] {
      TailEnds(s, t, close, x, y);
    } else {
      var ss, tt := Tail(s[1..]) + cx, Tail(t[1..]) + cy;
      TailStep(s, cx);
      TailStep(t, cy);
      DropOne(COMMA, COMMA, s[0] + ss, t[0] + tt);
      TailStops(s[1..], close, x);
      TailStops(t[1..], close, y);
      assert Unambiguous(s[0], t[0]);
      TailUnambiguous(s[1..], t[1..], close, x, y);
      assert s == [s[0]] + s[1..] && t == [t[0]] + t[1..];
    }
  }

  lemma TailStep(s: seq<Text>, x: Text)
    requires s != []
    ensures Tail(s) + x == [COMMA] + (s[0] + (Tail(s[1..]) + x))
  {
    assert ([COMMA] + (s[0] + Tail(s[1..]))) + x == [COMMA] + (s[0] + (Tail(s[1..]) + x));
  }

  lemma TailStops(s: seq<Text>, close: CodeUnit, x: Text)
    requires close == CLOSE_BRACKET || close == CLOSE_BRACE
    ensures Stops(Tail(s) + ([close] + x))
  {
    if s != [] { TailStep(s, [close] + x); } else { assert Tail(s) + ([close] + x) == [close] + x; }
  }

  lemma TailEnds(s: seq<Text>, t: seq<Text>, close: CodeUnit, x: Text, y: Text)
    requires close == CLOSE_BRACKET || close == CLOSE_BRACE
    requires s == [] || t == []
    requires Tail(s) + ([close] + x) == Tail(t) + ([close] + y)
    ensures s == t && x == y
  {
    var cx, cy := [close] + x, [close] + y;
    assert Tail([]) + cx == cx && Tail([]) + cy == cy;
    assert cx[0] == close && cy[0] == close;
    if s != [] {
      TailStep(s, cx);
    } else if t != [] {
      TailStep(t, cy);
    } else {
      DropOne(close, close, x, y);
    }
  }

  lemma JoinStep(s: seq<Text>, x: Text)
    requires s != []
    ensures Join(s) + x == s[0] + (Tail(s[1..]) + x)
  {
    assert (s[0] + Tail(s[1..])) + x == s[0] + (Tail(s[1..]) + x);
  }

  lemma JoinEnds(s: seq<Text>, t: seq<Text>, close: CodeUnit, x: Text, y: Text)
    requires close == CLOSE_BRACKET || close == CLOSE_BRACE
    requires s == [] || t == []
    requires (s != [] ==> Opens(s[0])) && (t != [] ==> Opens(t[0]))
    requires Join(s) + ([close] + x) == Join(t) + ([close] + y)
    ensures s == t && x == y
  {
    var cx, cy := [close] + x, [close] + y;
    assert Join([]) + cx == cx && Join([]) + cy == cy;
    assert cx[0] == close && cy[0] == close;
    if s != [] {
      JoinStep(s, cx);
    } else if t != [] {
      JoinStep(t, cy);
    } else {
      DropOne(close, close, x, y);
    }
  }

  lemma JoinUnambiguous(s: seq<Text>, t: seq<Text>, close: CodeUnit, x: Text, y: Text)
    requires close == CLOSE_BRACKET || close == CLOSE_BRACE
    requires forall i | 0 <= i < |s| && i < |t| :: Unambiguous(s[i], t[i])
    requires (s != [] ==> Opens(s[0])) && (t != [] ==> Opens(t[0]))
    requires Join(s) + ([close] + x) == Join(t) + ([close] + y)
    ensures s == t && x == y
  {
    if s == [] || t == [] {
      JoinEnds(s, t, close, x, y);
    } else {
      var cx, cy := [close] + x, [close] + y;
      JoinStep(s, cx);
      JoinStep(t, cy);
      TailStops(s[1..], close, x);
      TailStops(t[1..], close, y);
      assert Unambiguous(s[0], t[0]);
      TailUnambiguous(s[1..], t[1..], close, x, y);
      assert s == [s[0]] + s[1..] && t == [t[0]] + t[1..];
    }
  }

  /** The first unit of a printed value tells its kind. */
  lemma Leads(v: Json, le: Collation, x: Text)
    requires WellFormed(v)
    ensures Opens(Canonical(v, le)) && Canonical(v, le) + x != []
    ensures var u := (Canonical(v, le) + x)[0];
            && (v.Null? <==> u == 0x6E) && (v == Bool(true) <==> u == 0x74) && (v == Bool(false) <==> u == 0x66)
            && (v.Num? <==> NumberUnit(u)) && (v.Str? <==> u == QUOTE)
            && (v.Arr? <==> u == OPEN_BRACKET) && (v.Obj? <==> u == OPEN_BRACE)
  {
  }

  lemma NumberExtent(s: Text, x: Text)
    requires forall i | 0 <= i < |s| :: NumberUnit(s[i])
    requires Stops(x)
    ensures forall i | 0 <= i < |s| :: NumberUnit((s + x)[i])
    ensures |s + x| == |s| || !NumberUnit((s + x)[|s|])
  {
    assert x != [] ==> (s + x)[|s|] == x[0];
  }

  /** Where a number stops is determined by the text alone. */
  lemma NumberStops(s: Text, t: Text, x: Text, y: Text)
    requires forall i | 0 <= i < |s| :: NumberUnit(s[i])
    requires forall i | 0 <= i < |t| :: NumberUnit(t[i])
    requires Stops(x) && Stops(y) && s + x == t + y
    ensures s == t && x == y
  {
    NumberExtent(s, x);
    NumberExtent(t, y);
    SameLength(s, t, x, y);
  }

  /** Equal texts come from equal meanings, whatever follows them and whatever the collation. */
  lemma {:induction false} Decodable(a: Json, b: Json, le: Collation, x: Text, y: Text)
    requires WellFormed(a) && WellFormed(b) && Stops(x) && Stops(y)
    requires Canonical(a, le) + x == Canonical(b, le) + y
    ensures Meaning(a) == Meaning(b) && Canonical(a, le) == Canonical(b, le) && x == y
    decreases a, 1
  {
    Leads(a, le, x);
    Leads(b, le, y);
    match a
    case Null => SameLength(Canonical(a, le), Canonical(b, le), x, y);
    case Bool(_) => SameLength(Canonical(a, le), Canonical(b, le), x, y);
    case Num(s) => NumberStops(s, b.literal, x, y);
    case Str(s) => QuotedPrefixFree(s, b.text, x, y);
    case Arr(items) => DecodableItems(a, b, le, x, y);
    case Obj(members) => DecodableMembers(a, b, le, x, y);
  }

  lemma SameLength(s: Text, t: Text, x: Text, y: Text)
    requires |s| == |t| && s + x == t + y
    ensures s == t && x == y
  {
    assert s == (s + x)[..|s|] && t == (t + y)[..|s|];
    assert x == (s + x)[|s|..] && y == (t + y)[|s|..];
  }

  lemma {:induction false} DecodableItems(a: Json, b: Json, le: Collation, x: Text, y: Text)
    requires a.Arr? && b.Arr? && WellFormed(a) && WellFormed(b)
    requires Canonical(a, le) + x == Canonical(b, le) + y
    ensures Meaning(a) == Meaning(b) && Canonical(a, le) == Canonical(b, le) && x == y
    decreases a, 0
  {
    var s, t := PrintedItems(a.items, le), PrintedItems(b.items, le);
    forall i | 0 <= i < |s| && i < |t| ensures Unambiguous(s[i], t[i]) {
      UnambiguousValues(a.items[i], b.items[i], le);
    }
    if s != [] { Leads(a.items[0], le, []); }
    if t != [] { Leads(b.items[0], le, []); }
    Unwrap(OPEN_BRACKET, Join(s), Join(t), CLOSE_BRACKET, x, y);
    JoinUnambiguous(s, t, CLOSE_BRACKET, x, y);
    forall i | 0 <= i < |s| ensures Meaning(a.items[i]) == Meaning(b.items[i]) {
      assert s[i] == t[i];
      Decodable(a.items[i], b.items[i], le, [], []);
    }
    assert Meaning(a).items == Meaning(b).items;
  }

  lemma {:induction false} UnambiguousValues(a: Json, b: Json, le: Collation)
    requires WellFormed(a) && WellFormed(b)
    ensures Unambiguous(Canonical(a, le), Canonical(b, le))
    decreases a, 2
  {
    forall x, y | Stops(x) && Stops(y) && Canonical(a, le) + x == Canonical(b, le) + y
      ensures Canonical(a, le) == Canonical(b, le) && x == y
    {
      Decodable(a, b, le, x, y);
    }
  }

  lemma Unwrap(open: CodeUnit, s: Text, t: Text, close: CodeUnit, x: Text, y: Text)
    requires [open] + (s + [close]) + x == [open] + (t + [close]) + y
    ensures s + ([close] + x) == t + ([close] + y)
  {
    assert [open] + (s + [close]) + x == [open] + (s + ([close] + x));
    assert [open] + (t + [close]) + y == [open] + (t + ([close] + y));
    DropOne(open, open, s + ([close] + x), t + ([close] + y));
  }

  lemma {:induction false} DecodableMembers(a: Json, b: Json, le: Collation, x: Text, y: Text)
    requires a.Obj? && b.Obj? && WellFormed(a) && WellFormed(b)
    requires Canonical(a, le) + x == Canonical(b, le) + y
    ensures Meaning(a) == Meaning(b) && Canonical(a, le) == Canonical(b, le) && x == y
    decreases a, 0
  {
    var ma, mb := SortByKey(a.members, le), SortByKey(b.members, le);
    SortedPrinted(a.members, le);
    SortedPrinted(b.members, le);
    SortedMembers(a.members, le);
    SortedMembers(b.members, le);
    var s, t := Labelled(Printed(ma, le)), Labelled(Printed(mb, le));
    forall i | 0 <= i < |s| && i < |t| ensures Unambiguous(s[i], t[i]) {
      assert ma[i] in a.members;
      UnambiguousMembers(ma[i], mb[i], le);
    }
    Unwrap(OPEN_BRACE, Join(s), Join(t), CLOSE_BRACE, x, y);
    JoinUnambiguous(s, t, CLOSE_BRACE, x, y);
    forall i | 0 <= i < |s| ensures Meanings(ma)[i] == Meanings(mb)[i] {
      assert ma[i] in a.members && s[i] == t[i];
      DecodableMember(ma[i], mb[i], le, [], []);
    }
    assert Meanings(ma) == Meanings(mb);
    MeaningOfSorted(a.members, le);
    MeaningOfSorted(b.members, le);
  }

  lemma MeaningOfSorted(members: seq<Pair<Json>>, le: Collation)
    requires Distinct(Keys(members))
    ensures MapOf(Meanings(SortByKey(members, le))) == MapOf(Meanings(members))
  {
    assert Keys(Meanings(members)) == Keys(members);
    SortedMeanings(members, le);
    SortedMap(Meanings(members), le);
  }

  function Label(m: Pair<Json>, le: Collation): Text {
    Quoted(m.key) + ([COLON] + Canonical(m.value, le))
  }

  lemma {:induction false} DecodableMember(m: Pair<Json>, n: Pair<Json>, le: Collation, x: Text, y: Text)
    requires WellFormed(m.value) && WellFormed(n.value) && Stops(x) && Stops(y)
    requires Label(m, le) + x == Label(n, le) + y
    ensures m.key == n.key && Meaning(m.value) == Meaning(n.value) && Label(m, le) == Label(n, le) && x == y
    decreases m.value, 2
  {
    var p, q := Canonical(m.value, le), Canonical(n.value, le);
    assert Label(m, le) + x == Quoted(m.key) + ([COLON] + (p + x));
    assert Label(n, le) + y == Quoted(n.key) + ([COLON] + (q + y));
    QuotedPrefixFree(m.key, n.key, [COLON] + (p + x), [COLON] + (q + y));
    DropOne(COLON, COLON, p + x, q + y);
    Decodable(m.value, n.value, le, x, y);
  }

  lemma {:induction false} UnambiguousMembers(m: Pair<Json>, n: Pair<Json>, le: Collation)
    requires WellFormed(m.value) && WellFormed(n.value)
    ensures Unambiguous(Label(m, le), Label(n, le))
    decreases m.value, 3
  {
    forall x, y | Stops(x) && Stops(y) && Label(m, le) + x == Label(n, le) + y
      ensures Label(m, le) == Label(n, le) && x == y
    {
      DecodableMember(m, n, le, x, y);
    }
  }

  // ---- The identity that the canonical text stands for ----

  /** Equal texts have equal meanings, under every comparator. */
  lemma CanonicalJsonInjective(a: Json, b: Json, le: Collation)
    requires WellFormed(a) && WellFormed(b) && Canonical(a, le) == Canonical(b, le)
    ensures Meaning(a) == Meaning(b)
  {
    assert Canonical(a, le) + [] == Canonical(b, le) + [];
    Decodable(a, b, le, [], []);
  }

  /** Equal meanings print alike, whatever the insertion order, when the collation ties no two keys. */
  lemma {:induction false} CanonicalJsonIgnoresMemberOrder(a: Json, b: Json, le: Collation)
    requires TotalPreorder(le) && Separates(le) && WellFormed(a) && WellFormed(b)
    requires Meaning(a) == Meaning(b)
    ensures Canonical(a, le) == Canonical(b, le)
    decreases a
  {
    if a.Arr? {
      forall i | 0 <= i < |a.items| ensures PrintedItems(a.items, le)[i] == PrintedItems(b.items, le)[i] {
        assert Meaning(a).items[i] == Meaning(b).items[i];
        CanonicalJsonIgnoresMemberOrder(a.items[i], b.items[i], le);
      }
      assert PrintedItems(a.items, le) == PrintedItems(b.items, le);
    } else if a.Obj? {
      var ma, mb := SortByKey(a.members, le), SortByKey(b.members, le);
      SortedAlike(a.members, b.members, le);
      SortedMembers(a.members, le);
      SortedMembers(b.members, le);
      forall i | 0 <= i < |ma| ensures Printed(ma, le)[i] == Printed(mb, le)[i] {
        assert ma[i] in a.members && Meanings(ma)[i] == Meanings(mb)[i];
        CanonicalJsonIgnoresMemberOrder(ma[i].value, mb[i].value, le);
      }
      assert Printed(ma, le) == Printed(mb, le);
      SortedPrinted(a.members, le);
      SortedPrinted(b.members, le);
    }
  }

  lemma SortedAlike(m: seq<Pair<Json>>, n: seq<Pair<Json>>, le: Collation)
    requires TotalPreorder(le) && Separates(le) && Distinct(Keys(m)) && Distinct(Keys(n))
    requires MapOf(Meanings(m)) == MapOf(Meanings(n))
    ensures Meanings(SortByKey(m, le)) == Meanings(SortByKey(n, le))
  {
    var p, q := Meanings(m), Meanings(n);
    assert Keys(p) == Keys(m) && Keys(q) == Keys(n);
    SortedMeanings(m, le);
    SortedMeanings(n, le);
    SameMapSameOrder(p, q, le);
  }

  lemma SameMapSameOrder<T>(p: seq<Pair<T>>, q: seq<Pair<T>>, le: Collation)
    requires TotalPreorder(le) && Separates(le) && Distinct(Keys(p)) && Distinct(Keys(q))
    requires MapOf(p) == MapOf(q)
    ensures SortByKey(p, le) == SortByKey(q, le)
  {
    var sp, sq := SortByKey(p, le), SortByKey(q, le);
    SortDistinct(p, le);
    SortDistinct(q, le);
    SortSorts(p, le);
    SortSorts(q, le);
    SortedMap(p, le);
    SortedMap(q, le);
    MapKeys(sp);
    MapKeys(sq);
    assert Ordered(Keys(sp), le) && Ordered(Keys(sq), le);
    SameDistinctElements(Keys(sp), Keys(sq));
    OrderUnique(Keys(sp), Keys(sq), le);
    forall i | 0 <= i < |sp| ensures sp[i] == sq[i] {
      assert Keys(sp)[i] == Keys(sq)[i];
      EntryOfMap(sp, i);
      EntryOfMap(sq, i);
    }
  }

  lemma MapKeys<T>(entries: seq<Pair<T>>)
    requires Distinct(Keys(entries))
    ensures forall k :: k in Keys(entries) <==> k in MapOf(entries)
  {
    MapOfEntries(entries);
    forall k ensures k in Keys(entries) <==> k in MapOf(entries) {
      if k in Keys(entries) {
        var i :| 0 <= i < |entries| && Keys(entries)[i] == k;
        assert Pair(k, entries[i].value) in entries;
        assert Maps(MapOf(entries), k, entries[i].value);
      }
      if k in MapOf(entries) {
        assert Maps(MapOf(entries), k, MapOf(entries)[k]);
        var i :| 0 <= i < |entries| && entries[i] == Pair(k, MapOf(entries)[k]);
        assert Keys(entries)[i] == k;
      }
    }
  }

  lemma EntryOfMap<T>(entries: seq<Pair<T>>, i: nat)
    requires Distinct(Keys(entries)) && i < |entries|
    ensures entries[i].key in MapOf(entries) && MapOf(entries)[entries[i].key] == entries[i].value
  {
    MapOfEntries(entries);
    assert Pair(entries[i].key, entries[i].value) in entries;
    assert Maps(MapOf(entries), entries[i].key, entries[i].value);
  }

  /** The two objects that hold k and l in either order. */
  function Both(k: Text, l: Text): Json {
    Obj([Pair(k, Null), Pair(l, Null)])
  }

  /** A collation that ties two different keys prints one meaning in two ways. */
  lemma TiedKeysPrintTwice(k: Text, l: Text, le: Collation)
    requires le(k, l) && le(l, k) && k != l
    ensures WellFormed(Both(k, l)) && WellFormed(Both(l, k)) && Meaning(Both(k, l)) == Meaning(Both(l, k))
    ensures Canonical(Both(k, l), le) != Canonical(Both(l, k), le)
  {
    BothFacts(k, l, le);
    BothFacts(l, k, le);
    var p, q := Printed(Both(k, l).members, le), Printed(Both(l, k).members, le);
    if Canonical(Both(k, l), le) == Canonical(Both(l, k), le) {
      var r, s := Tail(Labelled(p)[1..]) + [CLOSE_BRACE], Tail(Labelled(q)[1..]) + [CLOSE_BRACE];
      BothStart(k, l, le);
      BothStart(l, k, le);
      QuotedPrefixFree(k, l, [COLON] + (p[0].value + r), [COLON] + (q[0].value + s));
    }
  }

  lemma BothFacts(k: Text, l: Text, le: Collation)
    requires le(k, l) && k != l
    ensures WellFormed(Both(k, l))
    ensures Meaning(Both(k, l)) == VObj(map[k := VNull, l := VNull])
    ensures SortByKey(Printed(Both(k, l).members, le), le) == Printed(Both(k, l).members, le)
  {
    var m := Both(k, l).members;
    assert Keys(m) == [k, l];
    var ms := Meanings(m);
    assert Meaning(m[0].value) == VNull && Meaning(m[1].value) == VNull;
    assert ms[0] == Pair(m[0].key, Meaning(m[0].value)) && ms[1] == Pair(m[1].key, Meaning(m[1].value));
    assert ms[0] == Pair(k, VNull) && ms[1] == Pair(l, VNull);
    assert ms[..1] == [Pair(k, VNull)] && ms[..1][..0] == [];
    assert MapOf(ms[..1]) == map[k := VNull];
    var p := Printed(m, le);
    assert p == [p[0], p[1]] && p[1..] == [p[1]];
    assert SortByKey(p[1..], le) == [p[1]];
  }

  lemma ObjectText(members: seq<Pair<Json>>, le: Collation)
    ensures Canonical(Obj(members), le)[1..] == Join(Labelled(SortByKey(Printed(members, le), le))) + [CLOSE_BRACE]
  {
  }

  lemma BothStart(k: Text, l: Text, le: Collation)
    requires SortByKey(Printed(Both(k, l).members, le), le) == Printed(Both(k, l).members, le)
    ensures var p := Printed(Both(k, l).members, le);
            Canonical(Both(k, l), le)[1..]
            == Quoted(k) + ([COLON] + (p[0].value + (Tail(Labelled(p)[1..]) + [CLOSE_BRACE])))
  {
    var p := Printed(Both(k, l).members, le);
    ObjectText(Both(k, l).members, le);
    LabelledStart(p, [CLOSE_BRACE]);
  }

  lemma LabelledStart(p: seq<Pair<Text>>, x: Text)
    requires p != []
    ensures Join(Labelled(p)) + x == Quoted(p[0].key) + ([COLON] + (p[0].value + (Tail(Labelled(p)[1..]) + x)))
  {
    var s := Labelled(p);
    JoinStep(s, x);
    assert s[0] == Quoted(p[0].key) + ([COLON] + p[0].value);
  }

  ghost predicate IdentifiesMeanings(le: Collation) {
    forall a, b {:trigger Canonical(a, le), Canonical(b, le)} | WellFormed(a) && WellFormed(b) ::
      Canonical(a, le) == Canonical(b, le) <==> Meaning(a) == Meaning(b)
  }

  /** The canonical text identifies values with members as maps exactly when the collation
      never ties two different keys. */
  lemma CanonicalJsonIdentifiesMeanings(le: Collation)
    requires TotalPreorder(le)
    ensures IdentifiesMeanings(le) <==> Separates(le)
  {
    if Separates(le) {
      forall a, b | WellFormed(a) && WellFormed(b)
        ensures Canonical(a, le) == Canonical(b, le) <==> Meaning(a) == Meaning(b)
      {
        if Canonical(a, le) == Canonical(b, le) { CanonicalJsonInjective(a, b, le); }
        if Meaning(a) == Meaning(b) { CanonicalJsonIgnoresMemberOrder(a, b, le); }
      }
    } else {
      var k, l :| le(k, l) && le(l, k) && k != l;
      TiedKeysPrintTwice(k, l, le);
    }
  }
}
