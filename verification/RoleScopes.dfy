/** Role scopes stored as percent-encoded pairs: shared/organization-access.ts. */
module RoleScopes {
  import opened Options
  import opened Texts
  import opened CanonicalJson
  import opened OpenApiDocuments

  const PERCENT: CodeUnit := 0x25

  type Byte = b: int | 0 <= b < 0x100 witness 0

  /** A-Z a-z 0-9 - _ . ! ~ * ' ( ) */
  predicate Unreserved(u: CodeUnit) {
    || 0x41 <= u <= 0x5A || 0x61 <= u <= 0x7A || 0x30 <= u <= 0x39
    || u in {0x2D, 0x5F, 0x2E, 0x21, 0x7E, 0x2A, 0x27, 0x28, 0x29}
  }

  function Digit(n: nat): (u: CodeUnit)
    requires n < 16
  {
    if n < 10 then 0x30 + n else 0x41 + n - 10
  }

  /** The value of a hexadecimal digit of either case. */
  function Nibble(u: CodeUnit): Option<nat> {
    if 0x30 <= u <= 0x39 then Some(u - 0x30)
    else if 0x41 <= u <= 0x46 then Some(u - 0x41 + 10)
    else if 0x61 <= u <= 0x66 then Some(u - 0x61 + 10)
    else None
  }

  function Escaped(b: Byte): (t: Text)
    ensures |t| == 3
  {
    [PERCENT, Digit(b / 16), Digit(b % 16)]
  }

  function EscapedAll(bytes: seq<Byte>): Text {
    if bytes == [] then [] else Escaped(bytes[0]) + EscapedAll(bytes[1..])
  }

  // ---- UTF-8 (section 3 of RFC 3629) ----

  /** A Unicode scalar value. */
  predicate Scalar(c: int) { 0 <= c < 0xD800 || 0xE000 <= c < 0x110000 }

  function Utf8(c: int): (bytes: seq<Byte>)
    requires Scalar(c)
    ensures 1 <= |bytes| <= 4
  {
    if c < 0x80 then [c]
    else if c < 0x800 then [0xC0 + c / 64, 0x80 + c % 64]
    else if c < 0x10000 then [0xE0 + c / 64 / 64, 0x80 + c / 64 % 64, 0x80 + c % 64]
    else [0xF0 + c / 64 / 64 / 64, 0x80 + c / 64 / 64 % 64, 0x80 + c / 64 % 64, 0x80 + c % 64]
  }

  /** How many bytes a sequence that starts with b has; 0 if none may. */
  function Utf8Length(b: Byte): nat {
    if b < 0x80 then 1 else if b < 0xC0 then 0 else if b < 0xE0 then 2 else if b < 0xF0 then 3 else if b < 0xF8 then 4 else 0
  }

  predicate Continuation(b: Byte) { 0x80 <= b < 0xC0 }

  /** What a byte carries beyond its marker. */
  function Bits(b: Byte, marker: int): int { b - marker }

  /** The scalar that exactly these bytes encode: no overlong form, no surrogate, nothing beyond. */
  function FromUtf8(bytes: seq<Byte>): Option<int> {
    if |bytes| == 1 && bytes[0] < 0x80 then Some(bytes[0])
    else if |bytes| == 2 && Utf8Length(bytes[0]) == 2 && Continuation(bytes[1]) then
      Checked(Bits(bytes[0], 0xC0) * 64 + Bits(bytes[1], 0x80), 0x80)
    else if |bytes| == 3 && Utf8Length(bytes[0]) == 3 && Continuation(bytes[1]) && Continuation(bytes[2]) then
      Checked(Bits(bytes[0], 0xE0) * 4096 + Bits(bytes[1], 0x80) * 64 + Bits(bytes[2], 0x80), 0x800)
    else if |bytes| == 4 && Utf8Length(bytes[0]) == 4 && Continuation(bytes[1]) && Continuation(bytes[2]) && Continuation(bytes[3]) then
      Checked(Bits(bytes[0], 0xF0) * 262144 + Bits(bytes[1], 0x80) * 4096 + Bits(bytes[2], 0x80) * 64 + Bits(bytes[3], 0x80), 0x10000)
    else None
  }

  function Checked(c: int, least: int): Option<int> {
    if least <= c && Scalar(c) then Some(c) else None
  }

  /** The UTF-16 code units of a scalar. */
  function Units(c: int): (t: Text)
    requires Scalar(c)
    ensures 1 <= |t| <= 2
  {
    if c < 0x10000 then [c] else [0xD800 + (c - 0x10000) / 1024, 0xDC00 + (c - 0x10000) % 1024]
  }

  function Bits16(u: CodeUnit, marker: int): int { u - marker }

  // ---- encodeURIComponent and decodeURIComponent ----

  /** The first scalar of a text and how many units it takes; None at an unpaired surrogate. */
  function FirstScalar(s: Text): (r: Option<(int, nat)>)
    requires s != []
    ensures r.Some? ==> Scalar(r.value.0) && 1 <= r.value.1 <= |s| && Units(r.value.0) == s[..r.value.1]
  {
    if PairAt(s) then Some((0x10000 + Bits16(s[0], 0xD800) * 1024 + Bits16(s[1], 0xDC00), 2))
    else if High(s[0]) || Low(s[0]) then None
    else Some((s[0], 1))
  }

  function Encode(s: Text): Option<Text>
    decreases |s|
  {
    if s == [] then Some([])
    else
      var first := FirstScalar(s);
      if first.None? then None
      else
        var rest := Encode(s[first.value.1..]);
        if rest.None? then None
        else Some((if Unreserved(s[0]) then [s[0]] else EscapedAll(Utf8(first.value.0))) + rest.value)
  }

  /** No unpaired surrogate. */
  predicate WellPaired(s: Text)
    decreases |s|
  {
    s == [] || (FirstScalar(s).Some? && WellPaired(s[FirstScalar(s).value.1..]))
  }

  function EscapeAt(t: Text): Option<Byte> {
    if |t| >= 3 && t[0] == PERCENT && Nibble(t[1]).Some? && Nibble(t[2]).Some?
    then Some(Nibble(t[1]).value * 16 + Nibble(t[2]).value) else None
  }

  /** n escapes in a row. */
  function EscapesAt(t: Text, n: nat): (r: Option<seq<Byte>>)
    ensures r.Some? ==> |r.value| == n && |t| >= 3 * n
  {
    if n == 0 then Some([])
    else
      var first := EscapeAt(t);
      if first.None? then None
      else
        var rest := EscapesAt(t[3..], n - 1);
        if rest.None? then None else Some([first.value] + rest.value)
  }

  function Decode(t: Text): Option<Text>
    decreases |t|
  {
    if t == [] then Some([])
    else if t[0] != PERCENT then
      var rest := Decode(t[1..]);
      if rest.None? then None else Some([t[0]] + rest.value)
    else
      var first := EscapeAt(t);
      if first.None? || Utf8Length(first.value) == 0 then None
      else
        var n := Utf8Length(first.value);
        var bytes := EscapesAt(t, n);
        if bytes.None? || FromUtf8(bytes.value).None? || !Scalar(FromUtf8(bytes.value).value) then None
        else
          var rest := Decode(t[3 * n..]);
          if rest.None? then None else Some(Units(FromUtf8(bytes.value).value) + rest.value)
  }

  // ---- Round trip of one component ----

  lemma EscapeReads(b: Byte, rest: Text)
    ensures EscapeAt(Escaped(b) + rest) == Some(b)
    ensures (Escaped(b) + rest)[3..] == rest
  {
  }

  lemma {:induction false} EscapesRead(bytes: seq<Byte>, rest: Text)
    ensures |EscapedAll(bytes)| == 3 * |bytes|
    ensures EscapesAt(EscapedAll(bytes) + rest, |bytes|) == Some(bytes)
    ensures (EscapedAll(bytes) + rest)[3 * |bytes|..] == rest
  {
    if bytes == [] {
      assert [] + rest == rest;
    } else {
      var later := EscapedAll(bytes[1..]);
      EscapesRead(bytes[1..], rest);
      EscapeReads(bytes[0], later + rest);
      assert EscapedAll(bytes) + rest == Escaped(bytes[0]) + (later + rest);
      assert bytes == [bytes[0]] + bytes[1..];
    }
  }

  lemma Utf8RoundTrip(c: int)
    requires Scalar(c)
    ensures FromUtf8(Utf8(c)) == Some(c) && Utf8Length(Utf8(c)[0]) == |Utf8(c)|
  {
    assert c == c / 64 * 64 + c % 64;
    assert c / 64 == c / 64 / 64 * 64 + c / 64 % 64;
    assert c / 64 / 64 == c / 64 / 64 / 64 * 64 + c / 64 / 64 % 64;
  }

  lemma DecodeStep(t: Text, bytes: seq<Byte>, c: int)
    requires bytes != [] && EscapeAt(t) == Some(bytes[0]) && Utf8Length(bytes[0]) == |bytes|
    requires EscapesAt(t, |bytes|) == Some(bytes) && FromUtf8(bytes) == Some(c) && Scalar(c)
    requires Decode(t[3 * |bytes|..]).Some?
    ensures Decode(t) == Some(Units(c) + Decode(t[3 * |bytes|..]).value)
  {
  }

  lemma DecodeEscaped(c: int, rest: Text)
    requires Scalar(c) && Decode(rest).Some?
    ensures Decode(EscapedAll(Utf8(c)) + rest) == Some(Units(c) + Decode(rest).value)
  {
    Utf8RoundTrip(c);
    DecodeBytes(Utf8(c), c, rest);
  }

  lemma DecodeBytes(bytes: seq<Byte>, c: int, rest: Text)
    requires bytes != [] && Utf8Length(bytes[0]) == |bytes| && FromUtf8(bytes) == Some(c) && Scalar(c) && Decode(rest).Some?
    ensures Decode(EscapedAll(bytes) + rest) == Some(Units(c) + Decode(rest).value)
  {
    EscapesRead(bytes, rest);
    EscapesStart(EscapedAll(bytes) + rest, bytes);
    DecodeStep(EscapedAll(bytes) + rest, bytes, c);
  }

  lemma EscapesStart(t: Text, bytes: seq<Byte>)
    requires bytes != [] && EscapesAt(t, |bytes|) == Some(bytes)
    ensures EscapeAt(t) == Some(bytes[0])
  {
  }

  lemma DecodePlain(u: CodeUnit, rest: Text)
    requires Unreserved(u) && Decode(rest).Some?
    ensures Decode([u] + rest) == Some([u] + Decode(rest).value)
  {
    assert ([u] + rest)[1..] == rest;
  }

  /** One scalar in front of an encoded rest. */
  lemma DecodeFirst(s: Text, rest: Text)
    requires s != [] && FirstScalar(s).Some? && Decode(rest) == Some(s[FirstScalar(s).value.1..])
    ensures Decode((if Unreserved(s[0]) then [s[0]] else EscapedAll(Utf8(FirstScalar(s).value.0))) + rest) == Some(s)
  {
    var (c, n) := FirstScalar(s).value;
    assert s == s[..n] + s[n..];
    if Unreserved(s[0]) { DecodePlain(s[0], rest); } else { DecodeEscaped(c, rest); }
  }

  /** Encoding succeeds exactly on texts without unpaired surrogates, and decoding undoes it. */
  lemma {:induction false} ComponentRoundTrip(s: Text)
    ensures Encode(s).Some? <==> WellPaired(s)
    ensures Encode(s).Some? ==> Decode(Encode(s).value) == Some(s)
    decreases |s|
  {
    if s != [] && FirstScalar(s).Some? {
      var rest := s[FirstScalar(s).value.1..];
      ComponentRoundTrip(rest);
      if Encode(rest).Some? { DecodeFirst(s, Encode(rest).value); }
    }
  }

  lemma {:induction false} EncodedHasNoSlash(s: Text)
    requires Encode(s).Some?
    ensures SLASH !in Encode(s).value && (Encode(s).value == [] <==> s == [])
    decreases |s|
  {
    if s != [] {
      var (c, n) := FirstScalar(s).value;
      EncodedHasNoSlash(s[n..]);
      EscapedHasNoSlash(Utf8(c));
    }
  }

  lemma {:induction false} EscapedHasNoSlash(bytes: seq<Byte>)
    ensures SLASH !in EscapedAll(bytes) && (EscapedAll(bytes) == [] <==> bytes == [])
  {
    if bytes != [] { EscapedHasNoSlash(bytes[1..]); }
  }

  // ---- Pairs ----

  datatype RoleScope = RoleScope(resourceId: Text, scope: Text)

  /** None where encodeURIComponent throws. */
  function EncodeRoleScope(resourceId: Text, scope: Text): Option<Text> {
    if Encode(resourceId).None? || Encode(scope).None? then None
    else Some(Encode(resourceId).value + [SLASH] + Encode(scope).value)
  }

  /** value.indexOf('/') */
  function IndexOfSlash(t: Text): (i: int)
    ensures -1 <= i < |t|
    ensures i == -1 ==> forall j | 0 <= j < |t| :: t[j] != SLASH
    ensures i >= 0 ==> t[i] == SLASH && forall j | 0 <= j < i :: t[j] != SLASH
  {
    if t == [] then -1
    else if t[0] == SLASH then 0
    else
      var i := IndexOfSlash(t[1..]);
      assert forall j | 1 <= j < |t| :: t[j] == t[1..][j - 1];
      if i == -1 then -1 else i + 1
  }

  function DecodeRoleScope(value: Text): Option<RoleScope> {
    var separator := IndexOfSlash(value);
    if separator < 1 || separator == |value| - 1 then None
    else
      var resourceId, scope := Decode(value[..separator]), Decode(value[separator + 1..]);
      if resourceId.None? || scope.None? then None else Some(RoleScope(resourceId.value, scope.value))
  }

  lemma FirstSlash(a: Text, b: Text)
    requires SLASH !in a
    ensures IndexOfSlash(a + [SLASH] + b) == |a|
  {
    var t := a + [SLASH] + b;
    assert t[|a|] == SLASH;
    assert forall j | 0 <= j < |a| :: t[j] == a[j] && a[j] in a;
  }

  /** A stored role scope reads back as it was exactly if neither part is empty. */
  lemma RoleScopeRoundTrip(resourceId: Text, scope: Text)
    ensures EncodeRoleScope(resourceId, scope).Some? <==> WellPaired(resourceId) && WellPaired(scope)
    ensures EncodeRoleScope(resourceId, scope).Some? ==>
              DecodeRoleScope(EncodeRoleScope(resourceId, scope).value)
              == if resourceId != [] && scope != [] then Some(RoleScope(resourceId, scope)) else None
  {
    ComponentRoundTrip(resourceId);
    ComponentRoundTrip(scope);
    if EncodeRoleScope(resourceId, scope).Some? {
      var a, b := Encode(resourceId).value, Encode(scope).value;
      EncodedHasNoSlash(resourceId);
      EncodedHasNoSlash(scope);
      FirstSlash(a, b);
      assert (a + [SLASH] + b)[..|a|] == a && (a + [SLASH] + b)[|a| + 1..] == b;
    }
  }

  /** So two role scopes are never stored alike. */
  lemma RoleScopesStoredApart(r: Text, s: Text, q: Text, t: Text)
    requires EncodeRoleScope(r, s).Some? && EncodeRoleScope(r, s) == EncodeRoleScope(q, t)
    ensures r == q && s == t
  {
    ComponentRoundTrip(r);
    ComponentRoundTrip(s);
    ComponentRoundTrip(q);
    ComponentRoundTrip(t);
    EncodedHasNoSlash(r);
    EncodedHasNoSlash(q);
    var a, b, c, d := Encode(r).value, Encode(s).value, Encode(q).value, Encode(t).value;
    FirstSlash(a, b);
    FirstSlash(c, d);
    assert a == (a + [SLASH] + b)[..|a|] && c == (c + [SLASH] + d)[..|c|];
    assert b == (a + [SLASH] + b)[|a| + 1..] && d == (c + [SLASH] + d)[|c| + 1..];
  }
}
