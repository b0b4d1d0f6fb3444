/** Comparing authorization contexts: subset, equality, and matching against a request. */
module AuthorizationDetails {
  import opened Texts
  import opened CanonicalJson
  import opened Assignments

  /** One authorization detail is a JSON object. */
  type Detail = d: Json | d.Obj? witness Obj([])

  ghost predicate AllWellFormed(details: seq<Detail>) {
    forall i | 0 <= i < |details| :: WellFormed(details[i])
  }

  /** details.map(canonicalJson) */
  function Forms(details: seq<Detail>, le: Collation): (forms: seq<Text>)
    ensures |forms| == |details|
    ensures forall i | 0 <= i < |forms| :: forms[i] == Canonical(details[i], le)
  {
    seq(|details|, i requires 0 <= i < |details| => Canonical(details[i], le))
  }

  function DetailMeanings(details: seq<Detail>): (r: seq<Value>)
    ensures |r| == |details|
    ensures forall i | 0 <= i < |r| :: r[i] == Meaning(details[i])
  {
    seq(|details|, i requires 0 <= i < |details| => Meaning(details[i]))
  }

  // ---- Inclusion ----

  /** The index of the first occurrence, or -1. */
  method IndexOf(texts: seq<Text>, text: Text) returns (index: int)
    ensures -1 <= index < |texts|
    ensures index == -1 ==> text !in texts
    ensures index >= 0 ==> texts[index] == text && text !in texts[..index]
  {
    index := 0;
    while index < |texts|
      invariant 0 <= index <= |texts|
      invariant text !in texts[..index]
    {
      if texts[index] == text { return; }
      index := index + 1;
    }
    index := -1;
  }

  /** Strikes each form off the available ones. */
  method StrikeOff(forms: seq<Text>, available: seq<Text>) returns (covered: bool)
    ensures covered <==> multiset(forms) <= multiset(available)
  {
    var remaining := available;
    var i := 0;
    while i < |forms|
      invariant 0 <= i <= |forms|
      invariant multiset(available) == multiset(remaining) + multiset(forms[..i])
    {
      var index := IndexOf(remaining, forms[i]);
      if index == -1 {
        Exhausted(available, remaining, forms, i);
        return false;
      }
      Struck(available, remaining, forms, i, index);
      remaining := remaining[..index] + remaining[index + 1..];
      i := i + 1;
    }
    assert forms[..i] == forms;
    return true;
  }

  /** Multiset inclusion of canonical forms. */
  method IsAuthorizationDetailsSubset(requested: seq<Detail>, allowed: seq<Detail>, le: Collation) returns (covered: bool)
    ensures covered <==> multiset(Forms(requested, le)) <= multiset(Forms(allowed, le))
  {
    covered := StrikeOff(Forms(requested, le), Forms(allowed, le));
  }

  lemma Exhausted(available: seq<Text>, remaining: seq<Text>, forms: seq<Text>, i: nat)
    requires i < |forms| && forms[i] !in remaining
    requires multiset(available) == multiset(remaining) + multiset(forms[..i])
    ensures !(multiset(forms) <= multiset(available))
  {
    PrefixCounts(forms, i);
    var form := forms[i];
    assert multiset(remaining)[form] == 0;
    assert multiset(forms)[form] > multiset(available)[form];
  }

  lemma Struck(available: seq<Text>, remaining: seq<Text>, forms: seq<Text>, i: nat, index: nat)
    requires i < |forms| && index < |remaining| && remaining[index] == forms[i]
    requires multiset(available) == multiset(remaining) + multiset(forms[..i])
    ensures multiset(available) == multiset(remaining[..index] + remaining[index + 1..]) + multiset(forms[..i + 1])
  {
    PrefixCounts(forms, i);
    SpliceRemoves(remaining, index);
  }

  /** Every detail occurs equally often as a form and as a meaning. */
  lemma {:induction false} FormsCountMeanings(details: seq<Detail>, v: Json, le: Collation)
    requires TotalPreorder(le) && Separates(le) && AllWellFormed(details) && WellFormed(v)
    ensures multiset(Forms(details, le))[Canonical(v, le)] == multiset(DetailMeanings(details))[Meaning(v)]
  {
    if details != [] {
      FormsCountMeanings(details[1..], v, le);
      assert Forms(details, le)[1..] == Forms(details[1..], le);
      assert DetailMeanings(details)[1..] == DetailMeanings(details[1..]);
      HeadCounts(Forms(details, le), Canonical(v, le));
      HeadCounts(DetailMeanings(details), Meaning(v));
      SameFormSameMeaning(details[0], v, le);
    }
  }

  lemma SameFormSameMeaning(a: Json, b: Json, le: Collation)
    requires TotalPreorder(le) && Separates(le) && WellFormed(a) && WellFormed(b)
    ensures Canonical(a, le) == Canonical(b, le) <==> Meaning(a) == Meaning(b)
  {
    CanonicalJsonIdentifiesMeanings(le);
  }

  /** Inclusion and equality of contexts as multisets of what their details mean. */
  lemma FormsCompareAsMeanings(a: seq<Detail>, b: seq<Detail>, le: Collation)
    requires TotalPreorder(le) && Separates(le) && AllWellFormed(a) && AllWellFormed(b)
    ensures multiset(Forms(a, le)) <= multiset(Forms(b, le))
            <==> multiset(DetailMeanings(a)) <= multiset(DetailMeanings(b))
    ensures multiset(Forms(a, le)) == multiset(Forms(b, le))
            <==> multiset(DetailMeanings(a)) == multiset(DetailMeanings(b))
  {
    InclusionAsMeanings(a, b, le);
    InclusionAsMeanings(b, a, le);
    AntisymmetricInclusion(multiset(Forms(a, le)), multiset(Forms(b, le)));
    AntisymmetricInclusion(multiset(DetailMeanings(a)), multiset(DetailMeanings(b)));
  }

  lemma AntisymmetricInclusion<T>(m: multiset<T>, n: multiset<T>)
    ensures m == n <==> m <= n && n <= m
  {
  }

  lemma InclusionAsMeanings(a: seq<Detail>, b: seq<Detail>, le: Collation)
    requires TotalPreorder(le) && Separates(le) && AllWellFormed(a) && AllWellFormed(b)
    ensures multiset(Forms(a, le)) <= multiset(Forms(b, le))
            <==> multiset(DetailMeanings(a)) <= multiset(DetailMeanings(b))
  {
    var fa, fb, ma, mb := Forms(a, le), Forms(b, le), DetailMeanings(a), DetailMeanings(b);
    forall i | 0 <= i < |a|
      ensures multiset(fa)[fa[i]] == multiset(ma)[ma[i]] && multiset(fb)[fa[i]] == multiset(mb)[ma[i]]
    {
      FormsCountMeanings(a, a[i], le);
      FormsCountMeanings(b, a[i], le);
    }
    InclusionByElements(fa, fb);
    InclusionByElements(ma, mb);
  }

  lemma InclusionByElements<T>(s: seq<T>, t: seq<T>)
    ensures multiset(s) <= multiset(t) <==> forall i | 0 <= i < |s| :: multiset(s)[s[i]] <= multiset(t)[s[i]]
  {
    if forall i | 0 <= i < |s| :: multiset(s)[s[i]] <= multiset(t)[s[i]] {
      forall x ensures multiset(s)[x] <= multiset(t)[x] {
        if x in multiset(s) {
          assert x in s;
          var i :| 0 <= i < |s| && s[i] == x;
        }
      }
    }
  }

  // ---- Equality ----

  /** The default sort order of JavaScript strings: code unit by code unit. */
  predicate UnitLe(a: Text, b: Text) {
    a == [] || (b != [] && (a[0] < b[0] || (a[0] == b[0] && UnitLe(a[1..], b[1..]))))
  }

  lemma {:induction false} UnitLeTotal(a: Text, b: Text)
    ensures UnitLe(a, b) || UnitLe(b, a)
  {
    if a != [] && b != [] { UnitLeTotal(a[1..], b[1..]); }
  }

  lemma {:induction false} UnitLeAntisymmetric(a: Text, b: Text)
    requires UnitLe(a, b) && UnitLe(b, a)
    ensures a == b
  {
    if a != [] {
      UnitLeAntisymmetric(a[1..], b[1..]);
      assert a == [a[0]] + a[1..] && b == [b[0]] + b[1..];
    }
  }

  lemma {:induction false} UnitLeTransitive(a: Text, b: Text, c: Text)
    requires UnitLe(a, b) && UnitLe(b, c)
    ensures UnitLe(a, c)
  {
    if a != [] && a[0] == b[0] && b[0] == c[0] { UnitLeTransitive(a[1..], b[1..], c[1..]); }
  }

  lemma UnitLeOrders()
    ensures TotalPreorder(UnitLe) && Separates(UnitLe)
  {
    forall a, b ensures UnitLe(a, b) || UnitLe(b, a) { UnitLeTotal(a, b); }
    forall a, b, c | UnitLe(a, b) && UnitLe(b, c) ensures UnitLe(a, c) { UnitLeTransitive(a, b, c); }
    forall a, b | UnitLe(a, b) && UnitLe(b, a) ensures a == b { UnitLeAntisymmetric(a, b); }
  }

  /** Strings as entries keyed by themselves. */
  function Bare(texts: seq<Text>): (entries: seq<Pair<Text>>)
    ensures |entries| == |texts| && Keys(entries) == texts
  {
    seq(|texts|, i requires 0 <= i < |texts| => Pair(texts[i], texts[i]))
  }

  /** texts.sort() */
  function SortTexts(texts: seq<Text>): (sorted: seq<Text>)
    ensures |sorted| == |texts|
  {
    Keys(SortByKey(Bare(texts), UnitLe))
  }

  lemma {:induction false} KeyCounts(entries: seq<Pair<Text>>, t: Text)
    requires forall i | 0 <= i < |entries| :: entries[i].value == entries[i].key
    ensures multiset(Keys(entries))[t] == multiset(entries)[Pair(t, t)]
  {
    if entries != [] {
      KeyCounts(entries[1..], t);
      assert Keys(entries)[1..] == Keys(entries[1..]);
      HeadCounts(entries, Pair(t, t));
      HeadCounts(Keys(entries), t);
    }
  }

  lemma SortTextsSorts(texts: seq<Text>)
    ensures multiset(SortTexts(texts)) == multiset(texts) && Ordered(SortTexts(texts), UnitLe)
  {
    UnitLeOrders();
    var sorted := SortByKey(Bare(texts), UnitLe);
    SortPermutes(Bare(texts), UnitLe);
    forall i | 0 <= i < |sorted| ensures sorted[i].value == sorted[i].key {
      assert sorted[i] in multiset(sorted);
      assert sorted[i] in Bare(texts);
    }
    forall t ensures multiset(Keys(sorted))[t] == multiset(texts)[t] {
      KeyCounts(sorted, t);
      KeyCounts(Bare(texts), t);
    }
    SortSorts(Bare(texts), UnitLe);
  }

  lemma SortTextsAlone(text: Text)
    ensures SortTexts([text]) == [text]
  {
    SortTextsSorts([text]);
    var sorted := SortTexts([text]);
    assert |multiset(sorted)| == |sorted| && |multiset([text])| == 1;
    assert sorted[0] in multiset(sorted);
  }

  predicate ExactAuthorizationDetails(left: seq<Detail>, right: seq<Detail>, le: Collation) {
    |left| == |right| &&
    var leftEntries, rightEntries := SortTexts(Forms(left, le)), SortTexts(Forms(right, le));
    forall i | 0 <= i < |leftEntries| :: leftEntries[i] == rightEntries[i]
  }

  /** Sorting and comparing position by position decides multiset equality of canonical forms. */
  lemma ExactIsMultisetEquality(left: seq<Detail>, right: seq<Detail>, le: Collation)
    ensures ExactAuthorizationDetails(left, right, le) <==> multiset(Forms(left, le)) == multiset(Forms(right, le))
  {
    var fl, fr := Forms(left, le), Forms(right, le);
    SortTextsSorts(fl);
    SortTextsSorts(fr);
    if ExactAuthorizationDetails(left, right, le) {
      assert SortTexts(fl) == SortTexts(fr);
    } else if multiset(fl) == multiset(fr) {
      UnitLeOrders();
      assert |multiset(fl)| == |fl| && |multiset(fr)| == |fr|;
      OrderUnique(SortTexts(fl), SortTexts(fr), UnitLe);
    }
  }
}
