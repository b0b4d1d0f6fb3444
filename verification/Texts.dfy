/** JavaScript strings, and sorting of keyed entries by a caller-supplied collation. */
module Texts {
  import opened Options

  /** One UTF-16 code unit: a JavaScript string may hold unpaired surrogates. */
  type CodeUnit = u: int | 0 <= u < 0x10000 witness 0

  type Text = seq<CodeUnit>

  /** An entry of a JavaScript object: its own key and value. */
  datatype Pair<+T> = Pair(key: Text, value: T)

  /** `le(a, b)` says that the collation does not put a after b. */
  type Collation = (Text, Text) -> bool

  /** What Array.prototype.sort needs from its comparator. */
  ghost predicate TotalPreorder(le: Collation) {
    && (forall a, b :: le(a, b) || le(b, a))
    && (forall a, b, c :: le(a, b) && le(b, c) ==> le(a, c))
  }

  /** The collation never ties two different strings. */
  ghost predicate Separates(le: Collation) {
    forall a, b :: le(a, b) && le(b, a) ==> a == b
  }

  function Keys<T>(entries: seq<Pair<T>>): (keys: seq<Text>)
    ensures |keys| == |entries|
    ensures forall i | 0 <= i < |keys| :: keys[i] == entries[i].key
  {
    seq(|entries|, i requires 0 <= i < |entries| => entries[i].key)
  }

  ghost predicate Distinct<T>(s: seq<T>) {
    forall i, j | 0 <= i < j < |s| :: s[i] != s[j]
  }

  /** record[key], for an object that has each key once. */
  function Lookup<T>(members: seq<Pair<T>>, key: Text): (value: Option<T>)
    ensures value.Some? ==> exists i :: 0 <= i < |members| && members[i].key == key && members[i].value == value.value
    ensures value.None? ==> forall i | 0 <= i < |members| :: members[i].key != key
  {
    if members == [] then None
    else if members[0].key == key then Some(members[0].value)
    else
      var rest := Lookup(members[1..], key);
      assert rest.Some? ==> forall i | 0 <= i < |members[1..]| :: members[1..][i] == members[i + 1];
      rest
  }

  lemma LookupMember<T>(members: seq<Pair<T>>, i: nat)
    requires Distinct(Keys(members)) && i < |members|
    ensures Lookup(members, members[i].key) == Some(members[i].value)
  {
    FoundMember(members, i, Lookup(members, members[i].key));
  }

  lemma FoundMember<T>(members: seq<Pair<T>>, i: nat, found: Option<T>)
    requires Distinct(Keys(members)) && i < |members|
    requires found.None? ==> forall j | 0 <= j < |members| :: members[j].key != members[i].key
    requires found.Some? ==> exists j :: 0 <= j < |members| && members[j].key == members[i].key && members[j].value == found.value
    ensures found == Some(members[i].value)
  {
    if found.Some? {
      var j :| 0 <= j < |members| && members[j].key == members[i].key && members[j].value == found.value;
      SameKeySamePlace(Keys(members), i, j);
    }
  }

  lemma SameKeySamePlace(keys: seq<Text>, i: nat, j: nat)
    requires Distinct(keys) && i < |keys| && j < |keys| && keys[i] == keys[j]
    ensures i == j
  {
  }

  ghost predicate Sorted<T>(entries: seq<Pair<T>>, le: Collation) {
    forall i, j | 0 <= i < j < |entries| :: le(entries[i].key, entries[j].key)
  }

  /** A stable sort of the entries by key. */
  function SortByKey<T>(entries: seq<Pair<T>>, le: Collation): (sorted: seq<Pair<T>>)
    ensures |sorted| == |entries|
  {
    if entries == [] then [] else Insert(entries[0], SortByKey(entries[1..], le), le)
  }

  function Insert<T>(entry: Pair<T>, sorted: seq<Pair<T>>, le: Collation): (r: seq<Pair<T>>)
    ensures |r| == |sorted| + 1
  {
    if sorted == [] || le(entry.key, sorted[0].key) then [entry] + sorted
    else [sorted[0]] + Insert(entry, sorted[1..], le)
  }

  lemma {:induction false} InsertPermutes<T>(entry: Pair<T>, sorted: seq<Pair<T>>, le: Collation)
    ensures multiset(Insert(entry, sorted, le)) == multiset(sorted) + multiset{entry}
  {
    if sorted == [] || le(entry.key, sorted[0].key) {
    } else {
      InsertPermutes(entry, sorted[1..], le);
      assert sorted == [sorted[0]] + sorted[1..];
    }
  }

  lemma {:induction false} SortPermutes<T>(entries: seq<Pair<T>>, le: Collation)
    ensures multiset(SortByKey(entries, le)) == multiset(entries)
  {
    if entries != [] {
      SortPermutes(entries[1..], le);
      InsertPermutes(entries[0], SortByKey(entries[1..], le), le);
      assert entries == [entries[0]] + entries[1..];
    }
  }

  lemma {:induction false} InsertSorts<T>(entry: Pair<T>, sorted: seq<Pair<T>>, le: Collation)
    requires TotalPreorder(le) && Sorted(sorted, le)
    ensures Sorted(Insert(entry, sorted, le), le)
  {
    if sorted == [] || le(entry.key, sorted[0].key) {
      assert forall j | 0 <= j < |sorted| :: le(entry.key, sorted[j].key);
      SortedBehind(entry, sorted, le);
    } else {
      var rest := Insert(entry, sorted[1..], le);
      InsertSorts(entry, sorted[1..], le);
      InsertPermutes(entry, sorted[1..], le);
      forall j | 0 <= j < |rest| ensures le(sorted[0].key, rest[j].key) {
        assert rest[j] in multiset(rest);
        assert rest[j] == entry || rest[j] in sorted[1..];
      }
      SortedBehind(sorted[0], rest, le);
    }
  }

  lemma SortedBehind<T>(first: Pair<T>, rest: seq<Pair<T>>, le: Collation)
    requires Sorted(rest, le) && forall j | 0 <= j < |rest| :: le(first.key, rest[j].key)
    ensures Sorted([first] + rest, le)
  {
  }

  lemma {:induction false} SortSorts<T>(entries: seq<Pair<T>>, le: Collation)
    requires TotalPreorder(le)
    ensures Sorted(SortByKey(entries, le), le)
  {
    if entries != [] {
      SortSorts(entries[1..], le);
      InsertSorts(entries[0], SortByKey(entries[1..], le), le);
    }
  }

  ghost predicate Ordered(keys: seq<Text>, le: Collation) {
    forall i, j | 0 <= i < j < |keys| :: le(keys[i], keys[j])
  }

  /** A list of strings has only one sorted order. */
  lemma {:induction false} OrderUnique(ka: seq<Text>, kb: seq<Text>, le: Collation)
    requires TotalPreorder(le) && Separates(le)
    requires Ordered(ka, le) && Ordered(kb, le) && multiset(ka) == multiset(kb)
    ensures ka == kb
  {
    if ka == [] || kb == [] {
      assert |multiset(ka)| == |multiset(kb)|;
    } else {
      LeastFirst(ka, kb, le);
      SameRest(ka, kb);
      OrderUnique(ka[1..], kb[1..], le);
      assert ka == [ka[0]] + ka[1..] && kb == [kb[0]] + kb[1..];
    }
  }

  lemma SameRest<T>(s: seq<T>, t: seq<T>)
    requires s != [] && t != [] && s[0] == t[0] && multiset(s) == multiset(t)
    ensures multiset(s[1..]) == multiset(t[1..])
  {
    assert s == [s[0]] + s[1..] && t == [t[0]] + t[1..];
    assert multiset(s[1..]) == multiset(s) - multiset{s[0]};
    assert multiset(t[1..]) == multiset(t) - multiset{t[0]};
  }

  lemma LeastFirst(ka: seq<Text>, kb: seq<Text>, le: Collation)
    requires TotalPreorder(le) && Separates(le) && Ordered(ka, le) && Ordered(kb, le)
    requires ka != [] && kb != [] && multiset(ka) == multiset(kb)
    ensures ka[0] == kb[0]
  {
    assert ka[0] in multiset(kb) && kb[0] in multiset(ka);
    assert le(ka[0], kb[0]) && le(kb[0], ka[0]);
  }

  lemma {:induction false} DistinctOnce<T>(s: seq<T>, x: T)
    requires Distinct(s)
    ensures multiset(s)[x] == if x in s then 1 else 0
  {
    if s != [] {
      TailMembers(s, x);
      TailMembers(s, s[0]);
      assert Distinct(s[1..]);
      DistinctOnce(s[1..], x);
      assert s == [s[0]] + s[1..];
    }
  }

  lemma SameDistinctElements<T>(s: seq<T>, t: seq<T>)
    requires Distinct(s) && Distinct(t) && forall x :: x in s <==> x in t
    ensures multiset(s) == multiset(t)
  {
    forall x ensures multiset(s)[x] == multiset(t)[x] {
      DistinctOnce(s, x);
      DistinctOnce(t, x);
    }
  }

  lemma TailMembers<T>(s: seq<T>, x: T)
    requires s != [] && Distinct(s)
    ensures x in s[1..] <==> x in s && x != s[0]
  {
    if x in s && x != s[0] {
      var i :| 0 <= i < |s| && s[i] == x;
      assert s[1..][i - 1] == x;
    }
  }

  /** Sorting looks only at keys: entry lists related position by position stay so. */
  ghost predicate Matches<S, T>(a: seq<Pair<S>>, b: seq<Pair<T>>, rel: (S, T) -> bool) {
    && |a| == |b|
    && forall i | 0 <= i < |a| :: a[i].key == b[i].key && rel(a[i].value, b[i].value)
  }

  lemma {:induction false} InsertMatches<S, T>(x: Pair<S>, y: Pair<T>, a: seq<Pair<S>>, b: seq<Pair<T>>,
                                               le: Collation, rel: (S, T) -> bool)
    requires x.key == y.key && rel(x.value, y.value) && Matches(a, b, rel)
    ensures Matches(Insert(x, a, le), Insert(y, b, le), rel)
  {
    if a != [] && !le(x.key, a[0].key) {
      InsertMatches(x, y, a[1..], b[1..], le, rel);
    }
  }

  lemma {:induction false} SortMatches<S, T>(a: seq<Pair<S>>, b: seq<Pair<T>>, le: Collation, rel: (S, T) -> bool)
    requires Matches(a, b, rel)
    ensures Matches(SortByKey(a, le), SortByKey(b, le), rel)
  {
    if a != [] {
      SortMatches(a[1..], b[1..], le, rel);
      InsertMatches(a[0], b[0], SortByKey(a[1..], le), SortByKey(b[1..], le), le, rel);
    }
  }

  lemma {:induction false} InsertDistinct<T>(entry: Pair<T>, sorted: seq<Pair<T>>, le: Collation)
    requires Distinct(Keys(sorted)) && entry.key !in Keys(sorted)
    ensures Distinct(Keys(Insert(entry, sorted, le)))
    ensures forall k :: k in Keys(Insert(entry, sorted, le)) <==> k == entry.key || k in Keys(sorted)
  {
    var ks := Keys(sorted);
    if sorted == [] || le(entry.key, sorted[0].key) {
      assert Keys([entry] + sorted) == [entry.key] + ks;
    } else {
      var rest := sorted[1..];
      assert Keys(rest) == ks[1..] && ks == [ks[0]] + ks[1..];
      InsertDistinct(entry, rest, le);
      var r := Insert(entry, rest, le);
      assert Keys([sorted[0]] + r) == [ks[0]] + Keys(r);
      TailMembers(ks, ks[0]);
    }
  }

  lemma {:induction false} SortDistinct<T>(entries: seq<Pair<T>>, le: Collation)
    requires Distinct(Keys(entries))
    ensures Distinct(Keys(SortByKey(entries, le)))
    ensures forall k :: k in Keys(SortByKey(entries, le)) <==> k in Keys(entries)
  {
    var ks := Keys(entries);
    if entries != [] {
      var rest := entries[1..];
      assert Keys(rest) == ks[1..] && ks == [ks[0]] + ks[1..];
      SortDistinct(rest, le);
      TailMembers(ks, ks[0]);
      InsertDistinct(entries[0], SortByKey(rest, le), le);
    }
  }

  lemma SortSameEntries<T>(entries: seq<Pair<T>>, le: Collation)
    ensures forall p :: p in SortByKey(entries, le) <==> p in entries
  {
    SortPermutes(entries, le);
    forall p ensures p in SortByKey(entries, le) <==> p in entries {
      assert p in multiset(SortByKey(entries, le)) <==> p in multiset(entries);
    }
  }

  lemma HeadCounts<T>(s: seq<T>, x: T)
    requires s != []
    ensures multiset(s)[x] == multiset(s[1..])[x] + if s[0] == x then 1 else 0
  {
    assert s == [s[0]] + s[1..];
  }

  lemma PrefixCounts<T>(s: seq<T>, i: nat)
    requires i < |s|
    ensures multiset(s[..i + 1]) == multiset(s[..i]) + multiset{s[i]}
    ensures multiset(s[..i + 1]) <= multiset(s)
  {
    assert s[..i + 1] == s[..i] + [s[i]];
    assert s == s[..i + 1] + s[i + 1..];
  }
}
