/** Space-separated scope strings. */
module ScopeTexts {
  import opened Texts
  import opened AuthorizationDetails

  /** What \s matches in a JavaScript regular expression. */
  predicate Space(u: CodeUnit) {
    || 0x09 <= u <= 0x0D || u == 0x20 || u == 0xA0 || u == 0x1680 || 0x2000 <= u <= 0x200A
    || u == 0x2028 || u == 0x2029 || u == 0x202F || u == 0x205F || u == 0x3000 || u == 0xFEFF
  }

  predicate Word(w: Text) {
    w != [] && forall u | u in w :: !Space(u)
  }

  /** value.split(/\s+/).filter(Boolean), with `word` already read. */
  function WordsAfter(word: Text, t: Text): seq<Text>
    decreases |t|
  {
    if t == [] then (if word == [] then [] else [word])
    else if !Space(t[0]) then WordsAfter(word + [t[0]], t[1..])
    else if word == [] then WordsAfter([], t[1..])
    else [word] + WordsAfter([], t[1..])
  }

  function Words(t: Text): seq<Text> { WordsAfter([], t) }

  lemma {:induction false} WordsAreWords(word: Text, t: Text)
    requires word == [] || Word(word)
    ensures forall w | w in WordsAfter(word, t) :: Word(w)
    decreases |t|
  {
    if t != [] {
      if !Space(t[0]) {
        WordsAreWords(word + [t[0]], t[1..]);
      } else {
        WordsAreWords([], t[1..]);
      }
    }
  }

  /** words.join(' ') */
  function Join(words: seq<Text>): Text {
    if words == [] then [] else if |words| == 1 then words[0] else words[0] + [0x20] + Join(words[1..])
  }

  /** Reading the rest of a word and what follows the space after it. */
  lemma {:induction false} WordThenSpace(word: Text, w: Text, rest: Text)
    requires forall u | u in w :: !Space(u)
    requires word + w != []
    ensures WordsAfter(word, w + [0x20] + rest) == [word + w] + WordsAfter([], rest)
    ensures WordsAfter(word, w) == [word + w]
    decreases |w|
  {
    if w == [] {
      assert word + w == word && w + [0x20] + rest == [0x20] + rest;
    } else {
      assert (w + [0x20] + rest)[1..] == w[1..] + [0x20] + rest;
      assert word + [w[0]] + w[1..] == word + w;
      assert w[0] in w && forall u | u in w[1..] :: u in w;
      WordThenSpace(word + [w[0]], w[1..], rest);
    }
  }

  /** Joining words and splitting them again gives the words back. */
  lemma {:induction false} JoinSplits(words: seq<Text>)
    requires forall w | w in words :: Word(w)
    ensures Words(Join(words)) == words
  {
    if words == [] {
    } else if |words| == 1 {
      assert words[0] in words && Word(words[0]);
      WordThenSpace([], words[0], []);
      assert [] + words[0] == words[0] && words == [words[0]];
    } else {
      assert forall w | w in words[1..] :: w in words;
      JoinSplits(words[1..]);
      assert words[0] in words && Word(words[0]);
      WordThenSpace([], words[0], Join(words[1..]));
      assert [] + words[0] == words[0] && words == [words[0]] + words[1..];
    }
  }

  /** [...new Set(words)]: the first occurrence of each. */
  function Unique<T(==, !new)>(s: seq<T>): (r: seq<T>)
    ensures forall x :: x in r <==> x in s
  {
    if s == [] then []
    else
      assert s == s[..|s| - 1] + [s[|s| - 1]];
      var r := Unique(s[..|s| - 1]);
      if s[|s| - 1] in r then r else r + [s[|s| - 1]]
  }

  lemma {:induction false} UniqueDistinct<T(!new)>(s: seq<T>)
    ensures Distinct(Unique(s))
  {
    if s != [] { UniqueDistinct(s[..|s| - 1]); }
  }

  function NormalizeScopes(t: Text): seq<Text> { SortTexts(Unique(Words(t))) }

  lemma SortTextsMembers(texts: seq<Text>)
    ensures forall x :: x in SortTexts(texts) <==> x in texts
  {
    SortTextsSorts(texts);
    forall x ensures x in SortTexts(texts) <==> x in texts {
      assert x in multiset(SortTexts(texts)) <==> x in multiset(texts);
    }
  }

  lemma SortTextsDistinct(texts: seq<Text>)
    requires Distinct(texts)
    ensures Distinct(SortTexts(texts))
  {
    SortDistinct(Bare(texts), UnitLe);
  }

  /** Normalised scopes are the words of the text, each once and in order. */
  lemma NormalizedScopes(t: Text)
    ensures forall w :: w in NormalizeScopes(t) <==> w in Words(t)
    ensures Distinct(NormalizeScopes(t)) && Ordered(NormalizeScopes(t), UnitLe)
    ensures forall w | w in NormalizeScopes(t) :: Word(w)
  {
    UniqueDistinct(Words(t));
    SortTextsMembers(Unique(Words(t)));
    SortTextsDistinct(Unique(Words(t)));
    SortTextsSorts(Unique(Words(t)));
    WordsAreWords([], t);
  }

  /** The scope claim of an exchanged token reads back as the scopes it was made from. */
  lemma NormalizedRoundTrip(t: Text)
    ensures Words(Join(NormalizeScopes(t))) == NormalizeScopes(t)
    ensures NormalizeScopes(Join(NormalizeScopes(t))) == NormalizeScopes(t)
  {
    var n := NormalizeScopes(t);
    NormalizedScopes(t);
    JoinSplits(n);
    var again := NormalizeScopes(Join(n));
    NormalizedScopes(Join(n));
    SameDistinctElements(n, again);
    UnitLeOrders();
    OrderUnique(n, again, UnitLe);
  }
}
