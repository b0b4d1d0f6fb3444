/** The scopes an account connection holds in one authorization context, read from a paged catalogue:
    accountScopesForAuthorizationDetails in server/usecases/external-resources.ts. */
module ContextScopes {
  import opened Options
  import opened Texts
  import opened AuthorizationDetails
  import opened ScopeTexts

  /** A catalogue entry: the canonical form of its detail, and its scope list if it has one. */
  datatype Item = Item(form: Text, scopes: Option<seq<Text>>)

  const PAGE_SIZE := 100

  function TotalPages(catalogue: seq<Item>): nat { (|catalogue| + PAGE_SIZE - 1) / PAGE_SIZE }

  function PageEnd(catalogue: seq<Item>, page: nat): (end: nat)
    ensures end <= |catalogue|
  {
    if page * PAGE_SIZE < |catalogue| then page * PAGE_SIZE else |catalogue|
  }

  ghost predicate NoRepeats(items: seq<Item>) {
    forall i, j | 0 <= i < j < |items| :: items[i].form != items[j].form
  }

  /** Map.set on an insertion-ordered map: an entry keeps its place and takes the new value. */
  function Put(granted: seq<Item>, item: Item): seq<Item> {
    if granted == [] then [item]
    else if granted[0].form == item.form then [item] + granted[1..]
    else [granted[0]] + Put(granted[1..], item)
  }

  /** What the entries of requested details leave in the map: each in the place where its detail was
      first met, with the value met last. */
  function Collected(items: seq<Item>, requested: set<Text>): seq<Item> {
    if items == [] then []
    else
      var before, last := Collected(items[..|items| - 1], requested), items[|items| - 1];
      if last.form in requested then Put(before, last) else before
  }

  predicate InAll(lists: seq<seq<Text>>, scope: Text) {
    forall i | 0 <= i < |lists| :: scope in lists[i]
  }

  function Kept(scopes: seq<Text>, others: seq<seq<Text>>): seq<Text> {
    if scopes == [] then []
    else (if InAll(others, scopes[0]) then [scopes[0]] else []) + Kept(scopes[1..], others)
  }

  predicate AllListed(granted: seq<Item>) {
    forall i | 0 <= i < |granted| :: granted[i].scopes.Some?
  }

  function ScopeLists(granted: seq<Item>): (lists: seq<seq<Text>>)
    requires AllListed(granted)
    ensures |lists| == |granted| && forall i | 0 <= i < |lists| :: lists[i] == granted[i].scopes.value
  {
    seq(|granted|, i requires 0 <= i < |granted| => granted[i].scopes.value)
  }

  /** What the collected entries amount to; None stands for null. */
  function Outcome(granted: seq<Item>, requested: set<Text>): Option<seq<Text>> {
    if |granted| != |requested| then Some([])
    else if !AllListed(granted) then None
    else if granted == [] then Some([])
    else Some(SortTexts(Kept(ScopeLists(granted)[0], ScopeLists(granted)[1..])))
  }

  /** As many details have been met as were requested. */
  predicate AllMet(catalogue: seq<Item>, requested: set<Text>, page: nat) {
    |Collected(catalogue[..PageEnd(catalogue, page)], requested)| == |requested|
  }

  /** The page after which reading stops: the first with which all have been met, or the last. */
  function LastPageRead(catalogue: seq<Item>, requested: set<Text>, page: nat): (last: nat)
    ensures page <= last && (AllMet(catalogue, requested, last) || last >= TotalPages(catalogue))
    decreases TotalPages(catalogue) - page
  {
    if AllMet(catalogue, requested, page) || page >= TotalPages(catalogue) then page
    else LastPageRead(catalogue, requested, page + 1)
  }

  function ItemsRead(catalogue: seq<Item>, requested: set<Text>): seq<Item> {
    catalogue[..PageEnd(catalogue, LastPageRead(catalogue, requested, 1))]
  }

  /** Page by page, stopping as soon as every requested detail has been met. */
  method AccountScopes(requested: set<Text>, catalogue: seq<Item>) returns (scopes: Option<seq<Text>>)
    ensures scopes == Outcome(Collected(ItemsRead(catalogue, requested), requested), requested)
  {
    var granted := [];
    var page := 1;
    while true
      invariant page >= 1 && PageEnd(catalogue, page - 1) == (page - 1) * PAGE_SIZE
      invariant granted == Collected(catalogue[..PageEnd(catalogue, page - 1)], requested)
      invariant LastPageRead(catalogue, requested, page) == LastPageRead(catalogue, requested, 1)
      decreases TotalPages(catalogue) - page
    {
      granted := CollectPage(requested, catalogue, granted, PageEnd(catalogue, page - 1), PageEnd(catalogue, page));
      if |granted| == |requested| || page >= TotalPages(catalogue) { break; }
      page := page + 1;
    }
    scopes := Outcome(granted, requested);
  }

  method CollectPage(requested: set<Text>, catalogue: seq<Item>, before: seq<Item>, start: nat, end: nat) returns (granted: seq<Item>)
    requires start <= end <= |catalogue| && before == Collected(catalogue[..start], requested)
    ensures granted == Collected(catalogue[..end], requested)
  {
    granted := before;
    var i := start;
    while i < end
      invariant start <= i <= end && granted == Collected(catalogue[..i], requested)
    {
      var item := catalogue[i];
      assert catalogue[..i + 1][..i] == catalogue[..i];
      if item.form in requested { granted := Put(granted, item); }
      i := i + 1;
    }
  }

  // ---- What is collected ----

  /** The last entry of a detail. */
  function Latest(items: seq<Item>, form: Text): (latest: Option<Item>)
    ensures latest.Some? ==> latest.value in items && latest.value.form == form
    ensures latest.None? ==> forall i | 0 <= i < |items| :: items[i].form != form
  {
    if items == [] then None
    else if items[|items| - 1].form == form then Some(items[|items| - 1])
    else
      assert forall i | 0 <= i < |items| - 1 :: items[..|items| - 1][i] == items[i];
      Latest(items[..|items| - 1], form)
  }

  lemma {:induction false} PutMembers(granted: seq<Item>, item: Item)
    requires NoRepeats(granted)
    ensures NoRepeats(Put(granted, item))
    ensures forall x :: x in Put(granted, item) <==> x == item || (x in granted && x.form != item.form)
  {
    if granted != [] {
      if granted[0].form == item.form {
        PutFirst(granted, item);
      } else {
        PutMembers(granted[1..], item);
        PutBehind(granted[0], granted[1..], Put(granted[1..], item), item);
        assert granted == [granted[0]] + granted[1..];
      }
    }
  }

  lemma PutFirst(granted: seq<Item>, item: Item)
    requires granted != [] && NoRepeats(granted) && granted[0].form == item.form
    ensures NoRepeats([item] + granted[1..])
    ensures forall x :: x in [item] + granted[1..] <==> x == item || (x in granted && x.form != item.form)
  {
    var r := [item] + granted[1..];
    forall x | x in granted && x.form != item.form ensures x in r {
      var i :| 0 <= i < |granted| && granted[i] == x;
      assert r[i] == x;
    }
    forall x | x in granted[1..] ensures x in granted && x.form != item.form {
      var i :| 0 <= i < |granted[1..]| && granted[1..][i] == x;
      assert granted[i + 1] == x;
    }
  }

  lemma PutBehind(first: Item, rest: seq<Item>, more: seq<Item>, item: Item)
    requires NoRepeats([first] + rest) && NoRepeats(more) && first.form != item.form
    requires forall x :: x in more <==> x == item || (x in rest && x.form != item.form)
    ensures NoRepeats([first] + more)
  {
    forall j | 0 <= j < |more| ensures more[j].form != first.form {
      assert more[j] in more;
      if more[j] != item {
        var i :| 0 <= i < |rest| && rest[i] == more[j];
        assert ([first] + rest)[0] == first && ([first] + rest)[i + 1] == rest[i];
      }
    }
  }

  /** Collected is the last entry of each requested detail that was met, and nothing else. */
  lemma {:induction false} CollectedAreLatest(items: seq<Item>, requested: set<Text>)
    ensures NoRepeats(Collected(items, requested))
    ensures forall x :: x in Collected(items, requested) <==> x.form in requested && Latest(items, x.form) == Some(x)
  {
    if items != [] {
      var shorter, last := items[..|items| - 1], items[|items| - 1];
      CollectedAreLatest(shorter, requested);
      if last.form in requested { PutMembers(Collected(shorter, requested), last); }
    }
  }

  function Forms(items: seq<Item>): set<Text> {
    set i | 0 <= i < |items| :: items[i].form
  }

  lemma {:induction false} FormsCount(items: seq<Item>)
    requires NoRepeats(items)
    ensures |Forms(items)| == |items|
  {
    if items != [] {
      var shorter, last := items[..|items| - 1], items[|items| - 1];
      FormsCount(shorter);
      assert Forms(items) == Forms(shorter) + {last.form};
      assert last.form !in Forms(shorter);
    }
  }

  lemma Subset<T>(s: set<T>, t: set<T>)
    requires s <= t && |s| == |t|
    ensures s == t
  {
    assert t == s + (t - s);
  }

  /** Every requested detail is among the entries. */
  predicate AllFound(items: seq<Item>, requested: set<Text>) {
    forall form | form in requested :: Latest(items, form).Some?
  }

  lemma FormsCollected(items: seq<Item>, requested: set<Text>)
    ensures Forms(Collected(items, requested)) == set form | form in requested && Latest(items, form).Some?
  {
    var granted := Collected(items, requested);
    CollectedAreLatest(items, requested);
    forall form | form in requested && Latest(items, form).Some? ensures form in Forms(granted) {
      assert Latest(items, form).value in granted;
      var i :| 0 <= i < |granted| && granted[i] == Latest(items, form).value;
    }
    forall i | 0 <= i < |granted| ensures granted[i].form in requested && Latest(items, granted[i].form).Some? {
      assert granted[i] in granted;
    }
  }

  lemma FoundExactly(items: seq<Item>, requested: set<Text>)
    ensures AllFound(items, requested) <==> |Collected(items, requested)| == |requested|
  {
    var granted := Collected(items, requested);
    CollectedAreLatest(items, requested);
    FormsCount(granted);
    FormsCollected(items, requested);
    if AllFound(items, requested) { assert Forms(granted) == requested; }
    if |granted| == |requested| { Subset(Forms(granted), requested); }
  }

  lemma LatestAt(items: seq<Item>, requested: set<Text>, i: nat)
    requires i < |Collected(items, requested)|
    ensures var x := Collected(items, requested)[i]; x.form in requested && Latest(items, x.form) == Some(x)
  {
    CollectedAreLatest(items, requested);
    assert Collected(items, requested)[i] in Collected(items, requested);
  }

  // ---- What the outcome means ----

  lemma {:induction false} KeptMembers(scopes: seq<Text>, others: seq<seq<Text>>, w: Text)
    ensures w in Kept(scopes, others) <==> w in scopes && InAll(others, w)
  {
    if scopes != [] {
      KeptMembers(scopes[1..], others, w);
      assert scopes == [scopes[0]] + scopes[1..];
    }
  }

  /** No scopes if a requested detail is missing or none is requested; null if the last entry of one
      has no scope list; else exactly the scopes that the last entries of all requested details have. */
  lemma OutcomeMeans(items: seq<Item>, requested: set<Text>)
    ensures var r := Outcome(Collected(items, requested), requested);
            && (!AllFound(items, requested) || requested == {} ==> r == Some([]))
            && (r.None? <==> AllFound(items, requested)
                             && exists form :: form in requested && Latest(items, form).value.scopes.None?)
    ensures var r := Outcome(Collected(items, requested), requested);
            AllFound(items, requested) && requested != {} && r.Some? ==>
              forall w :: w in r.value <==>
                forall form | form in requested :: Latest(items, form).value.scopes.Some? && w in Latest(items, form).value.scopes.value
  {
    var granted := Collected(items, requested);
    FoundExactly(items, requested);
    FormsCollected(items, requested);
    forall i | 0 <= i < |granted| ensures granted[i].form in requested && Latest(items, granted[i].form) == Some(granted[i]) {
      LatestAt(items, requested, i);
    }
    if AllFound(items, requested) {
      assert Forms(granted) == requested;
      forall form | form in requested ensures exists i :: 0 <= i < |granted| && granted[i] == Latest(items, form).value {
        assert form in Forms(granted);
        var i :| 0 <= i < |granted| && granted[i].form == form;
      }
      if requested != {} && AllListed(granted) {
        forall w ensures w in Outcome(granted, requested).value <==> forall j | 0 <= j < |granted| :: w in granted[j].scopes.value {
          IntersectionMembers(granted, w);
        }
      }
    }
  }

  lemma IntersectionMembers(granted: seq<Item>, w: Text)
    requires granted != [] && AllListed(granted)
    ensures w in SortTexts(Kept(ScopeLists(granted)[0], ScopeLists(granted)[1..]))
            <==> forall j | 0 <= j < |granted| :: w in granted[j].scopes.value
  {
    var lists := ScopeLists(granted);
    SortTextsMembers(Kept(lists[0], lists[1..]));
    KeptMembers(lists[0], lists[1..], w);
    assert forall j | 1 <= j < |lists| :: lists[j] == lists[1..][j - 1];
  }

  // ---- Stopping early ----

  /** The outcome of the entries that are read, and of the whole catalogue. */
  function ReadOutcome(catalogue: seq<Item>, requested: set<Text>): Option<seq<Text>> {
    Outcome(Collected(ItemsRead(catalogue, requested), requested), requested)
  }

  function FullOutcome(catalogue: seq<Item>, requested: set<Text>): Option<seq<Text>> {
    Outcome(Collected(catalogue, requested), requested)
  }

  /** No requested detail is listed behind the entries that are read. */
  predicate NoneBehind(catalogue: seq<Item>, requested: set<Text>) {
    forall k | |ItemsRead(catalogue, requested)| <= k < |catalogue| :: catalogue[k].form !in requested
  }

  lemma {:induction false} CollectedUpTo(catalogue: seq<Item>, requested: set<Text>, end: nat)
    requires end <= |catalogue| && forall k | end <= k < |catalogue| :: catalogue[k].form !in requested
    ensures Collected(catalogue, requested) == Collected(catalogue[..end], requested)
    decreases |catalogue|
  {
    if end < |catalogue| {
      var shorter := catalogue[..|catalogue| - 1];
      CollectedUpTo(shorter, requested, end);
      assert shorter[..end] == catalogue[..end];
    } else {
      assert catalogue[..end] == catalogue;
    }
  }

  lemma NoneBehindIsHarmless(catalogue: seq<Item>, requested: set<Text>)
    requires NoneBehind(catalogue, requested)
    ensures ReadOutcome(catalogue, requested) == FullOutcome(catalogue, requested)
  {
    CollectedUpTo(catalogue, requested, |ItemsRead(catalogue, requested)|);
  }

  // Where reading stops depends on which details are listed where, not on their scopes.

  predicate SameDetails(a: seq<Item>, b: seq<Item>) {
    |a| == |b| && forall i | 0 <= i < |a| :: a[i].form == b[i].form
  }

  lemma {:induction false} PutSameDetails(a: seq<Item>, b: seq<Item>, x: Item, y: Item)
    requires SameDetails(a, b) && x.form == y.form
    ensures SameDetails(Put(a, x), Put(b, y))
  {
    if a != [] && a[0].form != x.form { PutSameDetails(a[1..], b[1..], x, y); }
  }

  lemma {:induction false} CollectedSameDetails(a: seq<Item>, b: seq<Item>, requested: set<Text>)
    requires SameDetails(a, b)
    ensures SameDetails(Collected(a, requested), Collected(b, requested))
  {
    if a != [] {
      var n := |a| - 1;
      CollectedSameDetails(a[..n], b[..n], requested);
      PutSameDetails(Collected(a[..n], requested), Collected(b[..n], requested), a[n], b[n]);
    }
  }

  lemma {:induction false} SamePagesRead(a: seq<Item>, b: seq<Item>, requested: set<Text>, page: nat)
    requires SameDetails(a, b)
    ensures LastPageRead(a, requested, page) == LastPageRead(b, requested, page)
    decreases TotalPages(a) - page
  {
    CollectedSameDetails(a[..PageEnd(a, page)], b[..PageEnd(b, page)], requested);
    if !AllMet(a, requested, page) && page < TotalPages(a) { SamePagesRead(a, b, requested, page + 1); }
  }

  lemma SameItemsRead(a: seq<Item>, b: seq<Item>, requested: set<Text>)
    requires SameDetails(a, b)
    ensures |ItemsRead(a, requested)| == |ItemsRead(b, requested)| && SameDetails(ItemsRead(a, requested), ItemsRead(b, requested))
  {
    SamePagesRead(a, b, requested, 1);
  }

  /** If entries are left unread, every requested detail has been met. */
  lemma UnreadMeansAllMet(catalogue: seq<Item>, requested: set<Text>)
    requires |ItemsRead(catalogue, requested)| < |catalogue|
    ensures AllFound(ItemsRead(catalogue, requested), requested)
    ensures |ItemsRead(catalogue, requested)| == LastPageRead(catalogue, requested, 1) * PAGE_SIZE
  {
    FoundExactly(ItemsRead(catalogue, requested), requested);
  }

  /** The same details, those in front with one scope and those behind with none. */
  function Split(catalogue: seq<Item>, end: nat, scope: Text): (r: seq<Item>)
    ensures SameDetails(r, catalogue)
  {
    seq(|catalogue|, i requires 0 <= i < |catalogue| => Item(catalogue[i].form, Some(if i < end then [scope] else [])))
  }

  lemma {:induction false} LatestIndex(items: seq<Item>, form: Text, k: nat) returns (j: nat)
    requires k < |items| && items[k].form == form
    ensures k <= j < |items| && Latest(items, form) == Some(items[j])
    decreases |items|
  {
    var n := |items| - 1;
    if items[n].form == form {
      j := n;
    } else {
      j := LatestIndex(items[..n], form, k);
    }
  }

  lemma SomethingBehindMatters(catalogue: seq<Item>, requested: set<Text>, k: nat, scope: Text)
    requires |ItemsRead(catalogue, requested)| <= k < |catalogue| && catalogue[k].form in requested
    ensures var other := Split(catalogue, |ItemsRead(catalogue, requested)|, scope);
            ReadOutcome(other, requested) != FullOutcome(other, requested)
  {
    var other := Split(catalogue, |ItemsRead(catalogue, requested)|, scope);
    SameItemsRead(catalogue, other, requested);
    UnreadMeansAllMet(other, requested);
    var read := ItemsRead(other, requested);
    forall form | form in requested ensures Latest(read, form).value.scopes == Some([scope]) {
      assert Latest(read, form).value in read;
    }
    forall form | form in requested ensures Latest(other, form).Some? && Latest(other, form).value.scopes.Some? {
      assert Latest(read, form).value in other[..|read|];
      assert Latest(other, form).Some?;
      assert Latest(other, form).value in other;
    }
    var j := LatestIndex(other, catalogue[k].form, k);
    ScopeKept(read, requested, scope);
    ScopeDropped(other, requested, catalogue[k].form, scope);
  }

  lemma ScopeKept(items: seq<Item>, requested: set<Text>, scope: Text)
    requires requested != {} && AllFound(items, requested)
    requires forall form | form in requested :: Latest(items, form).value.scopes == Some([scope])
    ensures var r := Outcome(Collected(items, requested), requested); r.Some? && scope in r.value
  {
    OutcomeMeans(items, requested);
  }

  lemma ScopeDropped(items: seq<Item>, requested: set<Text>, form: Text, scope: Text)
    requires AllFound(items, requested) && form in requested && Latest(items, form).value.scopes == Some([])
    requires forall f | f in requested :: Latest(items, f).value.scopes.Some?
    ensures var r := Outcome(Collected(items, requested), requested); r.Some? && scope !in r.value
  {
    OutcomeMeans(items, requested);
  }

  /** Stopping early gives the outcome of the whole catalogue, whatever scopes its entries have, exactly
      if no requested detail is listed again behind the entries that are read. */
  lemma StoppingEarlyExactly(catalogue: seq<Item>, requested: set<Text>)
    ensures (forall other | SameDetails(other, catalogue) :: ReadOutcome(other, requested) == FullOutcome(other, requested))
            <==> NoneBehind(catalogue, requested)
  {
    if NoneBehind(catalogue, requested) {
      forall other | SameDetails(other, catalogue) ensures ReadOutcome(other, requested) == FullOutcome(other, requested) {
        SameItemsRead(catalogue, other, requested);
        NoneBehindIsHarmless(other, requested);
      }
    } else {
      var k :| |ItemsRead(catalogue, requested)| <= k < |catalogue| && catalogue[k].form in requested;
      SomethingBehindMatters(catalogue, requested, k, []);
      assert SameDetails(Split(catalogue, |ItemsRead(catalogue, requested)|, []), catalogue);
    }
  }

  /** No detail is listed on two pages. */
  predicate OnePageEach(catalogue: seq<Item>) {
    forall i, j | 0 <= i < j < |catalogue| && catalogue[i].form == catalogue[j].form :: i / PAGE_SIZE == j / PAGE_SIZE
  }

  lemma OnePageEachLeavesNone(catalogue: seq<Item>, requested: set<Text>)
    requires OnePageEach(catalogue)
    ensures NoneBehind(catalogue, requested)
  {
    forall k | |ItemsRead(catalogue, requested)| <= k < |catalogue| ensures catalogue[k].form !in requested {
      if catalogue[k].form in requested {
        var i := MetInFront(catalogue, requested, k);
      }
    }
  }

  /** A requested detail behind the entries read was met in front, on an earlier page. */
  lemma MetInFront(catalogue: seq<Item>, requested: set<Text>, k: nat) returns (i: nat)
    requires |ItemsRead(catalogue, requested)| <= k < |catalogue| && catalogue[k].form in requested
    ensures i < k && catalogue[i].form == catalogue[k].form && i / PAGE_SIZE < k / PAGE_SIZE
  {
    var read := ItemsRead(catalogue, requested);
    UnreadMeansAllMet(catalogue, requested);
    var latest := Latest(read, catalogue[k].form).value;
    i :| 0 <= i < |read| && read[i] == latest;
    assert catalogue[i] == latest;
  }

  lemma {:induction false} StopsBy(catalogue: seq<Item>, requested: set<Text>, page: nat, last: nat)
    requires page <= last && AllMet(catalogue, requested, last)
    ensures LastPageRead(catalogue, requested, page) <= last
    decreases last - page
  {
    if page < last { StopsBy(catalogue, requested, page + 1, last); }
  }

  lemma ListedTwiceLeavesOne(catalogue: seq<Item>, i: nat, j: nat)
    requires i < j < |catalogue| && catalogue[i].form == catalogue[j].form && i / PAGE_SIZE != j / PAGE_SIZE
    ensures !NoneBehind(catalogue, {catalogue[i].form})
  {
    var form, last := catalogue[i].form, i / PAGE_SIZE + 1;
    var front := catalogue[..PageEnd(catalogue, last)];
    assert front[i].form == form;
    assert AllFound(front, {form});
    FoundExactly(front, {form});
    StopsBy(catalogue, {form}, 1, last);
    assert |ItemsRead(catalogue, {form})| <= j;
  }

  /** It does so for every request, whatever scopes the entries have, exactly if no detail is listed on
      two pages. */
  lemma StoppingEarlyAlwaysExactly(catalogue: seq<Item>)
    ensures (forall other, requested | SameDetails(other, catalogue) :: ReadOutcome(other, requested) == FullOutcome(other, requested))
            <==> OnePageEach(catalogue)
  {
    if OnePageEach(catalogue) {
      forall other, requested | SameDetails(other, catalogue) ensures ReadOutcome(other, requested) == FullOutcome(other, requested) {
        OnePageEachLeavesNone(other, requested);
        NoneBehindIsHarmless(other, requested);
      }
    } else {
      var i, j :| 0 <= i < j < |catalogue| && catalogue[i].form == catalogue[j].form && i / PAGE_SIZE != j / PAGE_SIZE;
      ListedTwiceLeavesOne(catalogue, i, j);
      StoppingEarlyExactly(catalogue, {catalogue[i].form});
    }
  }

  /** So it does for a catalogue that lists no detail twice. */
  lemma NoRepeatsReadWhole(catalogue: seq<Item>, requested: set<Text>)
    requires NoRepeats(catalogue)
    ensures ReadOutcome(catalogue, requested) == FullOutcome(catalogue, requested)
  {
    OnePageEachLeavesNone(catalogue, requested);
    NoneBehindIsHarmless(catalogue, requested);
  }

  // ---- A detail listed again on the second page ----

  function ListedAgain(form: Text, other: Text, scope: Text): seq<Item> {
    [Item(form, Some([scope]))] + seq(PAGE_SIZE - 1, _ => Item(other, None)) + [Item(form, Some([]))]
  }

  lemma CollectedAlone(items: seq<Item>, form: Text, j: nat)
    requires j < |items| && items[j].form == form && forall k | j < k < |items| :: items[k].form != form
    ensures Collected(items, {form}) == [items[j]]
  {
    var i := LatestIndex(items, form, j);
    CollectedAreLatest(items, {form});
    FoundExactly(items, {form});
    assert Latest(items, form) == Some(items[j]);
    assert items[j] in Collected(items, {form});
  }

  /** The first page alone is read: the outcome is the scope that the second page takes away. */
  lemma ListedAgainUnread(form: Text, other: Text, scope: Text)
    requires form != other
    ensures ReadOutcome(ListedAgain(form, other, scope), {form}) == Some([scope])
    ensures FullOutcome(ListedAgain(form, other, scope), {form}) == Some([])
  {
    var catalogue := ListedAgain(form, other, scope);
    var front := catalogue[..PAGE_SIZE];
    CollectedAlone(front, form, 0);
    CollectedAlone(catalogue, form, PAGE_SIZE);
    assert PageEnd(catalogue, 1) == PAGE_SIZE && AllMet(catalogue, {form}, 1);
    assert ItemsRead(catalogue, {form}) == front;
    OneListOutcome(form, [scope]);
    OneListOutcome(form, []);
    SortTextsAlone(scope);
  }

  lemma OneListOutcome(form: Text, scopes: seq<Text>)
    ensures Outcome([Item(form, Some(scopes))], {form}) == Some(SortTexts(scopes))
  {
    KeptAll(scopes);
    assert ScopeLists([Item(form, Some(scopes))])[1..] == [];
  }

  lemma {:induction false} KeptAll(scopes: seq<Text>)
    ensures Kept(scopes, []) == scopes
  {
    if scopes != [] { KeptAll(scopes[1..]); }
  }
}
