/** Streaks of active days on a public profile: server/usecases/public-profiles.ts. */
module ActivityStreaks {
  import opened Options
  import opened Texts
  import opened Listings

  /** Activity of one day. Days are numbered; the same day may be reported more than once. */
  datatype Day = Day(date: int, count: int)

  datatype Overview = Overview(total: int, activeDays: nat, currentStreak: nat, longestStreak: nat)

  function ActiveDates(days: seq<Day>): set<int> {
    set i | 0 <= i < |days| && days[i].count > 0 :: days[i].date
  }

  function Total(days: seq<Day>): int {
    if days == [] then 0 else Total(days[..|days| - 1]) + days[|days| - 1].count
  }

  /** The k days up to and including `last` are all active. */
  ghost predicate Streak(active: set<int>, last: int, k: nat) {
    forall d | last - k < d <= last :: d in active
  }

  /** The streak that ends at `last` is k days long, and no longer. */
  ghost predicate StreakEnding(active: set<int>, last: int, k: nat) {
    Streak(active, last, k) && last - k !in active
  }

  ghost predicate Longest(active: set<int>, k: nat) {
    && (exists last :: Streak(active, last, k))
    && (forall last, n: nat | Streak(active, last, n) :: n <= k)
  }

  ghost predicate Increasing(s: seq<int>) {
    forall i, j | 0 <= i < j < |s| :: s[i] < s[j]
  }

  /** [...dates].sort(): each date goes before the later ones. */
  method SortDates(dates: set<int>) returns (sorted: seq<int>)
    ensures Increasing(sorted) && forall d :: d in sorted <==> d in dates
  {
    var listing := List(dates);
    sorted := [];
    var i := 0;
    while i < |listing|
      invariant 0 <= i <= |listing| && Increasing(sorted)
      invariant forall d :: d in sorted <==> d in listing[..i]
    {
      NotYet(listing, i);
      assert listing[..i + 1] == listing[..i] + [listing[i]];
      sorted := InsertDate(sorted, listing[i]);
      i := i + 1;
    }
    assert listing[..i] == listing;
  }

  lemma NotYet(listing: seq<int>, i: nat)
    requires Distinct(listing) && i < |listing|
    ensures listing[i] !in listing[..i]
  {
  }

  function InsertDate(sorted: seq<int>, date: int): (r: seq<int>)
    requires Increasing(sorted) && date !in sorted
    ensures Increasing(r) && forall d :: d in r <==> d == date || d in sorted
  {
    if sorted == [] || date < sorted[0] then [date] + sorted
    else
      assert sorted == [sorted[0]] + sorted[1..];
      var rest := InsertDate(sorted[1..], date);
      assert date != sorted[0] && forall d | d in sorted[1..] :: sorted[0] < d;
      assert forall i | 0 <= i < |rest| :: rest[i] in rest;
      [sorted[0]] + rest
  }

  method LongestStreak(active: set<int>) returns (longest: nat)
    ensures Longest(active, longest)
  {
    longest := 0;
    var dates := SortDates(active);
    var running: nat := 0;
    var previous: Option<int> := None;
    ghost var end := 0;
    var i := 0;
    while i < |dates|
      invariant 0 <= i <= |dates|
      invariant previous == if i == 0 then None else Some(dates[i - 1])
      invariant i > 0 ==> StreakEnding(active, dates[i - 1], running) && running <= longest
      invariant Streak(active, end, longest)
      invariant forall last, n: nat | Streak(active, last, n) && (n == 0 || last in dates[..i]) :: n <= longest
    {
      var date := dates[i];
      NoneBetween(active, dates, i);
      running := if previous.Some? && date - previous.value == 1 then running + 1 else 1;
      assert StreakEnding(active, date, running);
      if running > longest { end := date; }
      longest := if running > longest then running else longest;
      forall last, n: nat | Streak(active, last, n) && (n == 0 || last in dates[..i + 1]) ensures n <= longest {
        if n > 0 && last !in dates[..i] {
          assert last == date;
          assert forall d | date - n < d <= date :: d in active;
        }
      }
      previous := Some(date);
      i := i + 1;
    }
    forall last, n: nat | Streak(active, last, n) ensures n <= longest {
      if n > 0 { assert last in active && last in dates && dates[..i] == dates; }
    }
    assert Streak(active, end, longest);
  }

  lemma NoneBetween(active: set<int>, dates: seq<int>, i: nat)
    requires Increasing(dates) && i < |dates| && forall d :: d in dates <==> d in active
    ensures forall d | d in active && d < dates[i] :: i > 0 && d <= dates[i - 1]
    ensures dates[i] in active
  {
    forall d | d in active && d < dates[i] ensures i > 0 && d <= dates[i - 1] {
      assert d in dates;
      var j :| 0 <= j < |dates| && dates[j] == d;
      assert j <= i - 1;
    }
    assert dates[i] in dates;
  }

  function Below(active: set<int>, last: int): set<int> { set d | d in active && d <= last }

  method CurrentStreak(active: set<int>, today: int) returns (current: nat)
    ensures StreakEnding(active, today, current)
  {
    current := 0;
    var cursor := today;
    while cursor in active
      invariant cursor == today - current && Streak(active, today, current)
      decreases Below(active, cursor)
    {
      assert cursor in Below(active, cursor) && cursor !in Below(active, cursor - 1);
      assert Below(active, cursor - 1) <= Below(active, cursor);
      current := current + 1;
      cursor := cursor - 1;
    }
  }

  method ActivityOverview(days: seq<Day>, today: int) returns (o: Overview)
    ensures o.total == Total(days) && o.activeDays == |ActiveDates(days)|
    ensures Longest(ActiveDates(days), o.longestStreak)
    ensures StreakEnding(ActiveDates(days), today, o.currentStreak)
    ensures o.currentStreak <= o.longestStreak <= o.activeDays
    ensures (forall i | 0 <= i < |days| :: days[i].count >= 0) ==> o.activeDays <= o.total
  {
    var active := ActiveDates(days);
    var longest := LongestStreak(active);
    var current := CurrentStreak(active, today);
    var total := 0;
    var i := 0;
    while i < |days|
      invariant 0 <= i <= |days| && total == Total(days[..i])
    {
      total := total + days[i].count;
      assert days[..i + 1][..i] == days[..i];
      i := i + 1;
    }
    assert days[..i] == days;
    ghost var last :| Streak(active, last, longest);
    StreakFits(active, last, longest);
    if forall i | 0 <= i < |days| :: days[i].count >= 0 { ActiveDaysCount(days); }
    o := Overview(total, |active|, current, longest);
  }

  lemma {:induction false} StreakFits(active: set<int>, last: int, k: nat)
    requires Streak(active, last, k)
    ensures k <= |active|
    decreases k
  {
    if k > 0 {
      assert last in active;
      StreakFits(active - {last}, last - 1, k - 1);
    }
  }

  lemma {:induction false} ActiveDaysCount(days: seq<Day>)
    requires forall i | 0 <= i < |days| :: days[i].count >= 0
    ensures |ActiveDates(days)| <= Total(days)
  {
    if days != [] {
      var shorter, last := days[..|days| - 1], days[|days| - 1];
      ActiveDaysCount(shorter);
      var added := if last.count > 0 then {last.date} else {};
      assert ActiveDates(days) == ActiveDates(shorter) + added;
      assert |added| <= last.count;
      assert |ActiveDates(shorter) + added| <= |ActiveDates(shorter)| + |added|;
    }
  }

  /** Only which days are active matters for the streaks, and both are determined by it. */
  lemma StreaksAreDetermined(active: set<int>, today: int, a: nat, b: nat, c: nat, d: nat)
    requires StreakEnding(active, today, a) && StreakEnding(active, today, b)
    requires Longest(active, c) && Longest(active, d)
    ensures a == b && c == d
  {
    assert a < b ==> today - a in active;
    assert b < a ==> today - b in active;
    var last :| Streak(active, last, c);
    var other :| Streak(active, other, d);
  }
}
