/** One-to-one assignments of available things to wanted ones. */
module Assignments {
  function RemoveAt<T>(s: seq<T>, index: nat): seq<T>
    requires index < |s|
  {
    s[..index] + s[index + 1..]
  }

  lemma SpliceRemoves<T>(s: seq<T>, index: nat)
    requires index < |s|
    ensures multiset(s) == multiset(RemoveAt(s, index)) + multiset{s[index]}
  {
    assert s == s[..index] + [s[index]] + s[index + 1..];
  }

  /** `chosen` lists the available things in the order of what they serve. */
  ghost predicate Assigns<C, R>(chosen: seq<C>, available: seq<C>, wanted: seq<R>, serves: (C, R) -> bool) {
    && multiset(chosen) == multiset(available)
    && |chosen| == |wanted|
    && forall i | 0 <= i < |wanted| :: serves(chosen[i], wanted[i])
  }

  lemma Consed<C, R>(rest: seq<C>, available: seq<C>, wanted: seq<R>, index: nat, serves: (C, R) -> bool)
    requires index < |available| && wanted != [] && serves(available[index], wanted[0])
    requires Assigns(rest, RemoveAt(available, index), wanted[1..], serves)
    ensures Assigns([available[index]] + rest, available, wanted, serves)
  {
    SpliceRemoves(available, index);
    var chosen := [available[index]] + rest;
    forall i | 0 <= i < |wanted| ensures serves(chosen[i], wanted[i]) {
      if i > 0 { assert serves(rest[i - 1], wanted[1..][i - 1]); }
    }
  }

  /** Where one available thing serves two wanted things, all that serve the earlier serve the later. */
  ghost predicate Exchanges<C(!new), R>(available: seq<C>, wanted: seq<R>, serves: (C, R) -> bool) {
    forall c, d, j, k | c in available && d in available && 0 <= j < k < |wanted| &&
                        serves(c, wanted[j]) && serves(c, wanted[k]) && serves(d, wanted[j]) ::
      serves(d, wanted[k])
  }

  lemma ExchangesRest<C(!new), R>(available: seq<C>, wanted: seq<R>, index: nat, serves: (C, R) -> bool)
    requires wanted != [] && index < |available| && Exchanges(available, wanted, serves)
    ensures Exchanges(RemoveAt(available, index), wanted[1..], serves)
  {
    var rest := RemoveAt(available, index);
    assert forall c | c in rest :: c in available;
    forall c, d, j, k | c in rest && d in rest && 0 <= j < k < |wanted[1..]| &&
                        serves(c, wanted[1..][j]) && serves(c, wanted[1..][k]) && serves(d, wanted[1..][j])
      ensures serves(d, wanted[1..][k])
    {
      assert serves(c, wanted[j + 1]) && serves(c, wanted[k + 1]) && serves(d, wanted[j + 1]);
    }
  }

  /** chosen without its k-th element, whose place the first element takes. */
  function Reassigned<C>(chosen: seq<C>, k: nat): seq<C>
    requires k < |chosen|
  {
    if k == 0 then chosen[1..] else chosen[1..][k - 1 := chosen[0]]
  }

  lemma ReassignedElements<C>(chosen: seq<C>, k: nat)
    requires k < |chosen|
    ensures multiset(Reassigned(chosen, k)) + multiset{chosen[k]} == multiset(chosen)
  {
    assert chosen == [chosen[0]] + chosen[1..];
    assert k > 0 ==> chosen[1..][k - 1] == chosen[k];
  }

  lemma ReassignedServes<C, R>(chosen: seq<C>, wanted: seq<R>, k: nat, serves: (C, R) -> bool)
    requires wanted != [] && |chosen| == |wanted| && forall i | 0 <= i < |wanted| :: serves(chosen[i], wanted[i])
    requires k < |chosen| && serves(chosen[0], wanted[k])
    ensures forall i | 0 <= i < |wanted| - 1 :: serves(Reassigned(chosen, k)[i], wanted[1..][i])
  {
    forall i | 0 <= i < |wanted| - 1 ensures serves(Reassigned(chosen, k)[i], wanted[1..][i]) {
      assert serves(chosen[i + 1], wanted[i + 1]);
    }
  }

  lemma Exchanged<C(!new), R>(available: seq<C>, wanted: seq<R>, c: C, d: C, j: nat, k: nat, serves: (C, R) -> bool)
    requires Exchanges(available, wanted, serves) && c in available && d in available && j <= k < |wanted|
    requires serves(c, wanted[j]) && serves(c, wanted[k]) && serves(d, wanted[j])
    ensures serves(d, wanted[k])
  {
  }

  lemma Cancel<T>(m: multiset<T>, n: multiset<T>, x: T)
    requires m + multiset{x} == n + multiset{x}
    ensures m == n
  {
    assert m == m + multiset{x} - multiset{x};
    assert n == n + multiset{x} - multiset{x};
  }

  /** An assignment of the rest after the first wanted thing took available[index] instead of chosen[0]. */
  lemma Reassign<C(!new), R>(chosen: seq<C>, available: seq<C>, wanted: seq<R>, index: nat, serves: (C, R) -> bool)
    returns (rest: seq<C>)
    requires wanted != [] && Exchanges(available, wanted, serves) && Assigns(chosen, available, wanted, serves)
    requires index < |available| && serves(available[index], wanted[0])
    ensures Assigns(rest, RemoveAt(available, index), wanted[1..], serves)
  {
    assert available[index] in multiset(chosen);
    var k :| 0 <= k < |chosen| && chosen[k] == available[index];
    rest := Reassigned(chosen, k);
    assert chosen[0] in multiset(chosen) && chosen[k] in multiset(chosen);
    Exchanged(available, wanted, chosen[k], chosen[0], 0, k, serves);
    ReassignedServes(chosen, wanted, k, serves);
    ReassignedElements(chosen, k);
    SpliceRemoves(available, index);
    Cancel(multiset(rest), multiset(RemoveAt(available, index)), chosen[k]);
  }

  // ---- Counting ----

  ghost function Count<T>(s: seq<T>, p: T -> bool): nat {
    if s == [] then 0 else (if p(s[0]) then 1 else 0) + Count(s[1..], p)
  }

  lemma {:induction false} CountRemove<T>(s: seq<T>, index: nat, p: T -> bool)
    requires index < |s|
    ensures Count(s, p) == Count(RemoveAt(s, index), p) + if p(s[index]) then 1 else 0
  {
    if index == 0 {
      assert RemoveAt(s, 0) == s[1..];
    } else {
      CountRemove(s[1..], index - 1, p);
      assert RemoveAt(s, index)[1..] == RemoveAt(s[1..], index - 1);
    }
  }

  lemma {:induction false} CountPermuted<T>(s: seq<T>, t: seq<T>, p: T -> bool)
    requires multiset(s) == multiset(t)
    ensures Count(s, p) == Count(t, p)
  {
    if s == [] {
      assert |multiset(s)| == |multiset(t)|;
    } else {
      assert s[0] in multiset(t);
      var index :| 0 <= index < |t| && t[index] == s[0];
      SpliceRemoves(t, index);
      assert s == [s[0]] + s[1..];
      Cancel(multiset(s[1..]), multiset(RemoveAt(t, index)), s[0]);
      CountPermuted(s[1..], RemoveAt(t, index), p);
      CountRemove(t, index, p);
    }
  }

  lemma {:induction false} CountMonotone<S, T>(s: seq<S>, t: seq<T>, p: S -> bool, q: T -> bool)
    requires |s| == |t| && forall i | 0 <= i < |s| :: p(s[i]) ==> q(t[i])
    ensures Count(s, p) <= Count(t, q)
  {
    if s != [] { CountMonotone(s[1..], t[1..], p, q); }
  }

  lemma {:induction false} CountStrict<S, T>(s: seq<S>, t: seq<T>, j: nat, p: S -> bool, q: T -> bool)
    requires |s| == |t| && forall i | 0 <= i < |s| :: p(s[i]) ==> q(t[i])
    requires j < |s| && !p(s[j]) && q(t[j])
    ensures Count(s, p) < Count(t, q)
  {
    if j == 0 { CountMonotone(s[1..], t[1..], p, q); } else { CountStrict(s[1..], t[1..], j - 1, p, q); }
  }

  lemma CountTails<T>(s: seq<T>, t: seq<T>, i: nat, j: nat, p: T -> bool)
    requires |s| == |t| && i <= j < |s|
    requires forall k | i <= k < |s| :: p(s[k]) ==> p(t[k])
    requires !p(s[j]) && p(t[j])
    ensures Count(s[i..], p) < Count(t[i..], p)
  {
    CountStrict(s[i..], t[i..], j - i, p, p);
  }

  /** If only p-things serve q-wants, an assignment needs as many p-things as q-wants. */
  lemma AssignsNeeds<C(!new), R(!new)>(chosen: seq<C>, available: seq<C>, wanted: seq<R>,
                                      serves: (C, R) -> bool, p: C -> bool, q: R -> bool)
    requires Assigns(chosen, available, wanted, serves)
    requires forall c, r | serves(c, r) && q(r) :: p(c)
    ensures Count(available, p) >= Count(wanted, q)
  {
    CountPermuted(chosen, available, p);
    CountMonotone(wanted, chosen, q, p);
  }

  /** s.findIndex(p) */
  function FirstIndex<T>(s: seq<T>, p: T -> bool): (index: int)
    ensures -1 <= index < |s|
    ensures index >= 0 ==> p(s[index])
    ensures forall i | 0 <= i < |s| && (i < index || index == -1) :: !p(s[i])
  {
    if s == [] then -1
    else if p(s[0]) then 0
    else
      var rest := FirstIndex(s[1..], p);
      assert forall i | 1 <= i < |s| :: s[i] == s[1..][i - 1];
      if rest == -1 then -1 else rest + 1
  }

  method FindFirst<T>(s: seq<T>, p: T -> bool) returns (index: int)
    ensures index == FirstIndex(s, p)
  {
    index := 0;
    while index < |s|
      invariant 0 <= index <= |s|
      invariant forall i | 0 <= i < index :: !p(s[i])
    {
      if p(s[index]) { return; }
      index := index + 1;
    }
    index := -1;
  }
}
