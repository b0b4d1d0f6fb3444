/** How long a permission lasts, and how two grants of the same permission combine. */
module Lifetimes {
  import opened Options

  /** `mode` and `expiresAt` of a stored permission: only `until` carries an expiry. */
  datatype Lifetime = Once | Until(t: nat) | Persistent

  /** once < until(t) < persistent, and until(t) grows with t. */
  predicate Leq(a: Lifetime, b: Lifetime) {
    match a
    case Once => true
    case Until(t) => b.Persistent? || (b.Until? && t <= b.t)
    case Persistent => b.Persistent?
  }

  /** What an approval makes of the lifetime already stored. */
  function Extended(current: Lifetime, approved: Lifetime): Lifetime {
    var shouldPersist := approved.Persistent? && !current.Persistent?;
    var shouldExtend := approved.Until? && !current.Persistent? && (current.Once? || current.t < approved.t);
    if shouldPersist then Persistent else if shouldExtend then approved else current
  }

  /** What a direct grant changes, or None. */
  function StrongerLifetime(current: Lifetime, requested: Lifetime): Option<Lifetime> {
    if current.Persistent? || requested.Once? then None
    else if requested.Persistent? then Some(Persistent)
    else if current.Once? then Some(requested)
    else if requested.t > current.t then Some(requested)
    else None
  }

  /** Approving is taking the least upper bound. */
  lemma ExtendedIsLeastUpperBound(current: Lifetime, approved: Lifetime, bound: Lifetime)
    ensures Leq(current, Extended(current, approved)) && Leq(approved, Extended(current, approved))
    ensures Leq(Extended(current, approved), bound) <==> Leq(current, bound) && Leq(approved, bound)
  {
  }

  lemma LeqOrders(a: Lifetime, b: Lifetime, c: Lifetime)
    ensures Leq(a, a) && (Leq(a, b) || Leq(b, a))
    ensures Leq(a, b) && Leq(b, a) ==> a == b
    ensures Leq(a, b) && Leq(b, c) ==> Leq(a, c)
  {
  }

  /** The two ways of granting a permission combine lifetimes alike, and a direct grant
      leaves the row alone exactly when it adds nothing. */
  lemma GrantsAgree(current: Lifetime, requested: Lifetime)
    ensures StrongerLifetime(current, requested)
            == if Extended(current, requested) == current then None else Some(Extended(current, requested))
  {
  }

  /** The lifetime after a list of approvals. */
  function ExtendedBy(current: Lifetime, approvals: seq<Lifetime>): Lifetime
    decreases |approvals|
  {
    if approvals == [] then current else ExtendedBy(Extended(current, approvals[0]), approvals[1..])
  }

  lemma {:induction false} ExtendedByBounds(current: Lifetime, approvals: seq<Lifetime>, bound: Lifetime)
    ensures Leq(ExtendedBy(current, approvals), bound)
            <==> Leq(current, bound) && forall i | 0 <= i < |approvals| :: Leq(approvals[i], bound)
    decreases |approvals|
  {
    if approvals != [] {
      ExtendedByBounds(Extended(current, approvals[0]), approvals[1..], bound);
      ExtendedIsLeastUpperBound(current, approvals[0], bound);
      assert forall i | 1 <= i < |approvals| :: approvals[i] == approvals[1..][i - 1];
    }
  }

  /** Approvals give the same lifetime in any order and however often they are repeated. */
  lemma ApprovalOrderIrrelevant(current: Lifetime, a: seq<Lifetime>, b: seq<Lifetime>)
    requires forall x :: x in a <==> x in b
    ensures ExtendedBy(current, a) == ExtendedBy(current, b)
  {
    var ra, rb := ExtendedBy(current, a), ExtendedBy(current, b);
    LeqOrders(ra, rb, ra);
    ExtendedByBounds(current, a, ra);
    ExtendedByBounds(current, b, rb);
    ExtendedByBounds(current, a, rb);
    ExtendedByBounds(current, b, ra);
    assert forall i | 0 <= i < |a| :: a[i] in a && a[i] in b;
    assert forall i | 0 <= i < |b| :: b[i] in b && b[i] in a;
  }

  /** An approval that read `read` and stores its result later, over whatever is stored by then.
      It writes only if it extends the lifetime it read or rewrites the context hash. */
  function StaleWrite(read: Lifetime, stored: Lifetime, approved: Lifetime, rehash: bool): Lifetime {
    if Extended(read, approved) != read || rehash then Extended(read, approved) else stored
  }

  lemma TwoApprovals(read: Lifetime, first: Lifetime, second: Lifetime)
    ensures ExtendedBy(read, [first, second]) == Extended(Extended(read, first), second)
  {
    assert [first, second][1..] == [second];
    assert ExtendedBy(Extended(read, first), [second]) == Extended(Extended(read, first), second);
  }

  /** Two approvals that both read the same row: the second to store loses the lifetime of the
      first exactly when it writes at all and the first was longer than both others. */
  lemma OverlappingApprovals(read: Lifetime, first: Lifetime, second: Lifetime, rehash: bool)
    ensures StaleWrite(read, Extended(read, first), second, rehash) != ExtendedBy(read, [first, second])
            <==> (rehash || !Leq(second, read)) && !Leq(first, read) && !Leq(first, second)
  {
    TwoApprovals(read, first, second);
  }

  /** A permanent approval lost to a time-limited one that was decided at the same moment. */
  lemma PermanentApprovalLost()
    ensures StaleWrite(Once, Extended(Once, Persistent), Until(5), false) == Until(5)
    ensures ExtendedBy(Once, [Persistent, Until(5)]) == Persistent
  {
    OverlappingApprovals(Once, Persistent, Until(5), false);
    TwoApprovals(Once, Persistent, Until(5));
  }
}
