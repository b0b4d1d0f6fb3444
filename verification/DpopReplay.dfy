/** The memory of used DPoP proofs: examples/external-resource-server/server.ts, consumeDpopJti. */
module DpopReplay {
  import opened Texts

  /** A proof whose signature, type and target have been checked. `iat` is any number of seconds. */
  datatype Proof = Proof(jkt: Text, jti: Text, iat: real)

  type Memory = map<Text, real>

  const COLON: CodeUnit := 0x3A
  const WINDOW := 300.0

  function Seconds(nowMs: nat): nat { nowMs / 1000 }

  /** The proof is neither too old nor too far ahead. */
  predicate Recent(p: Proof, nowMs: nat) {
    var age := nowMs as real / 1000.0 - p.iat;
    -WINDOW <= age <= WINDOW
  }

  function ReplayKey(p: Proof): Text { p.jkt + [COLON] + p.jti }

  /** What is left once expired entries are dropped. */
  function Purged(used: Memory, nowMs: nat): Memory {
    map k | k in used && used[k] > Seconds(nowMs) as real :: used[k]
  }

  predicate Accepts(used: Memory, p: Proof, nowMs: nat) {
    Recent(p, nowMs) && ReplayKey(p) !in Purged(used, nowMs)
  }

  function After(used: Memory, p: Proof, nowMs: nat): Memory {
    if !Recent(p, nowMs) then used
    else if ReplayKey(p) in Purged(used, nowMs) then Purged(used, nowMs)
    else Purged(used, nowMs)[ReplayKey(p) := p.iat + WINDOW]
  }

  class ReplayCache {
    var used: Memory

    constructor ()
      ensures used == map[]
    {
      used := map[];
    }

    method Check(p: Proof, nowMs: nat) returns (accepted: bool)
      modifies this
      ensures accepted <==> Accepts(old(used), p, nowMs)
      ensures used == After(old(used), p, nowMs)
    {
      if !Recent(p, nowMs) { return false; }
      accepted := ConsumeDpopJti(p, nowMs);
    }

    /** Deletes expired entries one by one, then refuses a proof that is still remembered. */
    method ConsumeDpopJti(p: Proof, nowMs: nat) returns (accepted: bool)
      modifies this
      ensures accepted <==> ReplayKey(p) !in Purged(old(used), nowMs)
      ensures used == if accepted then Purged(old(used), nowMs)[ReplayKey(p) := p.iat + WINDOW] else Purged(old(used), nowMs)
    {
      var now := Seconds(nowMs);
      var rest := used.Keys;
      while rest != {}
        invariant rest <= used.Keys <= old(used).Keys
        invariant forall k | k in used :: used[k] == old(used)[k]
        invariant forall k | k in old(used) && k !in rest :: k in used <==> old(used)[k] > now as real
        decreases |rest|
      {
        var candidate :| candidate in rest;
        rest := rest - {candidate};
        if used[candidate] <= now as real { used := used - {candidate}; }
      }
      assert used == Purged(old(used), nowMs);
      if ReplayKey(p) in used { return false; }
      used := used[ReplayKey(p) := p.iat + WINDOW];
      return true;
    }
  }

  // ---- Keys ----

  /** A key thumbprint is base64url text, which has no colon, so a key tells which proof it is of. */
  lemma ReplayKeysTellApart(p: Proof, q: Proof)
    requires COLON !in p.jkt && COLON !in q.jkt
    ensures ReplayKey(p) == ReplayKey(q) <==> p.jkt == q.jkt && p.jti == q.jti
  {
    if ReplayKey(p) == ReplayKey(q) {
      FirstColon(p, q);
      FirstColon(q, p);
      assert p.jkt == ReplayKey(p)[..|p.jkt|] && q.jkt == ReplayKey(q)[..|q.jkt|];
      assert p.jti == ReplayKey(p)[|p.jkt| + 1..] && q.jti == ReplayKey(q)[|q.jkt| + 1..];
    }
  }

  lemma FirstColon(p: Proof, q: Proof)
    requires COLON !in q.jkt && ReplayKey(p) == ReplayKey(q)
    ensures |q.jkt| <= |p.jkt|
  {
    assert ReplayKey(p)[|p.jkt|] == COLON;
    assert forall i | 0 <= i < |q.jkt| :: ReplayKey(q)[i] == q.jkt[i] && q.jkt[i] in q.jkt;
  }

  // ---- Runs ----

  datatype Call = Call(proof: Proof, at: nat)

  ghost predicate InOrder(calls: seq<Call>) {
    forall i, j | 0 <= i < j < |calls| :: calls[i].at <= calls[j].at
  }

  /** What is remembered before call n of a run that starts with nothing remembered. */
  function Before(calls: seq<Call>, n: nat): Memory
    requires n <= |calls|
  {
    if n == 0 then map[] else After(Before(calls, n - 1), calls[n - 1].proof, calls[n - 1].at)
  }

  predicate Accepted(calls: seq<Call>, n: nat)
    requires n < |calls|
  {
    Accepts(Before(calls, n), calls[n].proof, calls[n].at)
  }

  /** A proof accepted at call i is remembered until the whole second in which it expires. */
  lemma {:induction false} RememberedUntilExpiry(calls: seq<Call>, i: nat, n: nat)
    requires InOrder(calls) && i < n <= |calls| && Accepted(calls, i)
    ensures var p := calls[i].proof;
            || (ReplayKey(p) in Before(calls, n) && Before(calls, n)[ReplayKey(p)] == p.iat + WINDOW)
            || p.iat + WINDOW <= Seconds(calls[n - 1].at) as real
    decreases n
  {
    if n > i + 1 {
      RememberedUntilExpiry(calls, i, n - 1);
      assert calls[n - 2].at <= calls[n - 1].at;
      SecondsGrow(calls[n - 2].at, calls[n - 1].at);
    }
  }

  lemma SecondsGrow(a: nat, b: nat)
    requires a <= b
    ensures Seconds(a) <= Seconds(b)
  {
  }

  /** Whatever calls come between, the same proof is accepted a second time only at the one
      whole second exactly 300 seconds after it was issued, and so never before. */
  lemma AcceptedAgainOnlyAtTheEnd(calls: seq<Call>, i: nat, j: nat)
    requires InOrder(calls) && i < j < |calls| && calls[i].proof == calls[j].proof
    requires Accepted(calls, i) && Accepted(calls, j)
    ensures calls[j].at as real == 1000.0 * (calls[j].proof.iat + WINDOW) && calls[j].at % 1000 == 0
  {
    RememberedUntilExpiry(calls, i, j);
    assert calls[j - 1].at <= calls[j].at;
    SecondsGrow(calls[j - 1].at, calls[j].at);
    assert Seconds(calls[j].at) as real <= calls[j].at as real / 1000.0;
    WholeSeconds(calls[j].at, calls[j].proof.iat + WINDOW);
  }

  /** Right after acceptance, the next use is accepted exactly at that instant, if the instant is
      a whole second; there it may be repeated without limit. */
  lemma ReplayedExactlyAtTheEnd(used: Memory, p: Proof, first: nat, second: nat)
    requires Accepts(used, p, first) && first <= second
    ensures Accepts(After(used, p, first), p, second)
            <==> second as real == 1000.0 * (p.iat + WINDOW) && second % 1000 == 0
  {
    var expiry := p.iat + WINDOW;
    var key := ReplayKey(p);
    assert key in After(used, p, first) && After(used, p, first)[key] == expiry;
    if second as real == 1000.0 * expiry {
      WholeSeconds(second, expiry);
    }
    assert Seconds(second) as real <= second as real / 1000.0;
  }

  lemma WholeSeconds(ms: nat, s: real)
    requires ms as real == 1000.0 * s
    ensures s <= Seconds(ms) as real <==> ms % 1000 == 0
  {
    assert ms == 1000 * Seconds(ms) + ms % 1000;
    assert ms as real == 1000.0 * Seconds(ms) as real + (ms % 1000) as real;
  }

  /** What is remembered stays small: after an accepted call every other entry expires in a later
      second, and the entry just made expires no earlier than this second. */
  lemma OnlyLiveEntriesRemain(used: Memory, p: Proof, nowMs: nat)
    requires Accepts(used, p, nowMs)
    ensures var m := After(used, p, nowMs);
            && (forall k | k in m && k != ReplayKey(p) :: m[k] > Seconds(nowMs) as real)
            && ReplayKey(p) in m && m[ReplayKey(p)] >= Seconds(nowMs) as real
  {
    assert Seconds(nowMs) as real <= nowMs as real / 1000.0;
  }
}
