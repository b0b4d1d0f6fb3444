/** What becomes of a token after it is revoked: the tokens that can still be had in exchange for it. */
module TokenChains {
  import opened Options
  import opened Texts
  import opened ScopeTexts
  import opened DpopReplay
  import opened ResourceServers
  import opened ServerRuns

  // ---- Continuations of a run ----

  predicate Timed(step: Step) { !step.Registered? }

  /** The run goes on from `s`, at `at` or later, and time does not go back. */
  ghost predicate Continues(run: Run, s: State, at: nat) {
    && |run.states| == |run.steps| + 1 && run.states[0] == s
    && (forall k | 0 <= k < |run.steps| :: Linked(run, k))
    && (forall k | 0 <= k < |run.steps| && Timed(run.steps[k]) :: at <= run.steps[k].at)
    && (forall j, k | 0 <= j < k < |run.steps| && Timed(run.steps[j]) && Timed(run.steps[k]) :: run.steps[j].at <= run.steps[k].at)
  }

  ghost predicate Exchanges(s: State, step: Step) {
    && step.TokenAsked? && step.request.Exchange? && Authenticated(s.server, step.client, step.secret)
    && ExchangeAccepted(s.server, step.client, step.request.exchange, step.at)
  }

  /** `d` is the token, or was obtained from it by exchanges among the first n steps. */
  ghost predicate Descends(run: Run, n: nat, token: Id, d: Id)
    requires |run.states| == |run.steps| + 1 && n <= |run.steps|
  {
    || d == token
    || (n > 0 && Descends(run, n - 1, token, d))
    || (n > 0 && Exchanges(run.states[n - 1], run.steps[n - 1]) && run.steps[n - 1].drawn.token == d
        && Descends(run, n - 1, token, run.steps[n - 1].request.exchange.subjectToken))
  }

  /** The run lets a request in that the token itself did not make, but one obtained from it. */
  ghost predicate OpensThrough(run: Run, token: Id, write: bool)
    requires |run.states| == |run.steps| + 1
  {
    var n := |run.steps|;
    exists i :: |run.states[0].entered| <= i < |run.states[n].entered|
                && var e := run.states[n].entered[i]; e.write == write && e.token != token && Descends(run, n, token, e.token)
  }

  function Required(write: bool): Text { if write then WRITE_SCOPE else READ_SCOPE }

  predicate Live(s: Server, token: Id, at: nat) {
    Verify(s, token, Api, at).Some?
  }

  // ---- What a descendant needs ----

  lemma ClockGrows(a: nat, b: nat)
    requires a <= b
    ensures Seconds(a) <= Seconds(b)
  {
  }

  /** What descends from a token has no scope that it lacks, and there is such a thing only if the
      token had not expired. */
  ghost predicate Narrowed(s: Server, t: Server, token: Id, d: Id, at: nat)
    requires token in s.signed
  {
    && d in t.signed && t.signed[d].audience == Api
    && Within(NormalizeScopes(ScopeOf(t.signed[d])), NormalizeScopes(ScopeOf(s.signed[token])))
    && (d != token ==> Live(s, token, at))
  }

  lemma NarrowedLater(s: Server, t: Server, u: Server, token: Id, d: Id, at: nat)
    requires token in s.signed && Narrowed(s, t, token, d, at) && Grows(t, u)
    ensures Narrowed(s, u, token, d, at)
  {
  }

  lemma ExchangedScopes(s: Server, client: Id, q: ExchangeRequest, jti: Id, at: nat)
    requires ExchangeAccepted(s, client, q, at)
    ensures var c := ExchangedClaims(s, client, q, jti, at);
            NormalizeScopes(ScopeOf(c)) == NormalizeScopes(q.scope)
            && Within(NormalizeScopes(ScopeOf(c)), NormalizeScopes(ScopeOf(s.signed[q.subjectToken])))
  {
    NormalizedRoundTrip(q.scope);
  }

  lemma {:induction false} DescendantsNarrow(run: Run, s: State, at: nat, n: nat, token: Id, d: Id)
    requires Continues(run, s, at) && n <= |run.steps| && Descends(run, n, token, d)
    requires token in s.server.signed && s.server.signed[token].audience == Api
    ensures Grows(s.server, run.states[n].server) && Narrowed(s.server, run.states[n].server, token, d, at)
    decreases n
  {
    if n > 0 {
      var before, step, after := run.states[n - 1], run.steps[n - 1], run.states[n];
      assert Linked(run, n - 1);
      StepGrows(before, step, after);
      DescendantsNarrow(run, s, at, n - 1, token, token);
      GrowsTransitive(s.server, before.server, after.server);
      if d == token || Descends(run, n - 1, token, d) {
        DescendantsNarrow(run, s, at, n - 1, token, d);
        NarrowedLater(s.server, before.server, after.server, token, d, at);
      } else {
        var q := step.request.exchange;
        DescendantsNarrow(run, s, at, n - 1, token, q.subjectToken);
        ExchangeDescends(s, at, before, step, after, token);
      }
    }
  }

  lemma ExchangeDescends(s: State, at: nat, before: State, step: Step, after: State, token: Id)
    requires Next(before, step, after) && Exchanges(before, step) && at <= step.at
    requires token in s.server.signed && s.server.signed[token].audience == Api && Grows(s.server, before.server)
    requires Narrowed(s.server, before.server, token, step.request.exchange.subjectToken, at)
    ensures Narrowed(s.server, after.server, token, step.drawn.token, at)
  {
    var q := step.request.exchange;
    ExchangedScopes(before.server, step.client, q, step.drawn.jti, step.at);
    ClockGrows(at, step.at);
    assert after.server.signed[step.drawn.token] == ExchangedClaims(before.server, step.client, q, step.drawn.jti, step.at);
  }

  lemma {:induction false} ContinuationKeepsTokens(run: Run, s: State, at: nat, n: nat)
    requires Continues(run, s, at) && n <= |run.steps| && TokensKept(s)
    ensures TokensKept(run.states[n])
  {
    if n > 0 {
      ContinuationKeepsTokens(run, s, at, n - 1);
      assert Linked(run, n - 1);
      StepKeepsTokens(run.states[n - 1], run.steps[n - 1], run.states[n]);
    }
  }

  lemma OpeningNeedsLife(run: Run, s: State, at: nat, token: Id, write: bool)
    requires Continues(run, s, at) && TokensKept(s) && OpensThrough(run, token, write)
    requires token in s.server.signed && s.server.signed[token].audience == Api
    ensures Live(s.server, token, at) && Required(write) in NormalizeScopes(ScopeOf(s.server.signed[token]))
  {
    var n := |run.steps|;
    var i :| |run.states[0].entered| <= i < |run.states[n].entered|
             && var e := run.states[n].entered[i]; e.write == write && e.token != token && Descends(run, n, token, e.token);
    var e := run.states[n].entered[i];
    DescendantsNarrow(run, s, at, n, token, e.token);
    ContinuationKeepsTokens(run, s, at, n);
    assert LetIn(run.states[n].server, e);
    NormalizedScopes(ScopeOf(run.states[n].server.signed[e.token]));
  }

  // ---- Names that have not been used ----

  lemma {:induction false} LongerThanAll<T(!new)>(used: set<seq<T>>) returns (n: nat)
    ensures forall x | x in used :: |x| < n
    decreases used
  {
    if used == {} {
      n := 0;
    } else {
      var x :| x in used;
      n := LongerThanAll(used - {x});
      if n <= |x| { n := |x| + 1; }
    }
  }

  function Name(n: nat): Id { seq(n, _ => 'x') }

  lemma DrawNew(s: State) returns (client: Id, drawn: Drawn)
    ensures client !in s.server.clients && NeverDrawn(s, drawn)
  {
    var server := s.server;
    var n := LongerThanAll(s.consented.Keys + server.codes.Keys + server.refreshes.Keys + server.signed.Keys
                           + server.accesses.Keys + server.clients.Keys + set t | t in server.signed :: server.signed[t].jti);
    client, drawn := Name(n), Drawn(Name(n + 1), Name(n + 2), Name(n + 3), Name(n + 4));
    assert forall t | t in server.signed :: |server.signed[t].jti| < n;
  }

  /** A proof of possession of the key `jkt` that has not been used. */
  lemma NewProof(used: Memory, jkt: Text, at: nat) returns (p: Proof)
    ensures p.jkt == jkt && Accepts(used, p, at)
  {
    var n := LongerThanAll(used.Keys);
    p := Proof(jkt, seq(n, _ => 0x78), at as real / 1000.0);
    assert |ReplayKey(p)| > n;
  }

  // ---- Exchanging a live token ----

  /** An API token with a row that is not revoked, bound to a key. */
  predicate Fresh(s: Server, token: Id, at: nat) {
    Live(s, token, at) && s.signed[token].jkt.Some? && Unrevoked(s, s.signed[token].jti)
  }

  /** The request that exchanges all scopes of `token`. */
  function WholeExchange(s: Server, token: Id, actor: Id, p: Proof): ExchangeRequest
    requires token in s.signed
  {
    ExchangeRequest(token, actor, ScopeOf(s.signed[token]), Api, Presented(p, true, None))
  }

  const HOME: Text := [0x68]
  const ANYONE := Client([], [HOME])
  const SOMEONE := Assertion(Some([]), Some([]), Some([]))

  /** A client registers, vouches for an Agent of its own, and exchanges the token. */
  ghost predicate ExchangesToken(run: Run, s: State, token: Id, d: Id, at: nat)
    requires token in s.server.signed
  {
    && Continues(run, s, at) && |run.steps| == 3 && (forall k | 0 <= k < 3 && Timed(run.steps[k]) :: run.steps[k].at == at)
    && Descends(run, 3, token, d) && d !in s.server.signed
    && var t := run.states[3];
    && Fresh(t.server, d, at) && t.server.signed[d].expiresAt == Seconds(at) + TOKEN_LIFETIME
    && NormalizeScopes(ScopeOf(t.server.signed[d])) == NormalizeScopes(ScopeOf(s.server.signed[token]))
    && t.entered == s.entered
    && t.server.signed[d].client in t.server.clients && t.server.clients[t.server.signed[d].client] == ANYONE
  }

  lemma Registers(s: State, client: Id) returns (t: State)
    requires client !in s.server.clients
    ensures Next(s, Registered(client, ANYONE), t) && t == s.(server := s.server.(clients := s.server.clients[client := ANYONE]))
  {
    t := s.(server := Register(s.server, client, ANYONE));
  }

  lemma Vouches(s: State, client: Id, drawn: Drawn, at: nat) returns (t: State)
    requires client in s.server.clients && s.server.clients[client] == ANYONE && NeverDrawn(s, drawn)
    ensures Next(s, TokenAsked(client, [], JwtBearer(Some(SOMEONE)), drawn, at), t)
    ensures t == s.(server := s.server.(signed := s.server.signed[drawn.token := t.server.signed[drawn.token]]))
    ensures var actor := Verify(t.server, drawn.token, Issuer, at);
            actor.Some? && actor.value.client == client && actor.value.agentIssuer == Some([])
  {
    t := s.(server := Token(s.server, client, [], JwtBearer(Some(SOMEONE)), drawn, at).0);
  }

  lemma ExchangesWhole(s: State, client: Id, token: Id, actor: Id, p: Proof, drawn: Drawn, at: nat) returns (t: State)
    requires client in s.server.clients && s.server.clients[client] == ANYONE && NeverDrawn(s, drawn)
    requires Live(s.server, token, at) && ScopeOf(s.server.signed[token]) != [] && Accepts(s.server.used, p, at)
    requires var actor := Verify(s.server, actor, Issuer, at);
             actor.Some? && actor.value.client == client && actor.value.agentIssuer.Some?
    ensures var step := TokenAsked(client, [], Exchange(WholeExchange(s.server, token, actor, p)), drawn, at);
            Next(s, step, t) && Exchanges(s, step)
    ensures Fresh(t.server, drawn.token, at) && t.server.signed[drawn.token].expiresAt == Seconds(at) + TOKEN_LIFETIME
    ensures NormalizeScopes(ScopeOf(t.server.signed[drawn.token])) == NormalizeScopes(ScopeOf(s.server.signed[token]))
    ensures t.entered == s.entered && t.server.clients == s.server.clients && t.server.signed[drawn.token].client == client
  {
    var q := WholeExchange(s.server, token, actor, p);
    t := s.(server := Token(s.server, client, [], Exchange(q), drawn, at).0);
    assert ExchangeAccepted(s.server, client, q, at);
    ExchangedScopes(s.server, client, q, drawn.jti, at);
    assert t.server.signed[drawn.token] == ExchangedClaims(s.server, client, q, drawn.jti, at);
  }

  lemma ThreeSteps(s: State, s1: State, s2: State, s3: State, a: Step, b: Step, c: Step, at: nat)
    requires Next(s, a, s1) && Next(s1, b, s2) && Next(s2, c, s3)
    requires !Timed(a) && Timed(b) && b.at == at && Timed(c) && c.at == at
    ensures Continues(Run([s, s1, s2, s3], [a, b, c]), s, at)
  {
    var run := Run([s, s1, s2, s3], [a, b, c]);
    forall k | 0 <= k < |run.steps| ensures Linked(run, k) {
      if k == 0 {} else if k == 1 {} else {}
    }
  }

  lemma LastExchanges(run: Run, token: Id)
    requires |run.states| == 4 && |run.steps| == 3 && Exchanges(run.states[2], run.steps[2])
    requires run.steps[2].request.exchange.subjectToken == token
    ensures Descends(run, 3, token, run.steps[2].drawn.token)
  {
    assert Descends(run, 2, token, token);
  }

  lemma ExchangeToken(s: State, token: Id, at: nat) returns (run: Run, d: Id)
    requires Live(s.server, token, at) && ScopeOf(s.server.signed[token]) != []
    ensures ExchangesToken(run, s, token, d, at)
  {
    var client, drawn := DrawNew(s);
    var s1 := Registers(s, client);
    var s2 := Vouches(s1, client, drawn, at);
    var _, next := DrawNew(s2);
    var p := NewProof(s2.server.used, [], at);
    var s3 := ExchangesWhole(s2, client, token, drawn.token, p, next, at);
    d := next.token;
    var vouch := TokenAsked(client, [], JwtBearer(Some(SOMEONE)), drawn, at);
    var exchange := TokenAsked(client, [], Exchange(WholeExchange(s2.server, token, drawn.token, p)), next, at);
    run := Run([s, s1, s2, s3], [Registered(client, ANYONE), vouch, exchange]);
    ThreeSteps(s, s1, s2, s3, Registered(client, ANYONE), vouch, exchange, at);
    LastExchanges(run, token);
  }

  // ---- Opening the API ----

  lemma EnterWith(s: State, token: Id, at: nat, write: bool) returns (run: Run)
    requires Fresh(s.server, token, at) && Required(write) in NormalizeScopes(ScopeOf(s.server.signed[token]))
    ensures Continues(run, s, at) && |run.steps| == 2 && (forall k | 0 <= k < 2 :: Timed(run.steps[k]) && run.steps[k].at == at)
    ensures var t := run.states[2];
            |t.entered| == |s.entered| + 1 && t.entered[|s.entered|].token == token && t.entered[|s.entered|].write == write
  {
    var p := NewProof(s.server.used, s.server.signed[token].jkt.value, at);
    var w := Unwaited(s.waiting);
    var shown := Presented(p, true, Some(token));
    var s1 := s.(waiting := s.waiting[w := token]);
    var s2 := s1.(server := ProofUsed(s1.server, shown, at), waiting := s1.waiting - {w}, entered := s1.entered + [Entry(token, shown, write)]);
    run := Run([s, s1, s2], [AccessBegun(w, token, at), AccessFinished(w, shown, write, at)]);
    forall k | 0 <= k < |run.steps| ensures Linked(run, k) {
      if k == 0 {} else {}
    }
  }

  lemma {:induction false} Unwaited(waiting: map<nat, Id>) returns (w: nat)
    ensures w !in waiting && forall v | v in waiting :: v < w
    decreases |waiting|
  {
    if waiting == map[] {
      w := 0;
    } else {
      var v :| v in waiting;
      var rest := waiting - {v};
      assert |rest| < |waiting|;
      w := Unwaited(rest);
      if w <= v { w := v + 1; }
      forall u | u in waiting ensures u < w {
        if u != v { assert u in rest; }
      }
    }
  }

  // ---- One continuation after another ----

  function Joined(a: Run, b: Run): Run
    requires |a.states| == |a.steps| + 1 && |b.states| == |b.steps| + 1
  {
    Run(a.states + b.states[1..], a.steps + b.steps)
  }

  lemma JoinedContinues(a: Run, b: Run, s: State, at: nat, later: nat)
    requires Continues(a, s, at) && Continues(b, a.states[|a.steps|], later) && at <= later
    requires forall k | 0 <= k < |a.steps| && Timed(a.steps[k]) :: a.steps[k].at <= later
    ensures Continues(Joined(a, b), s, at)
    ensures Joined(a, b).states[|a.steps| + |b.steps|] == b.states[|b.steps|]
  {
    var r := Joined(a, b);
    assert forall n | 0 <= n <= |b.steps| :: r.states[|a.steps| + n] == b.states[n];
    forall k | 0 <= k < |r.steps| ensures Linked(r, k) {
      if k < |a.steps| {
        assert Linked(a, k);
      } else {
        assert Linked(b, k - |a.steps|);
        assert r.states[|a.steps| + (k - |a.steps|)] == b.states[k - |a.steps|];
        assert r.states[|a.steps| + (k + 1 - |a.steps|)] == b.states[k + 1 - |a.steps|];
      }
    }
  }

  lemma {:induction false} DescendsBefore(a: Run, b: Run, n: nat, token: Id, d: Id)
    requires |a.states| == |a.steps| + 1 && |b.states| == |b.steps| + 1 && n <= |a.steps| && Descends(a, n, token, d)
    ensures Descends(Joined(a, b), n, token, d)
    decreases n
  {
    if n > 0 {
      if Descends(a, n - 1, token, d) {
        DescendsBefore(a, b, n - 1, token, d);
      } else if d != token {
        DescendsBefore(a, b, n - 1, token, a.steps[n - 1].request.exchange.subjectToken);
      }
    }
  }

  /** What descends from a descendant descends from the token. */
  lemma {:induction false} DescendsAfter(a: Run, b: Run, n: nat, token: Id, d: Id, e: Id)
    requires |a.states| == |a.steps| + 1 && |b.states| == |b.steps| + 1 && n <= |b.steps|
    requires b.states[0] == a.states[|a.steps|] && Descends(a, |a.steps|, token, d) && Descends(b, n, d, e)
    ensures Descends(Joined(a, b), |a.steps| + n, token, e)
    decreases n
  {
    if n == 0 {
      DescendsBefore(a, b, |a.steps|, token, d);
    } else {
      var r := Joined(a, b);
      DescendsAfter(a, b, n - 1, token, d, d);
      assert r.states[|a.steps| + n - 1] == b.states[n - 1] && r.steps[|a.steps| + n - 1] == b.steps[n - 1];
      if Descends(b, n - 1, d, e) {
        DescendsAfter(a, b, n - 1, token, d, e);
      } else if e != d {
        DescendsAfter(a, b, n - 1, token, d, b.steps[n - 1].request.exchange.subjectToken);
      }
    }
  }

  /** As OpensThrough, by a token that was not signed before. */
  ghost predicate OpensNewly(run: Run, s: State, token: Id, write: bool)
    requires |run.states| == |run.steps| + 1
  {
    var n := |run.steps|;
    exists i :: |s.entered| <= i < |run.states[n].entered|
                && var e := run.states[n].entered[i]; e.write == write && e.token !in s.server.signed && Descends(run, n, token, e.token)
  }

  lemma JoinedOpens(a: Run, b: Run, s: State, token: Id, d: Id, write: bool)
    requires |a.states| == |a.steps| + 1 && |b.states| == |b.steps| + 1
    requires b.states[0] == a.states[|a.steps|] && Descends(a, |a.steps|, token, d)
    requires |s.entered| <= |b.states[0].entered| && Grows(s.server, b.states[0].server)
    requires Joined(a, b).states[|a.steps| + |b.steps|] == b.states[|b.steps|]
    requires OpensNewly(b, b.states[0], d, write)
    ensures OpensNewly(Joined(a, b), s, token, write)
  {
    var n := |b.steps|;
    var i :| |b.states[0].entered| <= i < |b.states[n].entered| && var e := b.states[n].entered[i];
             e.write == write && e.token !in b.states[0].server.signed && Descends(b, n, d, e.token);
    DescendsAfter(a, b, n, token, d, b.states[n].entered[i].token);
    OpensBy(Joined(a, b), s, token, write, i);
  }

  lemma OpensBy(run: Run, s: State, token: Id, write: bool, i: nat)
    requires |run.states| == |run.steps| + 1 && |s.entered| <= i < |run.states[|run.steps|].entered|
    requires var e := run.states[|run.steps|].entered[i];
             e.write == write && e.token !in s.server.signed && Descends(run, |run.steps|, token, e.token)
    ensures OpensNewly(run, s, token, write)
  {
  }

  // ---- The reach of a revocation ----

  lemma ScopesSomewhere(scope: Text, w: Text)
    requires w in NormalizeScopes(scope)
    ensures scope != []
  {
    NormalizedScopes(scope);
  }

  /** Exchange after exchange, a second apart, until `seconds` have gone by, and then a request. */
  lemma {:induction false} ChainOpens(s: State, token: Id, at: nat, write: bool, seconds: nat) returns (run: Run)
    requires Live(s.server, token, at) && Required(write) in NormalizeScopes(ScopeOf(s.server.signed[token]))
    ensures Continues(run, s, at) && OpensNewly(run, s, token, write)
    ensures |run.steps| > 0 && Timed(run.steps[|run.steps| - 1]) && run.steps[|run.steps| - 1].at == at + 1000 * seconds
    decreases seconds
  {
    ScopesSomewhere(ScopeOf(s.server.signed[token]), Required(write));
    var a, d := ExchangeToken(s, token, at);
    if seconds == 0 {
      run := ExchangedEnters(s, token, a, d, at, write);
    } else {
      var b := ChainOpens(a.states[3], d, at + 1000, write, seconds - 1);
      LaterSigned(a, s, at, token);
      JoinedContinues(a, b, s, at, at + 1000);
      JoinedOpens(a, b, s, token, d, write);
      run := Joined(a, b);
    }
  }

  lemma ExchangedEnters(s: State, token: Id, a: Run, d: Id, at: nat, write: bool) returns (run: Run)
    requires token in s.server.signed && ExchangesToken(a, s, token, d, at)
    requires Required(write) in NormalizeScopes(ScopeOf(s.server.signed[token]))
    ensures Continues(run, s, at) && OpensNewly(run, s, token, write)
    ensures |run.steps| > 0 && Timed(run.steps[|run.steps| - 1]) && run.steps[|run.steps| - 1].at == at
  {
    var b := EnterWith(a.states[3], d, at, write);
    JoinedContinues(a, b, s, at, at);
    DescendsAfter(a, b, 2, token, d, d);
    run := Joined(a, b);
    assert run.states[5].entered[|s.entered|].token == d;
  }

  lemma LaterSigned(a: Run, s: State, at: nat, token: Id)
    requires Continues(a, s, at) && token in s.server.signed && s.server.signed[token].audience == Api
    ensures Grows(s.server, a.states[|a.steps|].server)
  {
    DescendantsNarrow(a, s, at, |a.steps|, token, token);
  }

  /** Whether the token's row is revoked or not: from now on a request can come in through a token
      obtained from it exactly if it has not expired and carries the scope. Revocation takes nothing
      from what its holder can still reach; only the time until it expires counts. */
  lemma OpensExactlyUntilExpiry(s: State, token: Id, at: nat, write: bool)
    requires TokensKept(s) && token in s.server.signed && s.server.signed[token].audience == Api
    ensures (exists run :: Continues(run, s, at) && OpensThrough(run, token, write))
            <==> s.server.signed[token].expiresAt > Seconds(at) && Required(write) in NormalizeScopes(ScopeOf(s.server.signed[token]))
  {
    if run :| Continues(run, s, at) && OpensThrough(run, token, write) {
      OpeningNeedsLife(run, s, at, token, write);
    }
    if Live(s.server, token, at) && Required(write) in NormalizeScopes(ScopeOf(s.server.signed[token])) {
      var run := ChainOpens(s, token, at, write, 0);
      NewlyIsThrough(run, s, token, write);
    }
  }

  lemma NewlyIsThrough(run: Run, s: State, token: Id, write: bool)
    requires |run.states| == |run.steps| + 1 && run.states[0] == s && token in s.server.signed && OpensNewly(run, s, token, write)
    ensures OpensThrough(run, token, write)
  {
  }

  /** And however long from now: a chain of exchanges started in time has no end. */
  lemma ChainWithoutEnd(s: State, token: Id, at: nat, write: bool, seconds: nat)
    requires Live(s.server, token, at) && Required(write) in NormalizeScopes(ScopeOf(s.server.signed[token]))
    ensures exists run :: Continues(run, s, at) && OpensThrough(run, token, write)
                          && run.steps != [] && Timed(run.steps[|run.steps| - 1]) && run.steps[|run.steps| - 1].at == at + 1000 * seconds
  {
    var run := ChainOpens(s, token, at, write, seconds);
    NewlyIsThrough(run, s, token, write);
  }

  // ---- A run in which it happens ----

  function Tail(run: Run, j: nat): Run
    requires j <= |run.states| && j <= |run.steps|
  {
    Run(run.states[j..], run.steps[j..])
  }

  const VERIFIER: Text := [0x76]

  /** A client registers, the user consents to reading, and the client redeems the code. */
  lemma ReadingToken(client: Id, drawn: Drawn, drawn2: Drawn, at: nat) returns (run: Run)
    requires drawn2.code != drawn.code
    ensures |run.states| == 4 && |run.steps| == 3 && Continues(run, Nothing(), at)
    ensures forall k | 0 <= k < 3 && Timed(run.steps[k]) :: run.steps[k].at == at
    ensures var t := run.states[3]; Live(t.server, drawn2.token, at) && ScopeOf(t.server.signed[drawn2.token]) == READ_SCOPE
  {
    var s0 := Nothing();
    var s1 := Registers(s0, client);
    var consent := Consent(client, HOME, READ_SCOPE, DigestOf(VERIFIER));
    var s2 := s1.(server := Authorize(s1.server, consent, drawn, at), consented := map[drawn.code := CodeFor(consent, at)]);
    var q := CodeGrant(CodeRequest(drawn.code, HOME, VERIFIER));
    var s3 := s2.(server := Token(s2.server, client, [], q, drawn2, at).0,
                  redeemed := [Redemption(client, q.code, at)]);
    run := Run([s0, s1, s2, s3],
               [Registered(client, ANYONE), Authorized(consent, drawn, at), TokenAsked(client, [], q, drawn2, at)]);
    assert Linked(run, 0) && Linked(run, 1) && Linked(run, 2);
  }

  /** A client revokes a token of its own. */
  lemma RevokesOwn(s: State, token: Id, at: nat) returns (t: State, step: Step)
    requires Fresh(s.server, token, at)
    requires var c := s.server.signed[token]; c.client in s.server.clients && s.server.clients[c.client] == ANYONE
    ensures step.Revoked? && step.token == token && step.at == at && Next(s, step, t)
    ensures Live(t.server, token, at) && t.server.signed == s.server.signed
    ensures t.server.signed[token].jti in t.server.accesses && t.server.accesses[t.server.signed[token].jti].revokedAt.Some?
  {
    var c := s.server.signed[token];
    step := Revoked(c.client, [], token, Unverified(Some(c.client), Some(c.jti)), at);
    t := s.(server := Revoke(s.server, c.client, [], token, step.claimed, at));
  }

  /** Step j - 1 revokes the token, and then a request comes in through one obtained from it. */
  ghost predicate ReturnsAfterRevocation(run: Run, j: nat, token: Id) {
    && IsRun(run) && 0 < j <= |run.steps| && run.steps[j - 1].Revoked? && run.steps[j - 1].token == token
    && var s := run.states[j].server;
    && token in s.signed && s.signed[token].jti in s.accesses && s.accesses[s.signed[token].jti].revokedAt.Some?
    && OpensThrough(Tail(run, j), token, false)
  }

  lemma WordAlone(w: Text)
    requires Word(w)
    ensures w in NormalizeScopes(w)
  {
    WordThenSpace([], w, []);
    assert [] + w == w;
    NormalizedScopes(w);
    assert w in Words(w);
  }

  lemma ReadScopeIsWord(scope: Text)
    requires scope == READ_SCOPE
    ensures Word(scope)
  {
  }

  function Nothing(): State { State(Empty(), map[], [], map[], []) }

  /** A run up to the moment at which a client holds an access token for reading. */
  lemma HoldingRun(client: Id, drawn: Drawn, drawn2: Drawn, at: nat) returns (run: Run, token: Id)
    requires drawn2.code != drawn.code
    ensures |run.states| == 7 && |run.steps| == 6 && Continues(run, Nothing(), at)
    ensures forall k | 0 <= k < 6 && Timed(run.steps[k]) :: run.steps[k].at <= at
    ensures var s := run.states[6].server;
            && Fresh(s, token, at) && READ_SCOPE in NormalizeScopes(ScopeOf(s.signed[token]))
            && s.signed[token].client in s.clients && s.clients[s.signed[token].client] == ANYONE
  {
    var first := ReadingToken(client, drawn, drawn2, at);
    var scope := ScopeOf(first.states[3].server.signed[drawn2.token]);
    ReadScopeIsWord(scope);
    WordAlone(scope);
    var second, d := ExchangeToken(first.states[3], drawn2.token, at);
    JoinedContinues(first, second, first.states[0], at, at);
    run, token := Joined(first, second), d;
  }

  /** And then revokes it. */
  lemma RevokedRun(client: Id, drawn: Drawn, drawn2: Drawn, at: nat) returns (run: Run, token: Id)
    requires drawn2.code != drawn.code
    ensures |run.states| == 8 && |run.steps| == 7 && Continues(run, Nothing(), at)
    ensures forall k | 0 <= k < 7 && Timed(run.steps[k]) :: run.steps[k].at <= at
    ensures run.steps[6].Revoked? && run.steps[6].token == token
    ensures var s := run.states[7].server;
            && Live(s, token, at) && READ_SCOPE in NormalizeScopes(ScopeOf(s.signed[token]))
            && s.signed[token].jti in s.accesses && s.accesses[s.signed[token].jti].revokedAt.Some?
  {
    var held, d := HoldingRun(client, drawn, drawn2, at);
    var t, step := RevokesOwn(held.states[6], d, at);
    var third := Run([held.states[6], t], [step]);
    assert Linked(third, 0);
    JoinedContinues(held, third, Nothing(), at, at);
    run, token := Joined(held, third), d;
  }

  /** There is a run, from the empty server on, in which a client revokes an access token, and after
      that a request comes in through a token obtained in exchange for it. */
  lemma RevokedTokenReturns(client: Id, drawn: Drawn, drawn2: Drawn, at: nat)
    requires drawn2.code != drawn.code
    ensures exists run, j, token :: ReturnsAfterRevocation(run, j, token)
  {
    var revoked, token := RevokedRun(client, drawn, drawn2, at);
    var t := revoked.states[7];
    var last := ChainOpens(t, token, at, false, 0);
    NewlyIsThrough(last, t, token, false);
    JoinedContinues(revoked, last, revoked.states[0], at, at);
    var run := Joined(revoked, last);
    assert Tail(run, 7) == last;
    assert ReturnsAfterRevocation(run, 7, token);
  }

  // ---- Whose tokens a client can revoke ----

  /** Some request of this client to the revocation endpoint revokes the access credential. */
  ghost predicate CanRevokeAccess(s: Server, client: Id, secret: Text, jti: Id, at: nat) {
    exists token, claimed :: Readable(s, token, claimed) && jti in Revoke(s, client, secret, token, claimed, at).accesses
                             && !Unrevoked(Revoke(s, client, secret, token, claimed, at), jti)
  }

  ghost predicate CanRevokeRefresh(s: Server, client: Id, secret: Text, refresh: Id, at: nat) {
    exists token, claimed :: Readable(s, token, claimed) && refresh in Revoke(s, client, secret, token, claimed, at).refreshes
                             && Revoke(s, client, secret, token, claimed, at).refreshes[refresh].revokedAt.Some?
  }

  /** Section 2.1 of RFC 7009 lets a client revoke the tokens issued to it. For refresh credentials that
      is what the server does. But it reads the claims of an access token without verifying them, so
      by a text that names itself and a credential's identifier any client can revoke the access
      credential of any other. */
  lemma RevocableExactly(s: Server, client: Id, secret: Text, jti: Id, refresh: Id, at: nat)
    ensures Unrevoked(s, jti) ==> (CanRevokeAccess(s, client, secret, jti, at) <==> Authenticated(s, client, secret))
    ensures refresh in s.refreshes && s.refreshes[refresh].revokedAt.None? && refresh !in s.signed ==>
              (CanRevokeRefresh(s, client, secret, refresh, at)
               <==> Authenticated(s, client, secret) && s.refreshes[refresh].client == client)
  {
    var n := LongerThanAll(s.signed.Keys);
    var text, claimed := Name(n), Unverified(Some(client), Some(jti));
    assert Readable(s, text, claimed);
    if Authenticated(s, client, secret) && Unrevoked(s, jti) {
      assert !Unrevoked(Revoke(s, client, secret, text, claimed, at), jti);
    }
    if Authenticated(s, client, secret) && refresh in s.refreshes && refresh !in s.signed && s.refreshes[refresh].client == client {
      var opaqueText := Unverified(None, None);
      assert Readable(s, refresh, opaqueText);
      assert Revoke(s, client, secret, refresh, opaqueText, at).refreshes[refresh].revokedAt.Some?;
    }
  }

  /** The row of a token belongs to the client that the token was issued to. */
  ghost predicate RowsOwned(s: Server) {
    forall t | t in s.signed && s.signed[t].jti in s.accesses :: s.accesses[s.signed[t].jti].client == s.signed[t].client
  }

  lemma TokenRowsOwned(s: State, client: Id, secret: Text, q: TokenRequest, drawn: Drawn, at: nat)
    requires RowsOwned(s.server) && NeverDrawn(s, drawn)
    ensures RowsOwned(Token(s.server, client, secret, q, drawn, at).0)
  {
  }

  lemma {:induction false} RowsAreOwned(run: Run, k: nat)
    requires IsRun(run) && k < |run.states|
    ensures RowsOwned(run.states[k].server)
  {
    if k > 0 {
      RowsAreOwned(run, k - 1);
      assert Linked(run, k - 1);
      var s, step := run.states[k - 1], run.steps[k - 1];
      if step.TokenAsked? { TokenRowsOwned(s, step.client, step.secret, step.request, step.drawn, step.at); }
    }
  }

  /** With a token that the server signed, a client revokes that token, and only its own. */
  lemma SignedRevokesOwn(run: Run, k: nat, client: Id, secret: Text, token: Id, claimed: Unverified, jti: Id, at: nat)
    requires IsRun(run) && k < |run.states| && token in run.states[k].server.signed && Readable(run.states[k].server, token, claimed)
    requires Unrevoked(run.states[k].server, jti)
    ensures var s := run.states[k].server;
            var t := Revoke(s, client, secret, token, claimed, at);
            && jti in t.accesses
            && (!Unrevoked(t, jti) <==> Authenticated(s, client, secret) && s.signed[token].jti == jti && s.accesses[jti].client == client)
  {
    RowsAreOwned(run, k);
  }
}
