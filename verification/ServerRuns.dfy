/** What holds in every run of the example OAuth server. */
module ServerRuns {
  import opened Options
  import opened Texts
  import opened ScopeTexts
  import opened ResourceServers

  /** A code that was exchanged, by whom and when. */
  datatype Redemption = Redemption(client: Id, request: CodeRequest, at: nat)

  /** A request let through to the projects, and when its token's row was read. */
  datatype Entry = Entry(token: Id, proof: Presented, write: bool)

  /** The server together with a record of what has happened. `waiting` holds the tokens of API
      requests whose row has been read and whose proof is still being examined. */
  datatype State = State(
    server: Server,
    consented: map<Id, Code>,
    redeemed: seq<Redemption>,
    waiting: map<nat, Id>,
    entered: seq<Entry>)

  datatype Step =
    | Registered(id: Id, profile: Client)
    | Authorized(consent: Consent, drawn: Drawn, at: nat)
    | TokenAsked(client: Id, secret: Text, request: TokenRequest, drawn: Drawn, at: nat)
    | Revoked(client: Id, secret: Text, token: Id, claimed: Unverified, at: nat)
    | AccessBegun(w: nat, token: Id, at: nat)
    | AccessFinished(w: nat, proof: Presented, write: bool, at: nat)

  /** Randomly drawn identifiers have never been used. */
  ghost predicate NeverDrawn(s: State, d: Drawn) {
    && d.code !in s.consented && d.code !in s.server.codes
    && d.refresh !in s.server.refreshes
    && d.token !in s.server.signed
    && d.jti !in s.server.accesses
    && forall t | t in s.server.signed :: s.server.signed[t].jti != d.jti
  }

  predicate Redeems(s: State, step: Step) {
    step.TokenAsked? && step.request.CodeGrant? && Authenticated(s.server, step.client, step.secret)
    && CodeAccepted(s.server, step.client, step.request.code, step.at)
  }

  ghost predicate Next(s: State, step: Step, t: State) {
    match step
    case Registered(id, profile) =>
      id !in s.server.clients && t == s.(server := Register(s.server, id, profile))
    case Authorized(q, drawn, at) =>
      && NeverDrawn(s, drawn)
      && t == s.(server := Authorize(s.server, q, drawn, at),
                 consented := if MayAuthorize(s.server, q) then s.consented[drawn.code := CodeFor(q, at)] else s.consented)
    case TokenAsked(client, secret, q, drawn, at) =>
      && NeverDrawn(s, drawn)
      && t == s.(server := Token(s.server, client, secret, q, drawn, at).0,
                 redeemed := if Redeems(s, step) then s.redeemed + [Redemption(client, q.code, at)] else s.redeemed)
    case Revoked(client, secret, token, claimed, at) =>
      && Readable(s.server, token, claimed)
      && t == s.(server := Revoke(s.server, client, secret, token, claimed, at))
    case AccessBegun(w, token, at) =>
      && w !in s.waiting && AccessBegins(s.server, token, at)
      && t == s.(waiting := s.waiting[w := token])
    case AccessFinished(w, p, write, at) =>
      && w in s.waiting && s.waiting[w] in s.server.signed
      && var token := s.waiting[w];
      t == s.(server := ProofUsed(s.server, p, at), waiting := s.waiting - {w},
              entered := if AccessGranted(s.server, token, p, write, at) then s.entered + [Entry(token, p, write)] else s.entered)
  }

  // ---- Codes ----

  predicate Fits(row: Code, r: Redemption) {
    && row.client == r.client && row.redirectUri == r.request.redirectUri
    && row.challenge == DigestOf(r.request.verifier) && r.at < row.expiresAt
  }

  /** A code is spendable only as it was consented to. A code that was redeemed was redeemed once,
      by its own client, with the matching redirect URI and verifier, in time, and is gone. */
  ghost predicate CodesSpentOnce(s: State) {
    && (forall c | c in s.server.codes :: c in s.consented && s.server.codes[c] == s.consented[c])
    && (forall i | 0 <= i < |s.redeemed| ::
          var r := s.redeemed[i];
          r.request.code in s.consented && Fits(s.consented[r.request.code], r) && r.request.code !in s.server.codes)
    && (forall i, j | 0 <= i < j < |s.redeemed| :: s.redeemed[i].request.code != s.redeemed[j].request.code)
  }

  lemma TokenCodes(s: Server, client: Id, secret: Text, q: TokenRequest, drawn: Drawn, at: nat)
    ensures var t := Token(s, client, secret, q, drawn, at).0;
            t.codes == if q.CodeGrant? && Authenticated(s, client, secret) && CodeAccepted(s, client, q.code, at)
                       then s.codes - {q.code.code} else s.codes
  {
  }

  lemma StepSpendsOnce(s: State, step: Step, t: State)
    requires Next(s, step, t) && CodesSpentOnce(s)
    ensures CodesSpentOnce(t)
  {
    if step.TokenAsked? {
      TokenStepSpends(s, step, t);
    } else if step.Authorized? {
      AuthorizedStepSpends(s, step, t);
    } else {
      OtherStepsSpendNothing(s, step, t);
    }
  }

  lemma TokenStepSpends(s: State, step: Step, t: State)
    requires Next(s, step, t) && step.TokenAsked? && CodesSpentOnce(s)
    ensures CodesSpentOnce(t)
  {
    TokenCodes(s.server, step.client, step.secret, step.request, step.drawn, step.at);
  }

  lemma AuthorizedStepSpends(s: State, step: Step, t: State)
    requires Next(s, step, t) && step.Authorized? && CodesSpentOnce(s)
    ensures CodesSpentOnce(t)
  {
  }

  lemma OtherStepsSpendNothing(s: State, step: Step, t: State)
    requires Next(s, step, t) && !step.TokenAsked? && !step.Authorized?
    ensures t.server.codes == s.server.codes && t.consented == s.consented && t.redeemed == s.redeemed
  {
  }

  // ---- Scopes ----

  /** The subject consented to every scope in `scope` at once, in some authorization. */
  ghost predicate Consented(consented: map<Id, Code>, subject: Text, scope: Text) {
    exists c :: c in consented && consented[c].subject == subject && Within(Words(scope), Words(consented[c].scope))
  }

  ghost predicate ScopesConsented(s: State) {
    && (forall c | c in s.server.codes :: Consented(s.consented, s.server.codes[c].subject, s.server.codes[c].scope))
    && (forall r | r in s.server.refreshes ::
          Consented(s.consented, s.server.refreshes[r].subject, s.server.refreshes[r].scope))
    && (forall t | t in s.server.signed && s.server.signed[t].audience == Api ::
          s.server.signed[t].scope.Some? && Consented(s.consented, s.server.signed[t].subject, s.server.signed[t].scope.value))
  }

  lemma ConsentedMore(a: map<Id, Code>, b: map<Id, Code>, subject: Text, scope: Text)
    requires Consented(a, subject, scope) && forall c | c in a :: c in b && b[c] == a[c]
    ensures Consented(b, subject, scope)
  {
    var c :| c in a && a[c].subject == subject && Within(Words(scope), Words(a[c].scope));
    assert c in b;
  }

  lemma ExchangeNarrows(consented: map<Id, Code>, subject: Text, held: Text, asked: Text)
    requires Consented(consented, subject, held) && Within(NormalizeScopes(asked), NormalizeScopes(held))
    ensures Consented(consented, subject, Join(NormalizeScopes(asked)))
  {
    NormalizedRoundTrip(asked);
    NormalizedScopes(held);
    var c :| c in consented && consented[c].subject == subject && Within(Words(held), Words(consented[c].scope));
  }

  /** The one token, if any, that a token request signs. */
  lemma TokenSigns(s: Server, client: Id, secret: Text, q: TokenRequest, drawn: Drawn, at: nat)
    ensures var (t, token) := Token(s, client, secret, q, drawn, at);
            && (token.None? ==> t.signed == s.signed)
            && (token.Some? ==> token.value == drawn.token && drawn.token in t.signed
                                && t.signed == s.signed[drawn.token := t.signed[drawn.token]]
                                && t.signed[drawn.token].jti == drawn.jti)
            && t.clients == s.clients
  {
  }

  lemma TokenKeepsConsent(s: State, client: Id, secret: Text, q: TokenRequest, drawn: Drawn, at: nat)
    requires ScopesConsented(s)
    ensures ScopesConsented(s.(server := Token(s.server, client, secret, q, drawn, at).0))
  {
    if Authenticated(s.server, client, secret) {
      if q.CodeGrant? {
        CodeKeepsConsent(s, client, q.code, drawn, at);
      } else if q.Exchange? {
        ExchangeKeepsConsent(s, client, q.exchange, drawn, at);
      }
    }
  }

  lemma CodeKeepsConsent(s: State, client: Id, q: CodeRequest, drawn: Drawn, at: nat)
    requires ScopesConsented(s)
    ensures ScopesConsented(s.(server := AuthorizationCodeGrant(s.server, client, q, drawn, at).0))
  {
  }

  lemma ExchangeKeepsConsent(s: State, client: Id, q: ExchangeRequest, drawn: Drawn, at: nat)
    requires ScopesConsented(s)
    ensures ScopesConsented(s.(server := TokenExchangeGrant(s.server, client, q, drawn, at).0))
  {
    if ExchangeAccepted(s.server, client, q, at) {
      var subject := s.server.signed[q.subjectToken];
      ExchangeNarrows(s.consented, subject.subject, ScopeOf(subject), q.scope);
    }
  }

  lemma SelfConsented(consented: map<Id, Code>, c: Id)
    requires c in consented
    ensures Consented(consented, consented[c].subject, consented[c].scope)
  {
  }

  lemma AuthorizeKeepsConsent(s: State, q: Consent, drawn: Drawn, at: nat, t: State)
    requires ScopesConsented(s) && Next(s, Authorized(q, drawn, at), t)
    ensures ScopesConsented(t)
  {
    forall subject, scope | Consented(s.consented, subject, scope) ensures Consented(t.consented, subject, scope) {
      ConsentedMore(s.consented, t.consented, subject, scope);
    }
    if MayAuthorize(s.server, q) { SelfConsented(t.consented, drawn.code); }
  }

  lemma StepKeepsConsent(s: State, step: Step, t: State)
    requires Next(s, step, t) && ScopesConsented(s)
    ensures ScopesConsented(t)
  {
    match step
    case TokenAsked(client, secret, q, drawn, at) => TokenKeepsConsent(s, client, secret, q, drawn, at);
    case Authorized(q, drawn, at) => AuthorizeKeepsConsent(s, q, drawn, at, t);
    case Revoked(client, secret, token, claimed, at) => RevokeKeepsConsent(s, client, secret, token, claimed, at);
    case _ =>
  }

  lemma RevokeKeepsConsent(s: State, client: Id, secret: Text, token: Id, claimed: Unverified, at: nat)
    requires ScopesConsented(s)
    ensures ScopesConsented(s.(server := Revoke(s.server, client, secret, token, claimed, at)))
  {
  }

  // ---- Where credentials come from ----

  /** The client redeemed a code that carries just this subject and scope. */
  ghost predicate FromRedemption(s: State, client: Id, subject: Text, scope: Text) {
    exists i :: 0 <= i < |s.redeemed| && s.redeemed[i].client == client
                && s.redeemed[i].request.code in s.consented
                && var code := s.consented[s.redeemed[i].request.code]; code.subject == subject && code.scope == scope
  }

  /** Codes go only to registered redirect URIs, and refresh credentials and subject tokens only to
      clients that redeemed a code for them. */
  ghost predicate CredentialsEarned(s: State) {
    && (forall c | c in s.consented ::
          && s.consented[c].client in s.server.clients
          && s.consented[c].redirectUri in s.server.clients[s.consented[c].client].redirectUris)
    && (forall r | r in s.server.refreshes ::
          var row := s.server.refreshes[r]; FromRedemption(s, row.client, row.subject, row.scope))
    && (forall t | t in s.server.signed && SubjectOnly(s.server.signed[t]) ::
          var c := s.server.signed[t]; FromRedemption(s, c.client, c.subject, c.scope.value))
  }

  lemma RedemptionLater(s: State, t: State, client: Id, subject: Text, scope: Text)
    requires FromRedemption(s, client, subject, scope)
    requires |s.redeemed| <= |t.redeemed| && forall i | 0 <= i < |s.redeemed| :: t.redeemed[i] == s.redeemed[i]
    requires forall c | c in s.consented :: c in t.consented && t.consented[c] == s.consented[c]
    ensures FromRedemption(t, client, subject, scope)
  {
    var i :| 0 <= i < |s.redeemed| && s.redeemed[i].client == client && s.redeemed[i].request.code in s.consented
             && var code := s.consented[s.redeemed[i].request.code]; code.subject == subject && code.scope == scope;
    assert t.redeemed[i] == s.redeemed[i];
  }

  /** What the step leaves as it was, and what it may add, as far as the origin of credentials goes. */
  ghost predicate AddsEarned(s: State, t: State) {
    && (forall r | r in t.server.refreshes ::
          var row := t.server.refreshes[r];
          || FromRedemption(t, row.client, row.subject, row.scope)
          || (r in s.server.refreshes && s.server.refreshes[r] == row.(revokedAt := s.server.refreshes[r].revokedAt)))
    && (forall k | k in t.server.signed && SubjectOnly(t.server.signed[k]) ::
          var c := t.server.signed[k];
          FromRedemption(t, c.client, c.subject, c.scope.value) || (k in s.server.signed && s.server.signed[k] == c))
  }

  lemma RecordsKept(s: State, step: Step, t: State)
    requires Next(s, step, t)
    ensures |s.redeemed| <= |t.redeemed| && forall i | 0 <= i < |s.redeemed| :: t.redeemed[i] == s.redeemed[i]
    ensures forall c | c in s.consented :: c in t.consented && t.consented[c] == s.consented[c]
  {
  }

  lemma RedeemEarns(s: State, step: Step, t: State)
    requires Next(s, step, t) && step.TokenAsked? && step.request.CodeGrant? && CodesSpentOnce(s)
    ensures AddsEarned(s, t)
  {
    if Redeems(s, step) {
      var row := s.server.codes[step.request.code.code];
      assert t.redeemed[|s.redeemed|] == Redemption(step.client, step.request.code, step.at);
      assert FromRedemption(t, step.client, row.subject, row.scope);
    }
  }

  lemma RefreshEarns(s: State, step: Step, t: State)
    requires Next(s, step, t) && step.TokenAsked? && step.request.Refresh? && CredentialsEarned(s)
    ensures AddsEarned(s, t)
  {
    if Authenticated(s.server, step.client, step.secret) && RefreshAccepted(s.server, step.client, step.request.refreshToken) {
      var row := s.server.refreshes[step.request.refreshToken];
      RedemptionLater(s, t, row.client, row.subject, row.scope);
    }
  }

  lemma OtherTokensEarn(s: State, step: Step, t: State)
    requires Next(s, step, t) && step.TokenAsked? && !step.request.CodeGrant? && !step.request.Refresh?
    ensures AddsEarned(s, t)
  {
    TokenSigns(s.server, step.client, step.secret, step.request, step.drawn, step.at);
    TokenKinds(s.server, step.client, step.secret, step.request, step.drawn, step.at);
    OthersMakeNoRefresh(s.server, step.client, step.secret, step.request, step.drawn, step.at);
    NotUnsupported(s.server, step.client, step.secret, step.request, step.drawn, step.at);
    NoSubjectToken(s, t, step.drawn.token);
  }

  lemma OthersMakeNoRefresh(s: Server, client: Id, secret: Text, q: TokenRequest, drawn: Drawn, at: nat)
    requires !q.CodeGrant?
    ensures Token(s, client, secret, q, drawn, at).0.refreshes == s.refreshes
  {
  }

  lemma NoSubjectToken(s: State, t: State, token: Id)
    requires t.server.refreshes == s.server.refreshes
    requires t.server.signed == s.server.signed
             || (token in t.server.signed && !SubjectOnly(t.server.signed[token])
                 && t.server.signed == s.server.signed[token := t.server.signed[token]])
    ensures AddsEarned(s, t)
  {
  }

  lemma OtherStepsEarn(s: State, step: Step, t: State)
    requires Next(s, step, t) && !step.TokenAsked?
    ensures AddsEarned(s, t)
  {
    if step.Revoked? {
      RevokeAddsNothing(s.server, step.client, step.secret, step.token, step.claimed, step.at);
    } else {
      OthersGrow(s, step, t);
      OthersAddNothing(s, step, t);
    }
  }

  lemma RevokeAddsNothing(s: Server, client: Id, secret: Text, token: Id, claimed: Unverified, at: nat)
    ensures var t := Revoke(s, client, secret, token, claimed, at);
            && t.signed == s.signed && t.refreshes.Keys == s.refreshes.Keys
            && forall r | r in s.refreshes :: r in t.refreshes && s.refreshes[r] == t.refreshes[r].(revokedAt := s.refreshes[r].revokedAt)
  {
  }

  lemma OthersAddNothing(s: State, step: Step, t: State)
    requires Next(s, step, t) && !step.TokenAsked? && !step.Revoked?
    ensures t.server.signed == s.server.signed && t.server.refreshes == s.server.refreshes
  {
  }

  lemma ClientsKept(s: State, step: Step, t: State)
    requires Next(s, step, t)
    ensures forall c | c in s.server.clients :: c in t.server.clients && t.server.clients[c] == s.server.clients[c]
    ensures forall c | c in t.consented && c !in s.consented ::
              t.consented[c].client in s.server.clients && t.consented[c].redirectUri in s.server.clients[t.consented[c].client].redirectUris
  {
    if step.TokenAsked? { TokenSigns(s.server, step.client, step.secret, step.request, step.drawn, step.at); }
  }

  lemma StepEarns(s: State, step: Step, t: State)
    requires Next(s, step, t) && CodesSpentOnce(s) && CredentialsEarned(s)
    ensures CredentialsEarned(t)
  {
    RecordsKept(s, step, t);
    ClientsKept(s, step, t);
    if !step.TokenAsked? {
      OtherStepsEarn(s, step, t);
    } else if step.request.CodeGrant? {
      RedeemEarns(s, step, t);
    } else if step.request.Refresh? {
      RefreshEarns(s, step, t);
    } else {
      OtherTokensEarn(s, step, t);
    }
    EarnedOn(s, t);
  }

  lemma EarnedOn(s: State, t: State)
    requires CredentialsEarned(s) && AddsEarned(s, t)
    requires |s.redeemed| <= |t.redeemed| && forall i | 0 <= i < |s.redeemed| :: t.redeemed[i] == s.redeemed[i]
    requires forall c | c in s.consented :: c in t.consented && t.consented[c] == s.consented[c]
    requires forall c | c in s.server.clients :: c in t.server.clients && t.server.clients[c] == s.server.clients[c]
    requires forall c | c in t.consented && c !in s.consented ::
               t.consented[c].client in s.server.clients && t.consented[c].redirectUri in s.server.clients[t.consented[c].client].redirectUris
    ensures CredentialsEarned(t)
  {
    forall client, subject, scope | FromRedemption(s, client, subject, scope) ensures FromRedemption(t, client, subject, scope) {
      RedemptionLater(s, t, client, subject, scope);
    }
  }

  // ---- Kinds of tokens ----

  /** Made by the token exchange, bound to a key and naming the Agent that acts. */
  predicate Exchanged(c: Claims) {
    c.audience == Api && c.scope.Some? && c.act.Some? && c.jkt.Some? && c.agentIssuer.None?
  }

  predicate SubjectOnly(c: Claims) {
    c.audience == Api && c.scope.Some? && c.act.None? && c.jkt.None? && c.agentIssuer.None?
  }

  predicate ActorOnly(c: Claims) {
    c.audience == Issuer && c.scope.None? && c.act.None? && c.jkt.None? && c.agentIssuer.Some?
  }

  /** Only exchanged tokens have a row, so only they open the API; a waiting request's token has one. */
  ghost predicate TokensKept(s: State) {
    && (forall t | t in s.server.signed ::
          Exchanged(s.server.signed[t]) || SubjectOnly(s.server.signed[t]) || ActorOnly(s.server.signed[t]))
    && (forall t | t in s.server.signed :: Exchanged(s.server.signed[t]) <==> s.server.signed[t].jti in s.server.accesses)
    && (forall w | w in s.waiting :: s.waiting[w] in s.server.signed && s.server.signed[s.waiting[w]].jti in s.server.accesses)
    && (forall i | 0 <= i < |s.entered| :: LetIn(s.server, s.entered[i]))
  }

  /** What holds of every request that reached the projects. */
  predicate LetIn(s: Server, e: Entry) {
    && e.token in s.signed
    && var c := s.signed[e.token];
    && Exchanged(c) && c.jti in s.accesses && c.jkt == Some(e.proof.proof.jkt)
    && e.proof.target && e.proof.ath == Some(e.token)
    && (if e.write then WRITE_SCOPE else READ_SCOPE) in Words(c.scope.value)
  }

  /** Signed tokens stay as they are, and rows stay. */
  ghost predicate Grows(a: Server, b: Server) {
    && (forall t | t in a.signed :: t in b.signed && b.signed[t] == a.signed[t])
    && (forall j | j in a.accesses :: j in b.accesses && (a.accesses[j].revokedAt.Some? ==> b.accesses[j].revokedAt.Some?))
    && (forall r | r in a.refreshes ::
          r in b.refreshes && b.refreshes[r] == a.refreshes[r].(revokedAt := b.refreshes[r].revokedAt)
          && (a.refreshes[r].revokedAt.Some? ==> b.refreshes[r].revokedAt.Some?))
  }

  lemma GrowsTransitive(a: Server, b: Server, c: Server)
    requires Grows(a, b) && Grows(b, c)
    ensures Grows(a, c)
  {
  }

  lemma StepGrows(s: State, step: Step, t: State)
    requires Next(s, step, t)
    ensures Grows(s.server, t.server)
  {
    if step.TokenAsked? {
      TokenGrows(s.server, step.client, step.secret, step.request, step.drawn, step.at);
    } else if step.Revoked? {
      RevokeGrows(s.server, step.client, step.secret, step.token, step.claimed, step.at);
    } else {
      OthersGrow(s, step, t);
    }
  }

  lemma RevokeGrows(s: Server, client: Id, secret: Text, token: Id, claimed: Unverified, at: nat)
    ensures Grows(s, Revoke(s, client, secret, token, claimed, at))
  {
  }

  lemma OthersGrow(s: State, step: Step, t: State)
    requires Next(s, step, t) && !step.TokenAsked? && !step.Revoked?
    ensures Grows(s.server, t.server)
  {
    assert t.server.signed == s.server.signed && t.server.accesses == s.server.accesses && t.server.refreshes == s.server.refreshes;
  }

  lemma TokenGrows(s: Server, client: Id, secret: Text, q: TokenRequest, drawn: Drawn, at: nat)
    requires drawn.token !in s.signed && drawn.jti !in s.accesses && drawn.refresh !in s.refreshes
    ensures Grows(s, Token(s, client, secret, q, drawn, at).0)
  {
    if Authenticated(s, client, secret) {
      if q.CodeGrant? {
        CodeGrows(s, client, q.code, drawn, at);
      } else if q.Exchange? {
        ExchangeGrows(s, client, q.exchange, drawn, at);
      }
    }
  }

  lemma CodeGrows(s: Server, client: Id, q: CodeRequest, drawn: Drawn, at: nat)
    requires drawn.token !in s.signed && drawn.refresh !in s.refreshes
    ensures Grows(s, AuthorizationCodeGrant(s, client, q, drawn, at).0)
  {
  }

  lemma ExchangeGrows(s: Server, client: Id, q: ExchangeRequest, drawn: Drawn, at: nat)
    requires drawn.token !in s.signed && drawn.jti !in s.accesses
    ensures Grows(s, TokenExchangeGrant(s, client, q, drawn, at).0)
  {
    ExchangeAdds(s, client, q, drawn, at);
  }

  lemma ExchangeAdds(s: Server, client: Id, q: ExchangeRequest, drawn: Drawn, at: nat)
    ensures var t := TokenExchangeGrant(s, client, q, drawn, at).0;
            && t.refreshes == s.refreshes
            && (t.signed == s.signed || (drawn.token in t.signed && t.signed == s.signed[drawn.token := t.signed[drawn.token]]))
            && (t.accesses == s.accesses || (drawn.jti in t.accesses && t.accesses == s.accesses[drawn.jti := t.accesses[drawn.jti]]))
  {
  }

  lemma TokenKinds(s: Server, client: Id, secret: Text, q: TokenRequest, drawn: Drawn, at: nat)
    ensures var (t, token) := Token(s, client, secret, q, drawn, at);
            && (token.Some? ==> drawn.token in t.signed
                                && match q
                                   case CodeGrant(_) => SubjectOnly(t.signed[drawn.token])
                                   case Refresh(_) => SubjectOnly(t.signed[drawn.token])
                                   case JwtBearer(_) => ActorOnly(t.signed[drawn.token])
                                   case Exchange(_) => Exchanged(t.signed[drawn.token])
                                   case Unsupported => true)
            && t.accesses.Keys == if token.Some? && q.Exchange? then s.accesses.Keys + {drawn.jti} else s.accesses.Keys
  {
  }

  /** Adding one token to the signed ones keeps what is said of kinds. */
  lemma KindsWithToken(a: Server, b: Server, token: Id, jti: Id, exchanged: bool)
    requires forall t | t in a.signed ::
      Exchanged(a.signed[t]) || SubjectOnly(a.signed[t]) || ActorOnly(a.signed[t])
    requires forall t | t in a.signed :: Exchanged(a.signed[t]) <==> a.signed[t].jti in a.accesses
    requires forall t | t in a.signed :: a.signed[t].jti != jti
    requires jti !in a.accesses && token !in a.signed && token in b.signed && b.signed[token].jti == jti
    requires b.signed == a.signed[token := b.signed[token]]
    requires b.accesses.Keys == if exchanged then a.accesses.Keys + {jti} else a.accesses.Keys
    requires if exchanged then Exchanged(b.signed[token]) else SubjectOnly(b.signed[token]) || ActorOnly(b.signed[token])
    ensures forall t | t in b.signed ::
      Exchanged(b.signed[t]) || SubjectOnly(b.signed[t]) || ActorOnly(b.signed[t])
    ensures forall t | t in b.signed :: Exchanged(b.signed[t]) <==> b.signed[t].jti in b.accesses
  {
    forall t | t in b.signed ensures Exchanged(b.signed[t]) <==> b.signed[t].jti in b.accesses {
      assert b.signed[t].jti in b.accesses <==> b.signed[t].jti in b.accesses.Keys;
      assert t != token ==> (a.signed[t].jti in a.accesses <==> a.signed[t].jti in a.accesses.Keys);
    }
  }

  lemma LetInLater(a: Server, b: Server, e: Entry)
    requires LetIn(a, e) && Grows(a, b)
    ensures LetIn(b, e)
  {
  }

  lemma OthersLater(s: State, t: State)
    requires TokensKept(s) && Grows(s.server, t.server) && t.waiting == s.waiting && t.entered == s.entered
    ensures forall w | w in t.waiting :: t.waiting[w] in t.server.signed && t.server.signed[t.waiting[w]].jti in t.server.accesses
    ensures forall i | 0 <= i < |t.entered| :: LetIn(t.server, t.entered[i])
  {
    forall i | 0 <= i < |t.entered| ensures LetIn(t.server, t.entered[i]) {
      LetInLater(s.server, t.server, s.entered[i]);
    }
  }

  lemma TokenStepKept(s: State, step: Step, t: State)
    requires Next(s, step, t) && step.TokenAsked? && TokensKept(s)
    ensures TokensKept(t)
  {
    var q, drawn := step.request, step.drawn;
    StepGrows(s, step, t);
    OthersLater(s, t);
    TokenSigns(s.server, step.client, step.secret, q, drawn, step.at);
    TokenKinds(s.server, step.client, step.secret, q, drawn, step.at);
    var token := Token(s.server, step.client, step.secret, q, drawn, step.at).1;
    if token.Some? {
      NotUnsupported(s.server, step.client, step.secret, q, drawn, step.at);
      KindsWithToken(s.server, t.server, drawn.token, drawn.jti, q.Exchange?);
    } else {
      SameKinds(s.server, t.server);
    }
  }

  lemma NotUnsupported(s: Server, client: Id, secret: Text, q: TokenRequest, drawn: Drawn, at: nat)
    ensures Token(s, client, secret, q, drawn, at).1.Some? ==> !q.Unsupported?
  {
  }

  lemma SameKinds(a: Server, b: Server)
    requires a.signed == b.signed && a.accesses.Keys == b.accesses.Keys
    requires forall t | t in a.signed :: Exchanged(a.signed[t]) <==> a.signed[t].jti in a.accesses
    ensures forall t | t in b.signed :: Exchanged(b.signed[t]) <==> b.signed[t].jti in b.accesses
  {
    forall t | t in b.signed ensures Exchanged(b.signed[t]) <==> b.signed[t].jti in b.accesses {
      assert b.signed[t].jti in b.accesses <==> b.signed[t].jti in b.accesses.Keys;
      assert a.signed[t].jti in a.accesses <==> a.signed[t].jti in a.accesses.Keys;
    }
  }

  lemma FinishStepKept(s: State, step: Step, t: State)
    requires Next(s, step, t) && step.AccessFinished? && TokensKept(s)
    ensures TokensKept(t)
  {
    var token, p := s.waiting[step.w], step.proof;
    assert Grows(s.server, t.server);
    forall i | 0 <= i < |t.entered| ensures LetIn(t.server, t.entered[i]) {
      if i < |s.entered| {
        LetInLater(s.server, t.server, s.entered[i]);
      } else {
        NormalizedScopes(ScopeOf(s.server.signed[token]));
      }
    }
  }

  lemma StepKeepsTokens(s: State, step: Step, t: State)
    requires Next(s, step, t) && TokensKept(s)
    ensures TokensKept(t)
  {
    if step.TokenAsked? {
      TokenStepKept(s, step, t);
    } else if step.AccessFinished? {
      FinishStepKept(s, step, t);
    } else if step.AccessBegun? {
    } else {
      StepGrows(s, step, t);
      OthersLater(s, t);
      RevokeKinds(s, step, t);
      SameKinds(s.server, t.server);
    }
  }

  lemma RevokeKinds(s: State, step: Step, t: State)
    requires Next(s, step, t) && !step.TokenAsked? && !step.AccessFinished? && !step.AccessBegun?
    ensures t.server.signed == s.server.signed && t.server.accesses.Keys == s.server.accesses.Keys
  {
  }

  // ---- The Agent behind a token ----

  /** An actor token of the same client names this Agent. */
  ghost predicate Vouched(signed: map<Id, Claims>, c: Claims) {
    exists a :: a in signed && ActorOnly(signed[a]) && signed[a].client == c.client
                && c.act == Some(Actor(signed[a].agentIssuer.value, signed[a].subject))
  }

  ghost predicate AgentsVouched(s: State) {
    forall t | t in s.server.signed && Exchanged(s.server.signed[t]) :: Vouched(s.server.signed, s.server.signed[t])
  }

  lemma VouchedLater(a: map<Id, Claims>, b: map<Id, Claims>, c: Claims)
    requires Vouched(a, c) && forall t | t in a :: t in b && b[t] == a[t]
    ensures Vouched(b, c)
  {
    var t :| t in a && ActorOnly(a[t]) && a[t].client == c.client && c.act == Some(Actor(a[t].agentIssuer.value, a[t].subject));
    assert t in b && b[t] == a[t];
  }

  lemma ExchangeVouched(s: State, client: Id, q: ExchangeRequest, jti: Id, at: nat)
    requires TokensKept(s) && ExchangeAccepted(s.server, client, q, at)
    ensures Vouched(s.server.signed, ExchangedClaims(s.server, client, q, jti, at))
  {
    assert q.actorToken in s.server.signed && ActorOnly(s.server.signed[q.actorToken]);
  }

  lemma TokenVouched(s: State, client: Id, secret: Text, q: TokenRequest, drawn: Drawn, at: nat)
    requires TokensKept(s)
    ensures var (t, token) := Token(s.server, client, secret, q, drawn, at);
            token.Some? && Exchanged(t.signed[drawn.token]) ==> Vouched(s.server.signed, t.signed[drawn.token])
  {
    TokenKinds(s.server, client, secret, q, drawn, at);
    NotUnsupported(s.server, client, secret, q, drawn, at);
    if q.Exchange? && Authenticated(s.server, client, secret) && ExchangeAccepted(s.server, client, q.exchange, at) {
      ExchangeVouched(s, client, q.exchange, drawn.jti, at);
    }
  }

  lemma StepVouches(s: State, step: Step, t: State)
    requires Next(s, step, t) && TokensKept(s) && AgentsVouched(s)
    ensures AgentsVouched(t)
  {
    StepGrows(s, step, t);
    forall k | k in t.server.signed && Exchanged(t.server.signed[k]) ensures Vouched(t.server.signed, t.server.signed[k]) {
      SignedVouched(s, step, t, k);
      VouchedLater(s.server.signed, t.server.signed, t.server.signed[k]);
    }
  }

  lemma SignedVouched(s: State, step: Step, t: State, k: Id)
    requires Next(s, step, t) && TokensKept(s) && AgentsVouched(s)
    requires k in t.server.signed && Exchanged(t.server.signed[k])
    ensures Vouched(s.server.signed, t.server.signed[k])
  {
    if step.TokenAsked? {
      TokenSigns(s.server, step.client, step.secret, step.request, step.drawn, step.at);
      TokenVouched(s, step.client, step.secret, step.request, step.drawn, step.at);
    } else if step.Revoked? {
      assert t.server.signed == s.server.signed;
    } else {
      OthersGrow(s, step, t);
      assert t.server.signed == s.server.signed;
    }
  }

  // ---- Runs ----

  datatype Run = Run(states: seq<State>, steps: seq<Step>)

  ghost predicate Linked(run: Run, k: nat)
    requires k < |run.steps| && |run.states| == |run.steps| + 1
  {
    Next(run.states[k], run.steps[k], run.states[k + 1])
  }

  /** A run that starts with nothing stored. */
  ghost predicate IsRun(run: Run) {
    && |run.states| == |run.steps| + 1
    && run.states[0] == State(Empty(), map[], [], map[], [])
    && forall k | 0 <= k < |run.steps| :: Linked(run, k)
  }

  ghost predicate Safe(s: State) {
    CodesSpentOnce(s) && CredentialsEarned(s) && ScopesConsented(s) && TokensKept(s) && AgentsVouched(s)
  }

  lemma StepSafe(s: State, step: Step, t: State)
    requires Next(s, step, t) && Safe(s)
    ensures Safe(t)
  {
    StepSpendsOnce(s, step, t);
    StepEarns(s, step, t);
    StepKeepsConsent(s, step, t);
    StepKeepsTokens(s, step, t);
    StepVouches(s, step, t);
  }

  /** At every moment of every run: each code was redeemed at most once, by its own client, in time
      and with the matching redirect URI and verifier; refresh credentials and subject tokens went only
      to clients that redeemed a code for them; every API token's scopes were consented to
      together by its subject; an exchanged token names an Agent that an actor token of its own client
      names; and whoever reached the projects held an exchanged token with the required scope, bound
      to the key of their proof. */
  lemma {:induction false} RunsAreSafe(run: Run, k: nat)
    requires IsRun(run) && k < |run.states|
    ensures Safe(run.states[k])
  {
    if k > 0 {
      RunsAreSafe(run, k - 1);
      assert Linked(run, k - 1);
      StepSafe(run.states[k - 1], run.steps[k - 1], run.states[k]);
    }
  }

  /** Put together: a request that reached the projects was made with the key its token is bound to,
      on behalf of an Agent that the client's own keys vouched for, and needed a scope to which the
      token's subject consented in an authorization. */
  lemma WhoeverEntersWasAllowed(run: Run, k: nat, i: nat)
    requires IsRun(run) && k < |run.states| && i < |run.states[k].entered|
    ensures var s, e := run.states[k], run.states[k].entered[i];
            && e.token in s.server.signed
            && var c := s.server.signed[e.token];
            && c.jkt == Some(e.proof.proof.jkt) && Vouched(s.server.signed, c)
            && exists code :: code in s.consented && s.consented[code].subject == c.subject
                              && (if e.write then WRITE_SCOPE else READ_SCOPE) in Words(s.consented[code].scope)
  {
    RunsAreSafe(run, k);
    var s, e := run.states[k], run.states[k].entered[i];
    assert LetIn(s.server, e);
    var c := s.server.signed[e.token];
    assert Consented(s.consented, c.subject, c.scope.value);
    var code :| code in s.consented && s.consented[code].subject == c.subject && Within(Words(c.scope.value), Words(s.consented[code].scope));
  }

  lemma {:induction false} RunsGrow(run: Run, j: nat, k: nat)
    requires IsRun(run) && j <= k < |run.states|
    ensures Grows(run.states[j].server, run.states[k].server)
    decreases k - j
  {
    if j < k {
      RunsGrow(run, j, k - 1);
      assert Linked(run, k - 1);
      StepGrows(run.states[k - 1], run.steps[k - 1], run.states[k]);
      GrowsTransitive(run.states[j].server, run.states[k - 1].server, run.states[k].server);
    }
  }

  /** A revoked refresh credential is refused from then on, and a revoked access credential opens no
      further request. */
  lemma RevokedForGood(run: Run, j: nat, k: nat, refresh: Id, token: Id)
    requires IsRun(run) && j <= k < |run.states|
    ensures refresh in run.states[j].server.refreshes && run.states[j].server.refreshes[refresh].revokedAt.Some? ==>
              forall client :: !RefreshAccepted(run.states[k].server, client, refresh)
    ensures token in run.states[j].server.signed && run.states[j].server.signed[token].jti in run.states[j].server.accesses
            && !Unrevoked(run.states[j].server, run.states[j].server.signed[token].jti) ==>
              forall at :: !AccessBegins(run.states[k].server, token, at)
  {
    RunsGrow(run, j, k);
  }

  /** What a request for a token exchange proves about its two tokens: the subject token is no actor
      token and the actor token no subject token, the actor token was made for this very client and
      names its Agent, and the subject consented to everything asked for. */
  lemma ExchangeNeedsBothKinds(run: Run, k: nat, client: Id, q: ExchangeRequest, at: nat)
    requires IsRun(run) && k < |run.states| && ExchangeAllowed(run.states[k].server, client, q, at)
    ensures var s := run.states[k].server;
            && ActorOnly(s.signed[q.actorToken]) && s.signed[q.actorToken].client == client
            && (SubjectOnly(s.signed[q.subjectToken]) || Exchanged(s.signed[q.subjectToken]))
            && q.subjectToken != q.actorToken
            && Consented(run.states[k].consented, s.signed[q.subjectToken].subject, Join(NormalizeScopes(q.scope)))
    ensures ExchangeAccepted(run.states[k].server, client, q, at) <==> ProofAccepted(run.states[k].server, q.proof, at)
  {
    RunsAreSafe(run, k);
    var s := run.states[k].server;
    var subject := s.signed[q.subjectToken];
    assert Consented(run.states[k].consented, subject.subject, subject.scope.value);
    ExchangeNarrows(run.states[k].consented, subject.subject, subject.scope.value, q.scope);
  }
}
