/** The complete OAuth server of examples/external-resource-server: its tables, its tokens, and what
    each request does to them. Hashes and signatures are ideal: a secret stands for its own hash,
    and a token verifies exactly if the server signed it. */
module ResourceServers {
  import opened Options
  import opened Texts
  import opened ScopeTexts
  import opened DpopReplay

  type Id = string

  datatype Audience = Api | Issuer | Other

  datatype Client = Client(secret: Text, redirectUris: seq<Text>)

  /** A PKCE challenge: the digest of some verifier, or a text that is the digest of none. */
  datatype Challenge = DigestOf(verifier: Text) | NoDigest(text: Text)

  datatype Code = Code(client: Id, redirectUri: Text, subject: Text, scope: Text, challenge: Challenge, expiresAt: nat)

  datatype RefreshCredential = RefreshCredential(client: Id, subject: Text, scope: Text, revokedAt: Option<nat>)

  datatype AccessCredential = AccessCredential(client: Id, subject: Text, revokedAt: Option<nat>)

  datatype Actor = Actor(iss: Text, sub: Text)

  datatype Claims = Claims(
    audience: Audience,
    subject: Text,
    client: Id,
    jti: Id,
    scope: Option<Text>,
    agentIssuer: Option<Text>,
    act: Option<Actor>,
    jkt: Option<Text>,
    expiresAt: nat)

  datatype Server = Server(
    clients: map<Id, Client>,
    codes: map<Id, Code>,
    refreshes: map<Id, RefreshCredential>,
    accesses: map<Id, AccessCredential>,
    signed: map<Id, Claims>,
    used: Memory)

  const DEMO_USER: Text := [0x64, 0x65, 0x6D, 0x6F, 0x2D, 0x75, 0x73, 0x65, 0x72]
  const CODE_LIFETIME := 5 * 60 * 1000
  const TOKEN_LIFETIME := 300

  function Empty(): Server { Server(map[], map[], map[], map[], map[], map[]) }

  /** Identifiers drawn at random for one request: never drawn before, and different. */
  datatype Drawn = Drawn(code: Id, refresh: Id, token: Id, jti: Id)

  // ---- Client registration and consent ----

  function Register(s: Server, id: Id, client: Client): Server {
    if client.redirectUris == [] then s else s.(clients := s.clients[id := client])
  }

  datatype Consent = Consent(client: Id, redirectUri: Text, scope: Text, challenge: Challenge)

  predicate MayAuthorize(s: Server, q: Consent) {
    && q.scope != [] && q.redirectUri != [] && q.challenge != NoDigest([])
    && q.client in s.clients && q.redirectUri in s.clients[q.client].redirectUris
  }

  function CodeFor(q: Consent, nowMs: nat): Code {
    Code(q.client, q.redirectUri, DEMO_USER, q.scope, q.challenge, nowMs + CODE_LIFETIME)
  }

  function Authorize(s: Server, q: Consent, drawn: Drawn, nowMs: nat): Server {
    if MayAuthorize(s, q) then s.(codes := s.codes[drawn.code := CodeFor(q, nowMs)]) else s
  }

  // ---- Tokens ----

  /** jwtVerify against the server's own key. */
  function Verify(s: Server, token: Id, audience: Audience, nowMs: nat): Option<Claims> {
    if token in s.signed && s.signed[token].audience == audience && s.signed[token].expiresAt > Seconds(nowMs)
    then Some(s.signed[token]) else None
  }

  function SubjectClaims(client: Id, subject: Text, scope: Text, jti: Id, nowMs: nat): Claims {
    Claims(Api, subject, client, jti, Some(scope), None, None, None, Seconds(nowMs) + TOKEN_LIFETIME)
  }

  predicate Authenticated(s: Server, client: Id, secret: Text) {
    client in s.clients && s.clients[client].secret == secret
  }

  datatype CodeRequest = CodeRequest(code: Id, redirectUri: Text, verifier: Text)

  predicate CodeAccepted(s: Server, client: Id, q: CodeRequest, nowMs: nat) {
    && q.verifier != [] && q.code in s.codes
    && var row := s.codes[q.code];
    row.client == client && row.redirectUri == q.redirectUri && nowMs < row.expiresAt && row.challenge == DigestOf(q.verifier)
  }

  /** The code goes; a refresh credential and a subject token come. */
  function AuthorizationCodeGrant(s: Server, client: Id, q: CodeRequest, drawn: Drawn, nowMs: nat): (r: (Server, Option<Id>)) {
    if !CodeAccepted(s, client, q, nowMs) then (s, None)
    else
      var row := s.codes[q.code];
      (s.(codes := s.codes - {q.code},
          refreshes := s.refreshes[drawn.refresh := RefreshCredential(client, row.subject, row.scope, None)],
          signed := s.signed[drawn.token := SubjectClaims(client, row.subject, row.scope, drawn.jti, nowMs)]),
       Some(drawn.token))
  }

  predicate RefreshAccepted(s: Server, client: Id, refresh: Id) {
    refresh in s.refreshes && s.refreshes[refresh].client == client && s.refreshes[refresh].revokedAt.None?
  }

  function RefreshGrant(s: Server, client: Id, refresh: Id, drawn: Drawn, nowMs: nat): (r: (Server, Option<Id>)) {
    if !RefreshAccepted(s, client, refresh) then (s, None)
    else
      var row := s.refreshes[refresh];
      (s.(signed := s.signed[drawn.token := SubjectClaims(client, row.subject, row.scope, drawn.jti, nowMs)]), Some(drawn.token))
  }

  /** An assertion that the client's own keys verify; any claim may be missing. */
  datatype Assertion = Assertion(iss: Option<Text>, sub: Option<Text>, jti: Option<Text>)

  function JwtBearerGrant(s: Server, client: Id, assertion: Option<Assertion>, drawn: Drawn, nowMs: nat): (r: (Server, Option<Id>)) {
    if assertion.None? || assertion.value.iss.None? || assertion.value.sub.None? || assertion.value.jti.None? then (s, None)
    else
      var claims := Claims(Issuer, assertion.value.sub.value, client, drawn.jti, None, Some(assertion.value.iss.value), None, None,
                           Seconds(nowMs) + TOKEN_LIFETIME);
      (s.(signed := s.signed[drawn.token := claims]), Some(drawn.token))
  }

  /** A DPoP proof with a valid header and signature. `target`: it names this method and URL. */
  datatype Presented = Presented(proof: Proof, target: bool, ath: Option<Id>)

  predicate ProofAccepted(s: Server, p: Presented, nowMs: nat) {
    p.target && Accepts(s.used, p.proof, nowMs)
  }

  function ProofUsed(s: Server, p: Presented, nowMs: nat): Server {
    if p.target then s.(used := After(s.used, p.proof, nowMs)) else s
  }

  datatype ExchangeRequest = ExchangeRequest(subjectToken: Id, actorToken: Id, scope: Text, resource: Audience, proof: Presented)

  function ScopeOf(c: Claims): Text { if c.scope.Some? then c.scope.value else [] }

  predicate Within(requested: seq<Text>, granted: seq<Text>) {
    forall w | w in requested :: w in granted
  }

  /** Everything that is checked before the DPoP proof. */
  predicate ExchangeAllowed(s: Server, client: Id, q: ExchangeRequest, nowMs: nat) {
    && q.scope != [] && q.resource == Api
    && var subject, actor := Verify(s, q.subjectToken, Api, nowMs), Verify(s, q.actorToken, Issuer, nowMs);
    && subject.Some? && actor.Some? && actor.value.client == client
    && Within(NormalizeScopes(q.scope), NormalizeScopes(ScopeOf(subject.value)))
  }

  predicate ExchangeAccepted(s: Server, client: Id, q: ExchangeRequest, nowMs: nat) {
    ExchangeAllowed(s, client, q, nowMs) && ProofAccepted(s, q.proof, nowMs) && s.signed[q.actorToken].agentIssuer.Some?
  }

  function ExchangedClaims(s: Server, client: Id, q: ExchangeRequest, jti: Id, nowMs: nat): Claims
    requires ExchangeAccepted(s, client, q, nowMs)
  {
    var subject, actor := s.signed[q.subjectToken], s.signed[q.actorToken];
    Claims(Api, subject.subject, client, jti, Some(Join(NormalizeScopes(q.scope))), None,
           Some(Actor(actor.agentIssuer.value, actor.subject)), Some(q.proof.proof.jkt), Seconds(nowMs) + TOKEN_LIFETIME)
  }

  function TokenExchangeGrant(s: Server, client: Id, q: ExchangeRequest, drawn: Drawn, nowMs: nat): (r: (Server, Option<Id>)) {
    if !ExchangeAllowed(s, client, q, nowMs) then (s, None)
    else
      var after := ProofUsed(s, q.proof, nowMs);
      if !ExchangeAccepted(s, client, q, nowMs) then (after, None)
      else
        var claims := ExchangedClaims(s, client, q, drawn.jti, nowMs);
        (after.(signed := s.signed[drawn.token := claims],
                accesses := s.accesses[drawn.jti := AccessCredential(client, claims.subject, None)]),
         Some(drawn.token))
  }

  datatype TokenRequest =
    | CodeGrant(code: CodeRequest)
    | Refresh(refreshToken: Id)
    | JwtBearer(assertion: Option<Assertion>)
    | Exchange(exchange: ExchangeRequest)
    | Unsupported

  function Token(s: Server, client: Id, secret: Text, q: TokenRequest, drawn: Drawn, nowMs: nat): (r: (Server, Option<Id>)) {
    if !Authenticated(s, client, secret) then (s, None)
    else match q
      case CodeGrant(code) => AuthorizationCodeGrant(s, client, code, drawn, nowMs)
      case Refresh(refresh) => RefreshGrant(s, client, refresh, drawn, nowMs)
      case JwtBearer(assertion) => JwtBearerGrant(s, client, assertion, drawn, nowMs)
      case Exchange(exchange) => TokenExchangeGrant(s, client, exchange, drawn, nowMs)
      case Unsupported => (s, None)
  }

  // ---- Revocation ----

  /** What a token claims of itself, read without verifying it. */
  datatype Unverified = Unverified(client: Option<Id>, jti: Option<Id>)

  /** A token the server signed claims what was signed; any other text may claim anything. */
  predicate Readable(s: Server, token: Id, claimed: Unverified) {
    token in s.signed ==> claimed == Unverified(Some(s.signed[token].client), Some(s.signed[token].jti))
  }

  function Revoke(s: Server, client: Id, secret: Text, token: Id, claimed: Unverified, nowMs: nat): Server {
    if !Authenticated(s, client, secret) then s
    else if claimed.client == Some(client) && claimed.jti.Some? then
      if claimed.jti.value in s.accesses
      then s.(accesses := s.accesses[claimed.jti.value := s.accesses[claimed.jti.value].(revokedAt := Some(nowMs))])
      else s
    else if token in s.refreshes && s.refreshes[token].client == client
    then s.(refreshes := s.refreshes[token := s.refreshes[token].(revokedAt := Some(nowMs))])
    else s
  }

  // ---- The protected API ----

  /** projects:read and projects:write */
  const READ_SCOPE: Text := [0x70, 0x72, 0x6F, 0x6A, 0x65, 0x63, 0x74, 0x73, 0x3A, 0x72, 0x65, 0x61, 0x64]
  const WRITE_SCOPE: Text := [0x70, 0x72, 0x6F, 0x6A, 0x65, 0x63, 0x74, 0x73, 0x3A, 0x77, 0x72, 0x69, 0x74, 0x65]

  predicate Unrevoked(s: Server, jti: Id) {
    jti in s.accesses && s.accesses[jti].revokedAt.None?
  }

  /** The first half of requireDpopAccess: the token, and its row as it is now. */
  predicate AccessBegins(s: Server, token: Id, nowMs: nat) {
    var claims := Verify(s, token, Api, nowMs);
    claims.Some? && Unrevoked(s, claims.value.jti)
  }

  /** The second half, after the proof has been examined. */
  predicate AccessGranted(s: Server, token: Id, p: Presented, write: bool, nowMs: nat)
    requires token in s.signed
  {
    var claims := s.signed[token];
    && ProofAccepted(s, p, nowMs)
    && (claims.jkt.Some? ==> claims.jkt.value == p.proof.jkt)
    && p.ath == Some(token)
    && (if write then WRITE_SCOPE else READ_SCOPE) in NormalizeScopes(ScopeOf(claims))
  }

  // ---- The server as it runs ----

  class ResourceServer {
    var clients: map<Id, Client>
    var codes: map<Id, Code>
    var refreshes: map<Id, RefreshCredential>
    var accesses: map<Id, AccessCredential>
    var signed: map<Id, Claims>
    const replays: ReplayCache

    constructor ()
      ensures State() == Empty() && fresh(replays)
    {
      clients, codes, refreshes, accesses, signed := map[], map[], map[], map[], map[];
      replays := new ReplayCache();
    }

    function State(): Server
      reads this, replays
    {
      Server(clients, codes, refreshes, accesses, signed, replays.used)
    }

    method HandleAuthorize(q: Consent, drawn: Drawn, nowMs: nat) returns (redirected: bool)
      modifies this
      ensures State() == Authorize(old(State()), q, drawn, nowMs)
      ensures redirected <==> MayAuthorize(old(State()), q)
    {
      if q.scope == [] || q.redirectUri == [] || q.challenge == NoDigest([]) { return false; }
      if q.client !in clients || q.redirectUri !in clients[q.client].redirectUris { return false; }
      codes := codes[drawn.code := Code(q.client, q.redirectUri, DEMO_USER, q.scope, q.challenge, nowMs + CODE_LIFETIME)];
      return true;
    }

    method HandleToken(client: Id, secret: Text, q: TokenRequest, drawn: Drawn, nowMs: nat) returns (token: Option<Id>)
      modifies this, replays
      ensures (State(), token) == Token(old(State()), client, secret, q, drawn, nowMs)
    {
      if client !in clients || clients[client].secret != secret { return None; }
      match q
      case CodeGrant(code) => token := HandleCode(client, code, drawn, nowMs);
      case Refresh(refresh) => token := HandleRefresh(client, refresh, drawn, nowMs);
      case JwtBearer(assertion) => token := HandleBearer(client, assertion, drawn, nowMs);
      case Exchange(exchange) => token := HandleExchange(client, exchange, drawn, nowMs);
      case Unsupported => token := None;
    }

    method IssueSubjectToken(client: Id, subject: Text, scope: Text, drawn: Drawn, nowMs: nat) returns (token: Id)
      modifies this`signed
      ensures token == drawn.token
      ensures signed == old(signed)[token := SubjectClaims(client, subject, scope, drawn.jti, nowMs)]
    {
      signed := signed[drawn.token := Claims(Api, subject, client, drawn.jti, Some(scope), None, None, None,
                                             Seconds(nowMs) + TOKEN_LIFETIME)];
      return drawn.token;
    }

    method HandleCode(client: Id, q: CodeRequest, drawn: Drawn, nowMs: nat) returns (token: Option<Id>)
      modifies this
      ensures (State(), token) == AuthorizationCodeGrant(old(State()), client, q, drawn, nowMs)
    {
      if q.verifier == [] || q.code !in codes || codes[q.code].client != client { return None; }
      var row := codes[q.code];
      if row.redirectUri != q.redirectUri || row.expiresAt <= nowMs || DigestOf(q.verifier) != row.challenge { return None; }
      codes := codes - {q.code};
      refreshes := refreshes[drawn.refresh := RefreshCredential(client, row.subject, row.scope, None)];
      var issued := IssueSubjectToken(client, row.subject, row.scope, drawn, nowMs);
      return Some(issued);
    }

    method HandleRefresh(client: Id, refresh: Id, drawn: Drawn, nowMs: nat) returns (token: Option<Id>)
      modifies this
      ensures (State(), token) == RefreshGrant(old(State()), client, refresh, drawn, nowMs)
    {
      if refresh !in refreshes || refreshes[refresh].client != client { return None; }
      var row := refreshes[refresh];
      if row.revokedAt.Some? { return None; }
      var issued := IssueSubjectToken(client, row.subject, row.scope, drawn, nowMs);
      return Some(issued);
    }

    method HandleBearer(client: Id, assertion: Option<Assertion>, drawn: Drawn, nowMs: nat) returns (token: Option<Id>)
      modifies this
      ensures (State(), token) == JwtBearerGrant(old(State()), client, assertion, drawn, nowMs)
    {
      if assertion.None? { return None; }
      var a := assertion.value;
      if a.iss.None? || a.sub.None? || a.jti.None? { return None; }
      signed := signed[drawn.token := Claims(Issuer, a.sub.value, client, drawn.jti, None, Some(a.iss.value), None, None,
                                             Seconds(nowMs) + TOKEN_LIFETIME)];
      return Some(drawn.token);
    }

    method HandleExchange(client: Id, q: ExchangeRequest, drawn: Drawn, nowMs: nat) returns (token: Option<Id>)
      modifies this, replays
      ensures (State(), token) == TokenExchangeGrant(old(State()), client, q, drawn, nowMs)
    {
      if q.scope == [] { return None; }
      var requested := NormalizeScopes(q.scope);
      if q.resource != Api { return None; }
      var subject := Verify(State(), q.subjectToken, Api, nowMs);
      if subject.None? { return None; }
      var actor := Verify(State(), q.actorToken, Issuer, nowMs);
      if actor.None? || actor.value.client != client { return None; }
      var subjectScopes := NormalizeScopes(ScopeOf(subject.value));
      if exists w :: w in requested && w !in subjectScopes { return None; }
      if !q.proof.target { return None; }
      var proven := replays.Check(q.proof.proof, nowMs);
      if !proven || actor.value.agentIssuer.None? { return None; }
      signed := signed[drawn.token := Claims(Api, subject.value.subject, client, drawn.jti, Some(Join(requested)), None,
                                             Some(Actor(actor.value.agentIssuer.value, actor.value.subject)),
                                             Some(q.proof.proof.jkt), Seconds(nowMs) + TOKEN_LIFETIME)];
      accesses := accesses[drawn.jti := AccessCredential(client, subject.value.subject, None)];
      return Some(drawn.token);
    }

    method HandleRevoke(client: Id, secret: Text, token: Id, claimed: Unverified, nowMs: nat)
      modifies this
      ensures State() == Revoke(old(State()), client, secret, token, claimed, nowMs)
    {
      if client !in clients || clients[client].secret != secret { return; }
      if claimed.client == Some(client) && claimed.jti.Some? {
        var jti := claimed.jti.value;
        if jti in accesses { accesses := accesses[jti := accesses[jti].(revokedAt := Some(nowMs))]; }
      } else if token in refreshes && refreshes[token].client == client {
        refreshes := refreshes[token := refreshes[token].(revokedAt := Some(nowMs))];
      }
    }

    /** The rest of requireDpopAccess for a token that has passed its first half. */
    method FinishAccess(token: Id, p: Presented, write: bool, nowMs: nat) returns (granted: bool)
      requires token in signed
      modifies replays
      ensures granted <==> AccessGranted(old(State()), token, p, write, nowMs)
      ensures State() == ProofUsed(old(State()), p, nowMs)
    {
      if !p.target { return false; }
      var proven := replays.Check(p.proof, nowMs);
      if !proven { return false; }
      var claims := signed[token];
      if claims.jkt.Some? && claims.jkt.value != p.proof.jkt { return false; }
      if p.ath != Some(token) { return false; }
      var required := if write then WRITE_SCOPE else READ_SCOPE;
      return required in NormalizeScopes(ScopeOf(claims));
    }
  }
}
