/**
 The OAuth endpoints over their tables
 (apps/server/src/modules/oauth/oauth.authorize.ts, oauth.token.ts, par.service.ts).

 The functions say what one endpoint call does to the tables; the class at the end is the service,
 proved against them. OAuthRuns.dfy follows whole runs of calls.
 */
module OAuthServices {
  import opened Common
  import opened Scopes
  import opened RefreshTokens

  /** A client's two unique identifiers are taken as one. */
  datatype Client = Client(
    redirectUris: seq<string>,
    grantTypes: seq<string>,
    responseTypes: seq<string>,
    scope: string,
    isConfidential: bool,
    isFirstParty: bool,
    suspended: bool)

  /** A code challenge either is the base64url SHA-256 of some verifier, or is some other text. */
  datatype Challenge = S256(verifier: string) | Other(text: string)

  datatype Query = Query(
    clientId: string,
    redirectUri: string,
    scope: string,
    challenge: Challenge,
    state: string,
    nonce: Option<string>)

  datatype Code = Code(
    code: Digest,
    clientId: string,
    userId: string,
    redirectUri: string,
    scope: string,
    challenge: Challenge,
    nonce: Option<string>,
    state: string,
    expiresAt: int,
    usedAt: Option<int>)

  datatype Grant = Grant(userId: string, clientId: string, scope: string, revokedAt: Option<int>)

  datatype ParParams = ParParams(
    redirectUri: string,
    scope: string,
    challenge: Challenge,
    state: Option<string>,
    nonce: Option<string>)

  datatype Par = Par(clientId: string, params: ParParams, expiresAt: int, usedAt: Option<int>)

  datatype Env = Env(authCodeTtl: int, refreshTokenTtl: int, refreshGracePeriod: int, parTtl: int)

  datatype Db = Db(
    clients: map<string, Client>,
    grants: seq<Grant>,
    codes: map<Digest, Code>,
    pars: map<string, Par>,
    tokens: Table)

  datatype OAuthError =
    | ValidationError
    | UnauthorizedError
    | ForbiddenError
    | NotFoundError
    | UniqueColumn
    | Token(error: TokenError)

  datatype AuthorizeResult = Redirect(code: string) | Denied | ConsentRequired(requestedScope: string)

  datatype TokenResponse = TokenResponse(userId: string, clientId: string, scope: string, refreshToken: string,
                                         dpop: bool)

  datatype CodeRequest = CodeRequest(code: string, redirectUri: string, verifier: string, clientId: Option<string>)

  datatype RefreshRequest = RefreshRequest(token: string, clientId: Option<string>, scope: Option<string>)

  /** How the caller of the token endpoint proved to be a client, if it did. */
  datatype Caller = Caller(authenticated: Option<string>, secretMatches: bool)

  // ---------------------------------------------------------------------------------------------
  // Authorization
  // ---------------------------------------------------------------------------------------------

  function VerifyCodeChallenge(verifier: string, challenge: Challenge): bool {
    challenge == S256(verifier)
  }

  /** assertAuthorizeQuery: a blank challenge is refused. */
  function ChallengeMissing(c: Challenge): bool {
    c.Other? && Trim(c.text) == ""
  }

  /** The guards shared by authorize, submitConsent and the PAR endpoint, in their order. */
  function Guard(client: Client, redirectUri: string, scope: string): Option<OAuthError> {
    if client.suspended then Some(ForbiddenError)
    else if "authorization_code" !in client.grantTypes || "code" !in client.responseTypes then Some(ValidationError)
    else if redirectUri !in client.redirectUris then Some(ValidationError)
    else if !(ScopeSet(scope) <= ScopeSet(client.scope)) then Some(ValidationError)
    else None
  }

  /** What a client must be registered for to have the request made for it. */
  ghost predicate MayAsk(client: Client, redirectUri: string, scope: string) {
    && !client.suspended && "authorization_code" in client.grantTypes && "code" in client.responseTypes
    && redirectUri in client.redirectUris && ScopeSet(scope) <= ScopeSet(client.scope)
  }

  predicate Live(g: Grant, userId: string, clientId: string) {
    g.userId == userId && g.clientId == clientId && g.revokedAt.None?
  }

  /** The union of the scopes of a user's unrevoked grants to a client. */
  function GrantedScopes(grants: seq<Grant>, userId: string, clientId: string): set<string> {
    if grants == [] then {}
    else
      GrantedScopes(grants[..|grants| - 1], userId, clientId)
      + (if Live(grants[|grants| - 1], userId, clientId) then ScopeSet(grants[|grants| - 1].scope) else {})
  }

  function NewCode(env: Env, userId: string, q: Query, now: int, plain: string): Code {
    Code(Sha256(plain), q.clientId, userId, q.redirectUri, q.scope, q.challenge, q.nonce, q.state,
         now + env.authCodeTtl * 1000, None)
  }

  function IssueCode(db: Db, env: Env, userId: string, q: Query, now: int, plain: string)
    : (Result<AuthorizeResult, OAuthError>, Db)
  {
    if Sha256(plain) in db.codes then (Failure(UniqueColumn), db)
    else (Success(Redirect(plain)), db.(codes := db.codes[Sha256(plain) := NewCode(env, userId, q, now, plain)]))
  }

  function Authorize(db: Db, env: Env, userId: string, q: Query, now: int, plain: string)
    : (Result<AuthorizeResult, OAuthError>, Db)
  {
    if ChallengeMissing(q.challenge) then (Failure(ValidationError), db)
    else if q.clientId !in db.clients then (Failure(NotFoundError), db)
    else
      var client := db.clients[q.clientId];
      match Guard(client, q.redirectUri, q.scope)
      case Some(e) => (Failure(e), db)
      case None =>
        if client.isFirstParty || ScopeSet(q.scope) <= GrantedScopes(db.grants, userId, q.clientId)
        then IssueCode(db, env, userId, q, now, plain)
        else (Success(ConsentRequired(q.scope)), db)
  }

  function SubmitConsent(db: Db, env: Env, userId: string, q: Query, approve: bool, now: int, plain: string)
    : (Result<AuthorizeResult, OAuthError>, Db)
  {
    if q.clientId !in db.clients then (Failure(NotFoundError), db)
    else
      match Guard(db.clients[q.clientId], q.redirectUri, q.scope)
      case Some(e) => (Failure(e), db)
      case None =>
        if !approve then (Success(Denied), db)
        else IssueCode(db.(grants := db.grants + [Grant(userId, q.clientId, q.scope, None)]), env, userId, q, now,
                       plain)
  }

  function RevokeGrant(g: Grant, userId: string, clientId: string, now: int): Grant {
    if Live(g, userId, clientId) then g.(revokedAt := Some(now)) else g
  }

  function RevokeGrants(grants: seq<Grant>, userId: string, clientId: string, now: int): (r: seq<Grant>)
    ensures |r| == |grants| && forall i | 0 <= i < |r| :: r[i] == RevokeGrant(grants[i], userId, clientId, now)
  {
    seq(|grants|, i requires 0 <= i < |grants| => RevokeGrant(grants[i], userId, clientId, now))
  }

  function RevokeConsent(db: Db, userId: string, clientId: string, now: int, now2: int): (Result<(), OAuthError>, Db) {
    if clientId !in db.clients then (Failure(NotFoundError), db)
    else if !exists i :: 0 <= i < |db.grants| && Live(db.grants[i], userId, clientId) then (Failure(NotFoundError), db)
    else (Success(()), db.(grants := RevokeGrants(db.grants, userId, clientId, now),
                           tokens := RevokeWhere(db.tokens, ByClientUser(clientId, userId), now2)))
  }

  // ---------------------------------------------------------------------------------------------
  // Pushed authorization requests (RFC 9126, section 4)
  // ---------------------------------------------------------------------------------------------

  /** createParRequestFlow: client is the caller, already authenticated as clientId. */
  function PushRequest(db: Db, env: Env, clientId: string, client: Client, bodyClientId: string, params: ParParams,
                       uri: string, now: int): (Result<string, OAuthError>, Db)
  {
    if bodyClientId != clientId then (Failure(UnauthorizedError), db)
    else
      match Guard(client, params.redirectUri, params.scope)
      case Some(e) => (Failure(e), db)
      case None =>
        if uri in db.pars then (Failure(UniqueColumn), db)
        else (Success(uri), db.(pars := db.pars[uri := Par(clientId, params, now + env.parTtl * 1000, None)]))
  }

  function ReadPar(db: Db, uri: string, clientId: string, now: int): Result<ParParams, OAuthError> {
    if uri !in db.pars then Failure(ValidationError)
    else
      var row := db.pars[uri];
      if row.clientId != clientId || row.expiresAt <= now || row.usedAt.Some? then Failure(ValidationError)
      else Success(row.params)
  }

  function ParQuery(clientId: string, p: ParParams): Query {
    Query(clientId, p.redirectUri, p.scope, p.challenge, if p.state.Some? then p.state.value else "", p.nonce)
  }

  function AuthorizeWithPar(db: Db, env: Env, userId: string, uri: string, clientId: string, readAt: int, now: int,
                            usedAt: int, plain: string): (Result<AuthorizeResult, OAuthError>, Db)
  {
    if clientId !in db.clients then (Failure(NotFoundError), db)
    else
      match ReadPar(db, uri, clientId, readAt)
      case Failure(e) => (Failure(e), db)
      case Success(params) =>
        var (r, db') := Authorize(db, env, userId, ParQuery(clientId, params), now, plain);
        if r.Success? && r.value.Redirect? && uri in db'.pars
        then (r, db'.(pars := db'.pars[uri := db'.pars[uri].(usedAt := Some(usedAt))]))
        else (r, db')
  }

  // ---------------------------------------------------------------------------------------------
  // The token endpoint
  // ---------------------------------------------------------------------------------------------

  /** validateConfidentialClient. */
  function ClientProven(client: Client, clientId: string, caller: Caller): bool {
    !client.isConfidential || caller.authenticated == Some(clientId) || caller.secretMatches
  }

  /** The transaction of exchangeAuthorizationCode. */
  function RedeemCode(db: Db, req: CodeRequest, caller: Caller, now: int, usedAt: int): (Result<Code, OAuthError>, Db) {
    var d := Sha256(req.code);
    if d !in db.codes then (Failure(UnauthorizedError), db)
    else
      var row := db.codes[d];
      if || row.usedAt.Some?
         || row.expiresAt <= now
         || row.redirectUri != req.redirectUri
         || row.clientId !in db.clients
         || (req.clientId.Some? && req.clientId.value != row.clientId)
         || !ClientProven(db.clients[row.clientId], row.clientId, caller)
         || !VerifyCodeChallenge(req.verifier, row.challenge)
      then (Failure(UnauthorizedError), db)
      else (Success(row), db.(codes := db.codes[d := row.(usedAt := Some(usedAt))]))
  }

  /** The part of issueTokenBundle that follows a redeemed code: a new refresh family. */
  function IssueFamily(db: Db, env: Env, row: Code, familyId: string, plain: string, jkt: Option<string>, now: int,
                       dbNow: int)
    : (Result<TokenResponse, OAuthError>, Db)
  {
    var params := CreateParams(row.clientId, row.userId, row.scope, env.refreshTokenTtl, familyId, jkt);
    match Insert(db.tokens, NewRow(plain, params, now, dbNow))
    case Failure(e) => (Failure(Token(e)), db)
    case Success(t) =>
      (Success(TokenResponse(row.userId, row.clientId, row.scope, plain, jkt.Some?)), db.(tokens := t))
  }

  function WantsScope(scope: Option<string>): bool {
    scope.Some? && Trim(scope.value) != ""
  }

  /** The checks of exchangeRefreshToken on what it reads first; admitted, it has the scope of its answer. */
  function AdmitRefresh(db: Db, req: RefreshRequest, caller: Caller): Result<string, OAuthError> {
    var d := Sha256(req.token);
    if d !in db.tokens then Failure(UnauthorizedError)
    else
      var row := db.tokens[d];
      if row.clientId !in db.clients then Failure(NotFoundError)
      else if req.clientId.Some? && req.clientId.value != row.clientId then Failure(UnauthorizedError)
      else if !ClientProven(db.clients[row.clientId], row.clientId, caller) then Failure(UnauthorizedError)
      else if WantsScope(req.scope) && !(ScopeSet(req.scope.value) <= ScopeSet(row.scope)) then Failure(ValidationError)
      else Success(if WantsScope(req.scope) then Trim(req.scope.value) else row.scope)
  }

  /** exchangeRefreshToken as one call; the rotation inside it is the serial one. */
  function RefreshExchange(db: Db, env: Env, req: RefreshRequest, caller: Caller, jkt: Option<string>,
                           now: int, now2: int, newPlain: string, dbNow: int): (Result<TokenResponse, OAuthError>, Db)
  {
    match AdmitRefresh(db, req, caller)
    case Failure(e) => (Failure(e), db)
    case Success(effectiveScope) =>
      if Sha256(req.token) !in db.tokens then (Failure(UnauthorizedError), db)
      else
        var row := db.tokens[Sha256(req.token)];
        var (r, t) := RotateSerially(db.tokens, req.token, env.refreshGracePeriod, now, now2, jkt, newPlain, dbNow);
        match r
        case Failure(e) => (Failure(Token(e)), db.(tokens := t))
        case Success(plain) =>
          if Sha256(plain) !in t then (Failure(UnauthorizedError), db.(tokens := t))
          else
            (Success(TokenResponse(t[Sha256(plain)].userId, row.clientId, effectiveScope, plain, jkt.Some?)),
             db.(tokens := t))
  }

  /** exchangeClientCredentials: the scope of the access token. */
  function ClientCredentialsScope(client: Option<Client>, scope: Option<string>): Result<string, OAuthError> {
    if client.None? then Failure(UnauthorizedError)
    else
      var c := client.value;
      if !c.isConfidential then Failure(ValidationError)
      else if c.suspended then Failure(ForbiddenError)
      else if "client_credentials" !in c.grantTypes then Failure(ValidationError)
      else if !WantsScope(scope) then Success(c.scope)
      else if !(ScopeSet(Trim(scope.value)) <= ScopeSet(c.scope)) then Failure(ValidationError)
      else Success(Trim(scope.value))
  }

  /** No client obtains more by client credentials than it registered, and every subset is available. */
  lemma ClientCredentialsWithinRegistration(c: Client, scope: Option<string>)
    requires c.isConfidential && !c.suspended && "client_credentials" in c.grantTypes
    ensures var r := ClientCredentialsScope(Some(c), scope);
            && (r.Success? ==> ScopeSet(r.value) <= ScopeSet(c.scope))
            && (r.Success? <==> !WantsScope(scope) || ScopeSet(scope.value) <= ScopeSet(c.scope))
            && (r.Success? && WantsScope(scope) ==> ScopeSet(r.value) == ScopeSet(scope.value))
  {
    if scope.Some? {
      TrimKeepsScopes(scope.value);
    }
  }

  // ---------------------------------------------------------------------------------------------
  // Consent
  // ---------------------------------------------------------------------------------------------

  /** A scope is granted exactly when some unrevoked grant names it. */
  lemma {:induction false} GrantedScopesAre(grants: seq<Grant>, userId: string, clientId: string, w: string)
    ensures w in GrantedScopes(grants, userId, clientId)
            <==> exists i :: 0 <= i < |grants| && Live(grants[i], userId, clientId) && w in ScopeSet(grants[i].scope)
  {
    if grants != [] {
      var n := |grants| - 1;
      GrantedScopesAre(grants[..n], userId, clientId, w);
      if w in GrantedScopes(grants[..n], userId, clientId) {
        var i :| 0 <= i < n && Live(grants[..n][i], userId, clientId) && w in ScopeSet(grants[..n][i].scope);
        assert grants[i] == grants[..n][i];
      }
      if i :| 0 <= i < |grants| && Live(grants[i], userId, clientId) && w in ScopeSet(grants[i].scope) {
        assert i < n ==> grants[..n][i] == grants[i];
      }
    }
  }

  /** Approving a consent makes its scope covered. */
  lemma ConsentIsCovered(grants: seq<Grant>, userId: string, clientId: string, scope: string)
    ensures ScopeSet(scope) <= GrantedScopes(grants + [Grant(userId, clientId, scope, None)], userId, clientId)
  {
    var more := grants + [Grant(userId, clientId, scope, None)];
    assert more[..|more| - 1] == grants;
  }

  /**
   After a revocation the client has no scope left and no unrevoked refresh token of that user. A
   request that the client may make leads back to the consent page exactly if the client is not
   first-party and the request names a scope.
   */
  lemma RevocationWithdrawsConsent(db: Db, env: Env, userId: string, q: Query, now: int, now2: int, plain: string)
    requires RevokeConsent(db, userId, q.clientId, now, now2).0.Success?
    ensures var db' := RevokeConsent(db, userId, q.clientId, now, now2).1;
            && GrantedScopes(db'.grants, userId, q.clientId) == {}
            && (forall d | d in db'.tokens && db'.tokens[d].clientId == q.clientId && db'.tokens[d].userId == userId ::
                  db'.tokens[d].revokedAt.Some?)
            && (!ChallengeMissing(q.challenge) && MayAsk(db.clients[q.clientId], q.redirectUri, q.scope) ==>
                  (Authorize(db', env, userId, q, now, plain).0 == Success(ConsentRequired(q.scope))
                   <==> !db.clients[q.clientId].isFirstParty && ScopeSet(q.scope) != {}))
  {
    var db' := RevokeConsent(db, userId, q.clientId, now, now2).1;
    forall w
      ensures w !in GrantedScopes(db'.grants, userId, q.clientId)
    {
      GrantedScopesAre(db'.grants, userId, q.clientId, w);
    }
    assert GrantedScopes(db'.grants, userId, q.clientId) == {};
  }

  /** A code issued before the revocation is not touched by it: it is redeemed, or refused, as before. */
  lemma RevocationLeavesCodes(db: Db, userId: string, clientId: string, now: int, now2: int,
                              req: CodeRequest, caller: Caller, at: int, usedAt: int)
    ensures RedeemCode(RevokeConsent(db, userId, clientId, now, now2).1, req, caller, at, usedAt).0
            == RedeemCode(db, req, caller, at, usedAt).0
  {
  }

  /** A revocation concerns one user and one client: every other pair keeps its scopes and its tokens. */
  lemma RevocationSparesOthers(db: Db, userId: string, clientId: string, now: int, now2: int, u: string, c: string)
    requires u != userId || c != clientId
    ensures var db' := RevokeConsent(db, userId, clientId, now, now2).1;
            && GrantedScopes(db'.grants, u, c) == GrantedScopes(db.grants, u, c)
            && (forall d | d in db.tokens && db.tokens[d].userId == u && db.tokens[d].clientId == c ::
                  d in db'.tokens && db'.tokens[d] == db.tokens[d])
  {
    var db' := RevokeConsent(db, userId, clientId, now, now2).1;
    forall w
      ensures w in GrantedScopes(db'.grants, u, c) <==> w in GrantedScopes(db.grants, u, c)
    {
      GrantedScopesAre(db'.grants, u, c, w);
      GrantedScopesAre(db.grants, u, c, w);
      assert |db'.grants| == |db.grants|;
      assert forall i | 0 <= i < |db.grants| ::
        (Live(db'.grants[i], u, c) <==> Live(db.grants[i], u, c)) && db'.grants[i].scope == db.grants[i].scope;
    }
  }

  /** Exactly when an authorization request leads to a code, and when to the consent page. */
  lemma AuthorizeExactly(db: Db, env: Env, userId: string, q: Query, now: int, plain: string)
    requires Sha256(plain) !in db.codes
    ensures var r := Authorize(db, env, userId, q, now, plain).0;
            var allowed := !ChallengeMissing(q.challenge) && q.clientId in db.clients
              && MayAsk(db.clients[q.clientId], q.redirectUri, q.scope);
            var covered := q.clientId in db.clients && (db.clients[q.clientId].isFirstParty
                             || forall w | w in ScopeSet(q.scope) ::
                                  exists i :: 0 <= i < |db.grants| && Live(db.grants[i], userId, q.clientId)
                                              && w in ScopeSet(db.grants[i].scope));
            && (r == Success(Redirect(plain)) <==> allowed && covered)
            && (r == Success(ConsentRequired(q.scope)) <==> allowed && !covered)
            && (r.Failure? <==> !allowed)
  {
    forall w
      ensures w in GrantedScopes(db.grants, userId, q.clientId)
              <==> (exists i :: 0 <= i < |db.grants| && Live(db.grants[i], userId, q.clientId)
                                && w in ScopeSet(db.grants[i].scope))
    {
      GrantedScopesAre(db.grants, userId, q.clientId, w);
    }
  }

  /**
   An approved consent is remembered: the same client asking for no more is then given a code without
   asking the user again.
   */
  lemma ConsentIsRemembered(db: Db, env: Env, userId: string, q: Query, now: int, plain: string, again: Query,
                            later: int, plain2: string)
    requires SubmitConsent(db, env, userId, q, true, now, plain).0.Success?
    requires again.clientId == q.clientId && again.redirectUri in db.clients[q.clientId].redirectUris
    requires !ChallengeMissing(again.challenge) && ScopeSet(again.scope) <= ScopeSet(q.scope)
    requires Sha256(plain2) !in db.codes && plain2 != plain
    ensures Authorize(SubmitConsent(db, env, userId, q, true, now, plain).1, env, userId, again, later, plain2).0
      == Success(Redirect(plain2))
  {
    ConsentIsCovered(db.grants, userId, q.clientId, q.scope);
  }

  // ---------------------------------------------------------------------------------------------
  // Pushed requests, end to end
  // ---------------------------------------------------------------------------------------------

  /**
   A stored request is answered, for the client that pushed it and until it expires, exactly as the
   plain authorization request with the pushed parameters; for anybody else, or later, it is refused.
   */
  lemma PushedRequestIsAuthorized(db: Db, env: Env, clientId: string, client: Client, bodyClientId: string,
                                  params: ParParams,
                                  uri: string, pushedAt: int, userId: string, c: string, readAt: int, now: int,
                                    usedAt: int,
                                  plain: string)
    requires PushRequest(db, env, clientId, client, bodyClientId, params, uri, pushedAt).0.Success?
    requires c in db.clients
    ensures var stored := PushRequest(db, env, clientId, client, bodyClientId, params, uri, pushedAt).1;
            AuthorizeWithPar(stored, env, userId, uri, c, readAt, now, usedAt, plain).0
            == (if c == clientId && readAt < pushedAt + env.parTtl * 1000
                then Authorize(stored, env, userId, ParQuery(clientId, params), now, plain).0
                else Failure(ValidationError))
  {
    var stored := PushRequest(db, env, clientId, client, bodyClientId, params, uri, pushedAt).1;
    assert ReadPar(stored, uri, c, readAt)
           == (if c == clientId && readAt < pushedAt + env.parTtl * 1000
               then Success(params) else Failure(ValidationError));
  }

  /** A pushed request that led to a code is spent; one that led to the consent page is still there. */
  lemma PushedRequestIsSpentByACode(db: Db, env: Env, userId: string, uri: string, c: string, readAt: int, now: int,
                                    usedAt: int,
                                    plain: string, later: int)
    requires AuthorizeWithPar(db, env, userId, uri, c, readAt, now, usedAt, plain).0.Success?
    ensures var (r, db') := AuthorizeWithPar(db, env, userId, uri, c, readAt, now, usedAt, plain);
            && (r.value.Redirect? ==> forall c2 :: ReadPar(db', uri, c2, later) == Failure(ValidationError))
            && (!r.value.Redirect? ==> db' == db)
  {
  }

  // ---------------------------------------------------------------------------------------------
  // Refresh exchanges
  // ---------------------------------------------------------------------------------------------

  /**
   A refresh exchange touches the token table, be it to rotate or to kill a family, only for a stored
   token whose client exists, is the one named, has proven itself and asks for no more than the
   token's scope. It touches that token's family only.
   */
  lemma RefreshIsAuthorized(db: Db, env: Env, req: RefreshRequest, caller: Caller, jkt: Option<string>, now: int,
                            now2: int,
                            newPlain: string, dbNow: int)
    requires Keyed(db.tokens)
    ensures var (r, db') := RefreshExchange(db, env, req, caller, jkt, now, now2, newPlain, dbNow);
            r.Success? || db' != db ==>
              && Sha256(req.token) in db.tokens
              && var row := db.tokens[Sha256(req.token)];
              && row.clientId in db.clients
              && (req.clientId.None? || req.clientId.value == row.clientId)
              && (db.clients[row.clientId].isConfidential
                  ==> caller.authenticated == Some(row.clientId) || caller.secretMatches)
              && (WantsScope(req.scope) ==> ScopeSet(req.scope.value) <= ScopeSet(row.scope))
              && db' == db.(tokens := db'.tokens)
              && (forall d | d in db.tokens && db.tokens[d].familyId != row.familyId ::
                    d in db'.tokens && db'.tokens[d] == db.tokens[d])
  {
    RotationStaysInFamily(db.tokens, req.token, env.refreshGracePeriod, now, now2, jkt, newPlain, dbNow);
    RefreshOutcome(db, env, req, caller, jkt, now, now2, newPlain, dbNow);
  }

  /** A refresh exchange writes only what its rotation writes, and only once it has been admitted. */
  lemma RefreshOutcome(db: Db, env: Env, req: RefreshRequest, caller: Caller, jkt: Option<string>, now: int, now2: int,
                       newPlain: string, dbNow: int)
    ensures var (r, db') := RefreshExchange(db, env, req, caller, jkt, now, now2, newPlain, dbNow);
            var t := RotateSerially(db.tokens, req.token, env.refreshGracePeriod, now, now2, jkt, newPlain, dbNow).1;
            && (r.Success? || db' != db ==> AdmitRefresh(db, req, caller).Success? && db' == db.(tokens := t))
  {
  }

  lemma RotationStaysInFamily(t: Table, token: string, grace: int, now: int, now2: int, jkt: Option<string>,
                              newPlain: string, dbNow: int)
    requires Keyed(t)
    ensures var t' := RotateSerially(t, token, grace, now, now2, jkt, newPlain, dbNow).1;
            Sha256(token) in t ==>
              forall d | d in t && t[d].familyId != t[Sha256(token)].familyId :: d in t' && t'[d] == t[d]
  {
  }

  /** What a successful exchange answers: the narrowed scope if one was asked for, else the token's own. */
  lemma RefreshAnswers(db: Db, env: Env, req: RefreshRequest, caller: Caller, jkt: Option<string>, now: int, now2: int,
                       newPlain: string, dbNow: int)
    requires Keyed(db.tokens)
    requires RefreshExchange(db, env, req, caller, jkt, now, now2, newPlain, dbNow).0.Success?
    ensures var r := RefreshExchange(db, env, req, caller, jkt, now, now2, newPlain, dbNow).0.value;
            && Sha256(req.token) in db.tokens
            && var row := db.tokens[Sha256(req.token)];
            && r.clientId == row.clientId && r.refreshToken == newPlain && r.dpop == jkt.Some?
            && ScopeSet(r.scope) == (if WantsScope(req.scope) then ScopeSet(req.scope.value) else ScopeSet(row.scope))
  {
    if req.scope.Some? {
      TrimKeepsScopes(req.scope.value);
    }
    RotationAnswersNewPlain(db.tokens, req.token, env.refreshGracePeriod, now, now2, jkt, newPlain, dbNow);
  }

  /**
   The refresh token of a new bundle can be exchanged by its client, with the bundle's own key, until
   it expires; the new answer is for the code's user and scope.
   */
  lemma FreshBundleRefreshes(db: Db, env: Env, code: Code, familyId: string, plain: string, jkt: Option<string>,
                             now: int, dbNow: int,
                             req: RefreshRequest, caller: Caller, presented: Option<string>, at: int, at2: int,
                               newPlain: string, dbAt: int)
    requires IssueFamily(db, env, code, familyId, plain, jkt, now, dbNow).0.Success?
    requires req.token == plain && newPlain != plain && Sha256(newPlain) !in db.tokens
    requires code.clientId in db.clients && ClientProven(db.clients[code.clientId], code.clientId, caller)
    requires req.clientId.None? || req.clientId.value == code.clientId
    requires WantsScope(req.scope) ==> ScopeSet(req.scope.value) <= ScopeSet(code.scope)
    ensures var db1 := IssueFamily(db, env, code, familyId, plain, jkt, now, dbNow).1;
            RefreshExchange(db1, env, req, caller, presented, at, at2, newPlain, dbAt).0
            == (if jkt.Some? && presented != jkt then Failure(Token(BindingMismatch))
                else if now + env.refreshTokenTtl * 1000 <= at then Failure(Token(InvalidToken))
                else Success(TokenResponse(code.userId, code.clientId,
                                           if WantsScope(req.scope) then Trim(req.scope.value) else code.scope,
                                           newPlain, presented.Some?)))
  {
    var p := CreateParams(code.clientId, code.userId, code.scope, env.refreshTokenTtl, familyId, jkt);
    CreatedTokenRotates(db.tokens, plain, p, now, dbNow, env.refreshGracePeriod, at, at2, presented, newPlain, dbAt);
    var t1 := db.tokens[Sha256(plain) := NewRow(plain, p, now, dbNow)];
    assert IssueFamily(db, env, code, familyId, plain, jkt, now, dbNow).1 == db.(tokens := t1);
    var (r, t2) := RotateSerially(t1, plain, env.refreshGracePeriod, at, at2, presented, newPlain, dbAt);
    assert t1[Sha256(plain)].clientId == code.clientId;
  }

  lemma RotationAnswersNewPlain(t: Table, token: string, grace: int, now: int, now2: int, jkt: Option<string>,
                                newPlain: string, dbNow: int)
    ensures var r := RotateSerially(t, token, grace, now, now2, jkt, newPlain, dbNow).0;
            r.Success? ==> r.value == newPlain
  {
  }

  // ---------------------------------------------------------------------------------------------
  // The service
  // ---------------------------------------------------------------------------------------------

  class OAuthService {
    const env: Env
    var clients: map<string, Client>
    var grants: seq<Grant>
    var codes: map<Digest, Code>
    var pars: map<string, Par>
    var tokens: Table

    ghost function Tables(): Db
      reads this
    {
      Db(clients, grants, codes, pars, tokens)
    }

    constructor (env: Env)
      ensures this.env == env && Tables() == Db(map[], [], map[], map[], map[])
    {
      this.env := env;
      clients, grants, codes, pars, tokens := map[], [], map[], map[], map[];
    }

    method LoadMergedConsentScopes(userId: string, clientId: string) returns (merged: set<string>)
      ensures merged == GrantedScopes(grants, userId, clientId)
    {
      merged := {};
      for i := 0 to |grants|
        invariant merged == GrantedScopes(grants[..i], userId, clientId)
      {
        assert grants[..i + 1][..i] == grants[..i];
        var r := grants[i];
        if r.userId == userId && r.clientId == clientId && r.revokedAt.None? {
          var words := ParseScope(r.scope);
          var before := merged;
          for k := 0 to |words|
            invariant merged == before + (set w | w in words[..k])
          {
            assert words[..k + 1] == words[..k] + [words[k]];
            merged := merged + {words[k]};
          }
          assert words[..|words|] == words;
        }
      }
      assert grants[..|grants|] == grants;
    }

    method CheckGuards(client: Client, redirectUri: string, scope: string) returns (e: Option<OAuthError>)
      ensures e == Guard(client, redirectUri, scope)
    {
      if client.suspended {
        return Some(ForbiddenError);
      }
      if "authorization_code" !in client.grantTypes {
        return Some(ValidationError);
      }
      if "code" !in client.responseTypes {
        return Some(ValidationError);
      }
      if redirectUri !in client.redirectUris {
        return Some(ValidationError);
      }
      var ok := ScopeSubset(scope, client.scope);
      e := if ok then None else Some(ValidationError);
    }

    method IssueAuthorizationCode(userId: string, q: Query, now: int, plain: string)
      returns (r: Result<AuthorizeResult, OAuthError>)
      modifies this`codes
      ensures (r, Tables()) == IssueCode(old(Tables()), env, userId, q, now, plain)
    {
      var codeHash := Sha256(plain);
      var expiresAt := now + env.authCodeTtl * 1000;
      if codeHash in codes {
        return Failure(UniqueColumn);
      }
      codes := codes[codeHash := Code(codeHash, q.clientId, userId, q.redirectUri, q.scope, q.challenge,
                                      q.nonce, q.state, expiresAt, None)];
      r := Success(Redirect(plain));
    }

    method AuthorizeRequest(userId: string, q: Query, now: int, plain: string)
      returns (r: Result<AuthorizeResult, OAuthError>)
      modifies this`codes
      ensures (r, Tables()) == Authorize(old(Tables()), env, userId, q, now, plain)
    {
      if q.challenge.Other? && Trim(q.challenge.text) == "" {
        return Failure(ValidationError);
      }
      if q.clientId !in clients {
        return Failure(NotFoundError);
      }
      var client := clients[q.clientId];
      var guard := CheckGuards(client, q.redirectUri, q.scope);
      if guard.Some? {
        return Failure(guard.value);
      }
      if client.isFirstParty {
        r := IssueAuthorizationCode(userId, q, now, plain);
        return;
      }
      var merged := LoadMergedConsentScopes(userId, q.clientId);
      var covered := ConsentCovers(merged, q.scope);
      if !covered {
        return Success(ConsentRequired(q.scope));
      }
      r := IssueAuthorizationCode(userId, q, now, plain);
    }

    method AuthorizeWithParRequest(userId: string, uri: string, clientId: string, readAt: int, now: int, usedAt: int,
                                   plain: string)
      returns (r: Result<AuthorizeResult, OAuthError>)
      modifies this`codes, this`pars
      ensures (r, Tables()) == AuthorizeWithPar(old(Tables()), env, userId, uri, clientId, readAt, now, usedAt, plain)
    {
      if clientId !in clients {
        return Failure(NotFoundError);
      }
      if uri !in pars {
        return Failure(ValidationError);
      }
      var row := pars[uri];
      if row.clientId != clientId {
        return Failure(ValidationError);
      }
      if row.expiresAt <= readAt {
        return Failure(ValidationError);
      }
      if row.usedAt.Some? {
        return Failure(ValidationError);
      }
      var p := row.params;
      var q := Query(clientId, p.redirectUri, p.scope, p.challenge,
                     if p.state.Some? then p.state.value else "", p.nonce);
      r := AuthorizeRequest(userId, q, now, plain);
      if r.Success? && r.value.Redirect? {
        pars := pars[uri := pars[uri].(usedAt := Some(usedAt))];
      }
    }

    method PushAuthorizationRequest(clientId: string, client: Client, bodyClientId: string, params: ParParams,
                                    uri: string, now: int)
      returns (r: Result<string, OAuthError>)
      modifies this`pars
      ensures (r, Tables()) == PushRequest(old(Tables()), env, clientId, client, bodyClientId, params, uri, now)
    {
      if bodyClientId != clientId {
        return Failure(UnauthorizedError);
      }
      var guard := CheckGuards(client, params.redirectUri, params.scope);
      if guard.Some? {
        return Failure(guard.value);
      }
      if uri in pars {
        return Failure(UniqueColumn);
      }
      pars := pars[uri := Par(clientId, params, now + env.parTtl * 1000, None)];
      r := Success(uri);
    }

    method SubmitConsentDecision(userId: string, q: Query, approve: bool, now: int, plain: string)
      returns (r: Result<AuthorizeResult, OAuthError>)
      modifies this`codes, this`grants
      ensures (r, Tables()) == SubmitConsent(old(Tables()), env, userId, q, approve, now, plain)
    {
      if q.clientId !in clients {
        return Failure(NotFoundError);
      }
      var guard := CheckGuards(clients[q.clientId], q.redirectUri, q.scope);
      if guard.Some? {
        return Failure(guard.value);
      }
      if !approve {
        return Success(Denied);
      }
      grants := grants + [Grant(userId, q.clientId, q.scope, None)];
      r := IssueAuthorizationCode(userId, q, now, plain);
    }

    method RevokeConsentOf(userId: string, clientId: string, now: int, now2: int) returns (r: Result<(), OAuthError>)
      modifies this`grants, this`tokens
      ensures (r, Tables()) == RevokeConsent(old(Tables()), userId, clientId, now, now2)
    {
      if clientId !in clients {
        return Failure(NotFoundError);
      }
      if !exists i :: 0 <= i < |grants| && Live(grants[i], userId, clientId) {
        return Failure(NotFoundError);
      }
      grants := RevokeGrants(grants, userId, clientId, now);
      tokens := RevokeWhere(tokens, ByClientUser(clientId, userId), now2);
      r := Success(());
    }

    method RedeemAuthorizationCode(req: CodeRequest, caller: Caller, now: int, usedAt: int)
      returns (r: Result<Code, OAuthError>)
      modifies this`codes
      ensures (r, Tables()) == RedeemCode(old(Tables()), req, caller, now, usedAt)
    {
      var codeHash := Sha256(req.code);
      if codeHash !in codes {
        return Failure(UnauthorizedError);
      }
      var row := codes[codeHash];
      if row.usedAt.Some? {
        return Failure(UnauthorizedError);
      }
      if row.expiresAt <= now {
        return Failure(UnauthorizedError);
      }
      if row.redirectUri != req.redirectUri {
        return Failure(UnauthorizedError);
      }
      if row.clientId !in clients {
        return Failure(UnauthorizedError);
      }
      var client := clients[row.clientId];
      if req.clientId.Some? && req.clientId.value != row.clientId {
        return Failure(UnauthorizedError);
      }
      if client.isConfidential && caller.authenticated != Some(row.clientId) && !caller.secretMatches {
        return Failure(UnauthorizedError);
      }
      if !VerifyCodeChallenge(req.verifier, row.challenge) {
        return Failure(UnauthorizedError);
      }
      codes := codes[codeHash := row.(usedAt := Some(usedAt))];
      r := Success(row);
    }

    method IssueRefreshFamily(row: Code, familyId: string, plain: string, jkt: Option<string>, now: int, dbNow: int)
      returns (r: Result<TokenResponse, OAuthError>)
      modifies this`tokens
      ensures (r, Tables()) == IssueFamily(old(Tables()), env, row, familyId, plain, jkt, now, dbNow)
    {
      var params := CreateParams(row.clientId, row.userId, row.scope, env.refreshTokenTtl, familyId, jkt);
      var created := NewRow(plain, params, now, dbNow);
      if created.token in tokens {
        return Failure(Token(UniqueViolation));
      }
      tokens := tokens[created.token := created];
      r := Success(TokenResponse(row.userId, row.clientId, row.scope, plain, jkt.Some?));
    }

    method ExchangeRefreshToken(req: RefreshRequest, caller: Caller, jkt: Option<string>, now: int, now2: int,
                                newPlain: string, dbNow: int)
      returns (r: Result<TokenResponse, OAuthError>)
      modifies this`tokens
      ensures (r, Tables()) == RefreshExchange(old(Tables()), env, req, caller, jkt, now, now2, newPlain, dbNow)
    {
      var incomingHash := Sha256(req.token);
      if incomingHash !in tokens {
        return Failure(UnauthorizedError);
      }
      var rtRow := tokens[incomingHash];
      if rtRow.clientId !in clients {
        return Failure(NotFoundError);
      }
      if req.clientId.Some? && req.clientId.value != rtRow.clientId {
        return Failure(UnauthorizedError);
      }
      if !ClientProven(clients[rtRow.clientId], rtRow.clientId, caller) {
        return Failure(UnauthorizedError);
      }
      var effectiveScope := rtRow.scope;
      if req.scope.Some? && Trim(req.scope.value) != "" {
        var ok := ScopeSubset(req.scope.value, rtRow.scope);
        if !ok {
          return Failure(ValidationError);
        }
        effectiveScope := Trim(req.scope.value);
      }
      var (rotated, t) := RotateSerially(tokens, req.token, env.refreshGracePeriod, now, now2, jkt, newPlain, dbNow);
      tokens := t;
      if rotated.Failure? {
        return Failure(Token(rotated.error));
      }
      var newHash := Sha256(rotated.value);
      if newHash !in tokens {
        return Failure(UnauthorizedError);
      }
      r := Success(TokenResponse(tokens[newHash].userId, rtRow.clientId, effectiveScope, rotated.value, jkt.Some?));
    }

    method RevokeToken(token: string, hintAccessToken: bool, now: int)
      modifies this`tokens
      ensures Tables() == if hintAccessToken then old(Tables())
                          else old(Tables()).(tokens := RevokeWhere(old(tokens), ByToken(Sha256(token)), now))
    {
      if hintAccessToken {
        return;
      }
      tokens := RevokeWhere(tokens, ByToken(Sha256(token)), now);
    }

    method ExchangeClientCredentials(client: Option<Client>, scope: Option<string>)
      returns (r: Result<string, OAuthError>)
      ensures r == ClientCredentialsScope(client, scope)
    {
      if client.None? {
        return Failure(UnauthorizedError);
      }
      var c := client.value;
      if !c.isConfidential {
        return Failure(ValidationError);
      }
      if c.suspended {
        return Failure(ForbiddenError);
      }
      if "client_credentials" !in c.grantTypes {
        return Failure(ValidationError);
      }
      if scope.None? || Trim(scope.value) == "" {
        return Success(c.scope);
      }
      var requested := Trim(scope.value);
      var ok := ScopeSubset(requested, c.scope);
      if !ok {
        return Failure(ValidationError);
      }
      r := Success(requested);
    }
  }
}
