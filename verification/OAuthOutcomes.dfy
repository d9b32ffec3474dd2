/**
 What each OAuth endpoint answers and stores, in the terms of its caller: exactly when it succeeds,
 which error it gives otherwise, and what that changes
 (apps/server/src/modules/oauth/oauth.authorize.ts, oauth.token.ts, par.service.ts).
 */
module OAuthOutcomes {
  import opened Common
  import JsText
  import opened OAuthServices
  import opened RefreshTokens
  import opened Scopes

  // ---------------------------------------------------------------------------------------------
  // Authorization and consent
  // ---------------------------------------------------------------------------------------------

  /** The error for a client that may not ask: suspension is told apart from everything else. */
  function GuardError(client: Client): OAuthError {
    if client.suspended then ForbiddenError else ValidationError
  }

  lemma GuardAnswers(client: Client, redirectUri: string, scope: string)
    ensures Guard(client, redirectUri, scope)
            == if MayAsk(client, redirectUri, scope) then None else Some(GuardError(client))
  {
  }

  /** The refusals of an authorization request: which error, and that nothing is stored. */
  lemma AuthorizeRefusals(db: Db, env: Env, userId: string, q: Query, now: int, plain: string)
    ensures var (r, db') := Authorize(db, env, userId, q, now, plain);
            && (r.Failure? ==> db' == db)
            && (ChallengeMissing(q.challenge) ==> r == Failure(ValidationError))
            && (!ChallengeMissing(q.challenge) && q.clientId !in db.clients ==> r == Failure(NotFoundError))
            && (!ChallengeMissing(q.challenge) && q.clientId in db.clients
                && !MayAsk(db.clients[q.clientId], q.redirectUri, q.scope) ==>
                  r == Failure(GuardError(db.clients[q.clientId])))
            && (r == Failure(UniqueColumn) ==> Sha256(plain) in db.codes)
  {
    if q.clientId in db.clients {
      GuardAnswers(db.clients[q.clientId], q.redirectUri, q.scope);
    }
  }

  /** A challenge is missing exactly if its text is blank. */
  lemma MissingChallengeIsBlank(c: Challenge)
    ensures ChallengeMissing(c) <==> c.Other? && forall i | 0 <= i < |c.text| :: JsText.IsSpace(c.text[i])
  {
    if c.Other? {
      TrimsToNothing(c.text);
    }
  }

  /**
   A consent: an approval stores the grant and then the code, a denial and a refusal store nothing.
   If the random code is taken, the grant stays although the call fails.
   */
  lemma ConsentExactly(db: Db, env: Env, userId: string, q: Query, approve: bool, now: int, plain: string)
    ensures var (r, db') := SubmitConsent(db, env, userId, q, approve, now, plain);
            var granted := db.(grants := db.grants + [Grant(userId, q.clientId, q.scope, None)]);
            var code := Code(Sha256(plain), q.clientId, userId, q.redirectUri, q.scope, q.challenge, q.nonce, q.state,
                             now + env.authCodeTtl * 1000, None);
            if q.clientId !in db.clients then r == Failure(NotFoundError) && db' == db
            else if !MayAsk(db.clients[q.clientId], q.redirectUri, q.scope)
            then r == Failure(GuardError(db.clients[q.clientId])) && db' == db
            else if !approve then r == Success(Denied) && db' == db
            else if Sha256(plain) in db.codes then r == Failure(UniqueColumn) && db' == granted
            else r == Success(Redirect(plain)) && db' == granted.(codes := db.codes[Sha256(plain) := code])
  {
    if q.clientId in db.clients {
      GuardAnswers(db.clients[q.clientId], q.redirectUri, q.scope);
    }
  }

  /** Withdrawing a consent succeeds exactly if the client exists and the user has an unrevoked grant to it. */
  lemma RevocationSucceedsExactly(db: Db, userId: string, clientId: string, now: int, now2: int)
    ensures var (r, db') := RevokeConsent(db, userId, clientId, now, now2);
            && (r.Success? <==>
                  && clientId in db.clients
                  && exists g :: g in db.grants && g.userId == userId && g.clientId == clientId && g.revokedAt.None?)
            && (r.Failure? ==> r.error == NotFoundError && db' == db)
            && db' == db.(grants := db'.grants, tokens := db'.tokens)
  {
    if g :| g in db.grants && g.userId == userId && g.clientId == clientId && g.revokedAt.None? {
      var i :| 0 <= i < |db.grants| && db.grants[i] == g;
      assert Live(db.grants[i], userId, clientId);
    }
  }

  /** What a withdrawal stamps: the pair's unrevoked grants and tokens, each with its own reading of the clock. */
  lemma RevocationStamps(db: Db, userId: string, clientId: string, now: int, now2: int)
    requires RevokeConsent(db, userId, clientId, now, now2).0.Success?
    ensures var db' := RevokeConsent(db, userId, clientId, now, now2).1;
            && |db'.grants| == |db.grants|
            && (forall i | 0 <= i < |db.grants| ::
                  var g := db.grants[i];
                  db'.grants[i] == if g.userId == userId && g.clientId == clientId && g.revokedAt.None?
                                   then g.(revokedAt := Some(now)) else g)
            && db'.tokens.Keys == db.tokens.Keys
            && (forall d | d in db.tokens ::
                  var t := db.tokens[d];
                  db'.tokens[d] == if t.userId == userId && t.clientId == clientId && t.revokedAt.None?
                                   then t.(revokedAt := Some(now2)) else t)
  {
  }

  /** What was approved can be withdrawn, once. */
  lemma ApprovedConsentCanBeWithdrawn(db: Db, env: Env, userId: string, q: Query, now: int, plain: string, later: int,
                                      later2: int, again: int, again2: int)
    requires SubmitConsent(db, env, userId, q, true, now, plain).0.Success?
    ensures var db1 := SubmitConsent(db, env, userId, q, true, now, plain).1;
            var (r, db2) := RevokeConsent(db1, userId, q.clientId, later, later2);
            && r.Success?
            && RevokeConsent(db2, userId, q.clientId, again, again2).0 == Failure(NotFoundError)
  {
    ConsentExactly(db, env, userId, q, true, now, plain);
    var db1 := SubmitConsent(db, env, userId, q, true, now, plain).1;
    RevocationSucceedsExactly(db1, userId, q.clientId, later, later2);
    var g := Grant(userId, q.clientId, q.scope, None);
    assert db1.grants[|db.grants|] == g && g in db1.grants;
    RevocationStamps(db1, userId, q.clientId, later, later2);
  }

  // ---------------------------------------------------------------------------------------------
  // Pushed requests
  // ---------------------------------------------------------------------------------------------

  /** A push stores its parameters for its client and lifetime, unused, exactly if the client may ask for them. */
  lemma PushExactly(db: Db, env: Env, clientId: string, client: Client, bodyClientId: string, params: ParParams,
                    uri: string, now: int)
    ensures var (r, db') := PushRequest(db, env, clientId, client, bodyClientId, params, uri, now);
            if bodyClientId != clientId then r == Failure(UnauthorizedError) && db' == db
            else if !MayAsk(client, params.redirectUri, params.scope)
            then r == Failure(GuardError(client)) && db' == db
            else if uri in db.pars then r == Failure(UniqueColumn) && db' == db
            else && r == Success(uri)
                 && db' == db.(pars := db.pars[uri := Par(clientId, params, now + env.parTtl * 1000, None)])
  {
    GuardAnswers(client, params.redirectUri, params.scope);
  }

  /**
   A request by URI is refused before authorization exactly for an unknown client, or a URI that is not
   its own, fresh and unused.
   */
  lemma ParRefusals(db: Db, env: Env, userId: string, uri: string, clientId: string, readAt: int, now: int, usedAt: int,
                    plain: string)
    ensures var (r, db') := AuthorizeWithPar(db, env, userId, uri, clientId, readAt, now, usedAt, plain);
            var usable := && uri in db.pars && db.pars[uri].clientId == clientId && readAt < db.pars[uri].expiresAt
                          && db.pars[uri].usedAt.None?;
            if clientId !in db.clients then r == Failure(NotFoundError) && db' == db
            else if !usable then r == Failure(ValidationError) && db' == db
            else r == Authorize(db, env, userId, ParQuery(clientId, db.pars[uri].params), now, plain).0
  {
  }

  /** A stored request is asked for as it was pushed, with an empty state if it had none. */
  lemma ParAsksAsPushed(clientId: string, p: ParParams)
    ensures var q := ParQuery(clientId, p);
            && q.clientId == clientId && q.redirectUri == p.redirectUri && q.scope == p.scope
            && q.challenge == p.challenge && q.nonce == p.nonce
            && q.state == match p.state case Some(state) => state case None => ""
  {
  }

  /** Every refused redemption gets the one error, which does not tell why, and changes nothing. */
  lemma RedeemRefusals(db: Db, req: CodeRequest, caller: Caller, now: int, usedAt: int)
    ensures var (r, db') := RedeemCode(db, req, caller, now, usedAt);
            r.Failure? ==> r.error == UnauthorizedError && db' == db
  {
  }

  // ---------------------------------------------------------------------------------------------
  // Token bundles and client credentials
  // ---------------------------------------------------------------------------------------------

  /** The bundle of a code: an unrevoked token of its own family for the code's client, user and scope. */
  lemma BundleExactly(db: Db, env: Env, code: Code, familyId: string, plain: string, jkt: Option<string>, now: int,
                      dbNow: int)
    ensures var (r, db') := IssueFamily(db, env, code, familyId, plain, jkt, now, dbNow);
            var row := Row(Sha256(plain), code.clientId, code.userId, code.scope, now + env.refreshTokenTtl * 1000,
                           None, None, jkt, familyId, dbNow);
            if Sha256(plain) in db.tokens then r.Failure? && db' == db
            else && r == Success(TokenResponse(code.userId, code.clientId, code.scope, plain, jkt.Some?))
                 && db' == db.(tokens := db.tokens[Sha256(plain) := row])
  {
  }

  /** An optional scope asks for something exactly if it names a scope word. */
  lemma WantingIsNaming(scope: Option<string>)
    ensures WantsScope(scope) <==> scope.Some? && ScopeSet(scope.value) != {}
  {
    if scope.Some? {
      BlankHasNoScopes(scope.value);
    }
  }

  /** Client credentials: who may have them, for which scopes, and which error everybody else gets. */
  lemma ClientCredentialsExactly(client: Option<Client>, scope: Option<string>)
    ensures var r := ClientCredentialsScope(client, scope);
            if client.None? then r == Failure(UnauthorizedError)
            else if !client.value.isConfidential then r == Failure(ValidationError)
            else if client.value.suspended then r == Failure(ForbiddenError)
            else if "client_credentials" !in client.value.grantTypes then r == Failure(ValidationError)
            else if scope.None? || ScopeSet(scope.value) == {} then r == Success(client.value.scope)
            else if !(ScopeSet(scope.value) <= ScopeSet(client.value.scope)) then r == Failure(ValidationError)
            else r.Success? && ScopeSet(r.value) == ScopeSet(scope.value)
  {
    WantingIsNaming(scope);
    if scope.Some? {
      TrimKeepsScopes(scope.value);
    }
  }

  // ---------------------------------------------------------------------------------------------
  // Refresh exchanges
  // ---------------------------------------------------------------------------------------------

  /**
   Whose token it is: the row's client exists, is the one named if one is named, and is public or has
   proven itself.
   */
  ghost predicate OfItsClient(db: Db, req: RefreshRequest, caller: Caller) {
    && Sha256(req.token) in db.tokens
    && var row := db.tokens[Sha256(req.token)];
    && row.clientId in db.clients
    && (req.clientId.Some? ==> req.clientId.value == row.clientId)
    && (db.clients[row.clientId].isConfidential ==>
          caller.authenticated == Some(row.clientId) || caller.secretMatches)
  }

  /**
   The request is its client's and asks for no more than the token's scope; whether the token is revoked
   does not matter.
   */
  ghost predicate Entitled(db: Db, req: RefreshRequest, caller: Caller) {
    && OfItsClient(db, req, caller)
    && (req.scope.Some? ==> ScopeSet(req.scope.value) <= ScopeSet(db.tokens[Sha256(req.token)].scope))
  }

  /**
   The endpoint adds nothing to the rotation for a request that is entitled, and gives errors of its
   own exactly to requests that are not.
   */
  lemma RefreshIsTheRotation(db: Db, env: Env, req: RefreshRequest, caller: Caller, jkt: Option<string>, now: int,
                             now2: int, plain: string, dbNow: int)
    ensures var (r, db') := RefreshExchange(db, env, req, caller, jkt, now, now2, plain, dbNow);
            var (rotated, t) := RotateSerially(db.tokens, req.token, env.refreshGracePeriod, now, now2, jkt, plain,
                                               dbNow);
            && (Entitled(db, req, caller) ==>
                  && db' == db.(tokens := t)
                  && (r.Success? <==> rotated.Success?)
                  && (r.Failure? ==> r.error == Token(rotated.error)))
            && (!Entitled(db, req, caller) <==> r.Failure? && !r.error.Token?)
            && (!Entitled(db, req, caller) ==> db' == db)
  {
    WantingIsNaming(req.scope);
    RotationStores(db.tokens, req.token, env.refreshGracePeriod, now, now2, jkt, plain, dbNow);
  }

  lemma RotationStores(t: Table, token: string, grace: int, now: int, now2: int, jkt: Option<string>, plain: string,
                       dbNow: int)
    ensures var (r, t') := RotateSerially(t, token, grace, now, now2, jkt, plain, dbNow);
            r.Success? ==> r.value == plain && Sha256(plain) in t'
  {
  }

  /** Which of its own errors the endpoint gives. */
  lemma RefreshRefusals(db: Db, env: Env, req: RefreshRequest, caller: Caller, jkt: Option<string>, now: int, now2: int,
                        plain: string, dbNow: int)
    ensures var r := RefreshExchange(db, env, req, caller, jkt, now, now2, plain, dbNow).0;
            && (r == Failure(NotFoundError) <==>
                  Sha256(req.token) in db.tokens && db.tokens[Sha256(req.token)].clientId !in db.clients)
            && (r == Failure(ValidationError) <==> OfItsClient(db, req, caller) && !Entitled(db, req, caller))
            && (r == Failure(UnauthorizedError) <==>
                  Sha256(req.token) !in db.tokens
                  || (db.tokens[Sha256(req.token)].clientId in db.clients && !OfItsClient(db, req, caller)))
  {
    WantingIsNaming(req.scope);
    RotationStores(db.tokens, req.token, env.refreshGracePeriod, now, now2, jkt, plain, dbNow);
  }

  /** Presenting a retired token at the endpoint after its grace window is answered as reuse, and kills its family. */
  lemma ReuseAtTheEndpoint(db: Db, env: Env, req: RefreshRequest, caller: Caller, jkt: Option<string>, now: int,
                           now2: int, plain: string, dbNow: int)
    requires Entitled(db, req, caller)
    ensures var (r, db') := RefreshExchange(db, env, req, caller, jkt, now, now2, plain, dbNow);
            var row := db.tokens[Sha256(req.token)];
            && (r == Failure(Token(ReuseDetected)) <==>
                  row.revokedAt.Some? && now >= row.revokedAt.value + env.refreshGracePeriod * 1000)
            && (r == Failure(Token(ReuseDetected)) ==>
                  && db'.tokens.Keys == db.tokens.Keys
                  && forall d | d in db'.tokens && db'.tokens[d].familyId == row.familyId ::
                    db'.tokens[d].revokedAt.Some?)
  {
    RefreshIsTheRotation(db, env, req, caller, jkt, now, now2, plain, dbNow);
    ReuseIsReportedExactly(db.tokens, req.token, env.refreshGracePeriod, now, now2, jkt, plain, dbNow);
  }

  /** Two exchanges of one plaintext at the endpoint, the second inside the grace window, both succeed. */
  lemma RetryAtTheEndpoint(db: Db, env: Env, req: RefreshRequest, caller: Caller, jkt: Option<string>, now: int,
                           b: string,
                           retryAt: int, c: string, dbNow: int, dbRetry: int)
    requires Keyed(db.tokens) && Entitled(db, req, caller) && db.tokens[Sha256(req.token)].revokedAt.None?
    requires db.tokens[Sha256(req.token)].dpopJkt.Some? ==> jkt == db.tokens[Sha256(req.token)].dpopJkt
    requires now < db.tokens[Sha256(req.token)].expiresAt
    requires Sha256(b) !in db.tokens && Sha256(c) !in db.tokens && b != c
    requires retryAt < now + env.refreshGracePeriod * 1000 && retryAt < now + TtlMs(db.tokens[Sha256(req.token)])
    ensures var (first, db1) := RefreshExchange(db, env, req, caller, jkt, now, now, b, dbNow);
            var (second, db2) := RefreshExchange(db1, env, req, caller, jkt, retryAt, retryAt, c, dbRetry);
            && first.Success? && first.value.refreshToken == b
            && second.Success? && second.value.refreshToken == c
  {
    var t := db.tokens;
    RefreshIsTheRotation(db, env, req, caller, jkt, now, now, b, dbNow);
    RetryInsideGraceSucceeds(t, req.token, env.refreshGracePeriod, jkt, now, b, retryAt, c, dbNow, dbRetry);
    RotationAnswersNewPlain(t, req.token, env.refreshGracePeriod, now, now, jkt, b, dbNow);
    var db1 := RefreshExchange(db, env, req, caller, jkt, now, now, b, dbNow).1;
    PresentedRowKeepsGrant(t, req.token, env.refreshGracePeriod, now, now, jkt, b, dbNow);
    RefreshIsTheRotation(db1, env, req, caller, jkt, retryAt, retryAt, c, dbRetry);
    SuccessAnswersRotated(db, env, req, caller, jkt, now, now, b, dbNow);
    SuccessAnswersRotated(db1, env, req, caller, jkt, retryAt, retryAt, c, dbRetry);
  }

  lemma PresentedRowKeepsGrant(t: Table, token: string, grace: int, now: int, now2: int, jkt: Option<string>,
                               plain: string, dbNow: int)
    requires Keyed(t) && Sha256(token) in t
    ensures var t' := RotateSerially(t, token, grace, now, now2, jkt, plain, dbNow).1;
            && Sha256(token) in t'
            && t'[Sha256(token)].clientId == t[Sha256(token)].clientId
              && t'[Sha256(token)].scope == t[Sha256(token)].scope
  {
  }

  lemma SuccessAnswersRotated(db: Db, env: Env, req: RefreshRequest, caller: Caller, jkt: Option<string>, now: int,
                              now2: int, plain: string, dbNow: int)
    ensures var r := RefreshExchange(db, env, req, caller, jkt, now, now2, plain, dbNow).0;
            r.Success? ==> r.value.refreshToken == plain
  {
    RotationStores(db.tokens, req.token, env.refreshGracePeriod, now, now2, jkt, plain, dbNow);
  }

  /**
   Revoking a token at the endpoint touches that token only, whatever its family; an access-token hint
   touches none.
   */
  lemma ByTokenRevokesOne(t: Table, token: string, now: int)
    requires Keyed(t)
    ensures var t' := RevokeWhere(t, ByToken(Sha256(token)), now);
            && t'.Keys == t.Keys
            && (forall d | d in t ::
                  t'[d] == if d == Sha256(token) && t[d].revokedAt.None? then t[d].(revokedAt := Some(now)) else t[d])
  {
  }
}
