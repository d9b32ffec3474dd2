/**
 Whole runs of the OAuth service: where every issued scope comes from, and what is used only once.

 The state is the tables plus a history that no endpoint reads: what was true when each code was
 issued, which codes were redeemed, which of them still wait for their token bundle, and which code
 each refresh family grew from. Authorization, consent and redemption are one call each. The token
 bundle of a redeemed code is a call of its own, and a refresh exchange is split into the checks on
 what it reads first, the interleaved steps of its rotation (RefreshFamilies.dfy) and its answer; so
 anything may happen between those.
 */
module OAuthRuns {
  import opened Common
  import Families = RefreshFamilies
  import opened OAuthServices
  import opened RefreshTokens
  import opened Scopes

  /** What was asked and what was true at the moment a code was issued. */
  datatype Issue = Issue(q: Query, userId: string, at: int, registered: set<string>, firstParty: bool,
                         granted: set<string>,
                         par: Option<string>)

  datatype Redemption = Redemption(code: Digest, verifier: string, redirectUri: string, at: int)

  /** A refresh exchange that has passed its checks: whose it is, what it will answer, and whether it is bound. */
  datatype Exchange = Exchange(clientId: string, scope: string, dpop: bool)

  datatype History = History(
    db: Db,
    requests: map<nat, Families.Request>,
    exchanges: map<nat, Exchange>,
    issues: map<Digest, Issue>,
    redemptions: seq<Redemption>,
    pending: set<Digest>,
    roots: map<string, Digest>,
    responses: seq<TokenResponse>)

  datatype Event =
    | PutClient(clientId: string, client: Client)
    | AuthorizeCall(userId: string, q: Query, now: int, plain: string)
    | ParCall(userId: string, uri: string, clientId: string, readAt: int, now: int, usedAt: int, plain: string)
    | Push(clientId: string, client: Client, bodyClientId: string, params: ParParams, uri: string, now: int)
    | Consent(userId: string, q: Query, approve: bool, now: int, plain: string)
    | Unconsent(userId: string, clientId: string, now: int, now2: int)
    | Redeem(req: CodeRequest, caller: Caller, now: int, usedAt: int)
    | Bundle(code: Digest, familyId: string, plain: string, jkt: Option<string>, now: int, dbNow: int)
    | StartExchange(rid: nat, refresh: RefreshRequest, caller: Caller, jkt: Option<string>, now: int)
    | Advance(step: Families.Event)
    | Answer(rid: nat)
    | Revoke(sel: Selector, now: int)

  const INIT := History(Db(map[], [], map[], map[], map[]), map[], map[], map[], [], {}, map[], [])

  /** The refresh families of a history, with the rotations that are under way. */
  function System(h: History): Families.System {
    Families.System(h.db.tokens, h.requests)
  }

  function WithSystem(h: History, s: Families.System): History {
    h.(db := h.db.(tokens := s.rows), requests := s.requests)
  }

  /** The steps that a rotation takes by itself once it has started. */
  predicate IsRotationStep(e: Families.Event) {
    e.ReadRow? || e.ReadChild? || e.Commit? || e.Kill?
  }

  function IssueNow(db: Db, userId: string, q: Query, at: int, par: Option<string>): Issue
    requires q.clientId in db.clients
  {
    Issue(q, userId, at, ScopeSet(db.clients[q.clientId].scope), db.clients[q.clientId].isFirstParty,
          GrantedScopes(db.grants, userId, q.clientId), par)
  }

  /** Records the issue of a code, if the call issued one. */
  function Issued(h: History, outcome: (Result<AuthorizeResult, OAuthError>, Db), userId: string, q: Query, at: int,
                  par: Option<string>): History
  {
    var (r, db) := outcome;
    if r.Success? && r.value.Redirect? && q.clientId in db.clients
    then h.(db := db, issues := h.issues[Sha256(r.value.code) := IssueNow(db, userId, q, at, par)])
    else h.(db := db)
  }

  ghost function Step(h: History, env: Env, e: Event): History {
    match e
    case PutClient(clientId, client) => h.(db := h.db.(clients := h.db.clients[clientId := client]))
    case AuthorizeCall(userId, q, now, plain) =>
      Issued(h, Authorize(h.db, env, userId, q, now, plain), userId, q, now, None)
    case ParCall(userId, uri, clientId, readAt, now, usedAt, plain) =>
      if uri !in h.db.pars then h
      else Issued(h, AuthorizeWithPar(h.db, env, userId, uri, clientId, readAt, now, usedAt, plain), userId,
                  ParQuery(clientId, h.db.pars[uri].params), now, Some(uri))
    case Push(clientId, client, bodyClientId, params, uri, now) =>
      h.(db := PushRequest(h.db, env, clientId, client, bodyClientId, params, uri, now).1)
    case Consent(userId, q, approve, now, plain) =>
      Issued(h, SubmitConsent(h.db, env, userId, q, approve, now, plain), userId, q, now, None)
    case Unconsent(userId, clientId, now, now2) => h.(db := RevokeConsent(h.db, userId, clientId, now, now2).1)
    case Redeem(req, caller, now, usedAt) =>
      var (r, db) := RedeemCode(h.db, req, caller, now, usedAt);
      if r.Success?
      then h.(db := db, pending := h.pending + {Sha256(req.code)},
              redemptions := h.redemptions + [Redemption(Sha256(req.code), req.verifier, req.redirectUri, now)])
      else h.(db := db)
    case Bundle(d, familyId, plain, jkt, now, dbNow) =>
      if d !in h.pending || d !in h.db.codes || familyId in h.roots then h
      else
        (match IssueFamily(h.db, env, h.db.codes[d], familyId, plain, jkt, now, dbNow)
         case (Success(resp), db) =>
           h.(db := db, pending := h.pending - {d}, roots := h.roots[familyId := d], responses := h.responses + [resp])
         case (Failure(_), _) => h)
    case StartExchange(rid, req, caller, jkt, now) =>
      if rid in h.requests || AdmitRefresh(h.db, req, caller).Failure? then h
      else
        WithSystem(h, Families.Step(System(h), Families.Start(rid, req.token, env.refreshGracePeriod, jkt, now)))
          .(exchanges := h.exchanges[rid := Exchange(h.db.tokens[Sha256(req.token)].clientId,
                                                     AdmitRefresh(h.db, req, caller).value, jkt.Some?)])
    case Advance(step) => if IsRotationStep(step) then WithSystem(h, Families.Step(System(h), step)) else h
    case Answer(rid) =>
      if rid !in h.exchanges || rid !in h.requests || !h.requests[rid].stage.Rotated?
         || Sha256(h.requests[rid].stage.issued) !in h.db.tokens
      then h
      else
        var issued, x := h.requests[rid].stage.issued, h.exchanges[rid];
        h.(exchanges := h.exchanges - {rid},
           responses := h.responses
                        + [TokenResponse(h.db.tokens[Sha256(issued)].userId, x.clientId, x.scope, issued, x.dpop)])
    case Revoke(sel, now) => h.(db := h.db.(tokens := RevokeWhere(h.db.tokens, sel, now)))
  }

  ghost function Run(h: History, env: Env, es: seq<Event>): History
    decreases |es|
  {
    if es == [] then h else Run(Step(h, env, es[0]), env, es[1..])
  }

  // ---------------------------------------------------------------------------------------------
  // The invariant
  // ---------------------------------------------------------------------------------------------

  type Codes = map<Digest, Code>

  /** A code is what was asked for, and stays within what was registered and consented to when it was issued. */
  ghost predicate CodeInv(env: Env, c: Code, d: Digest, i: Issue) {
    && c == Code(d, i.q.clientId, i.userId, i.q.redirectUri, i.q.scope, i.q.challenge, i.q.nonce, i.q.state,
                 i.at + env.authCodeTtl * 1000, c.usedAt)
    && ScopeSet(c.scope) <= i.registered
    && (i.firstParty || ScopeSet(c.scope) <= i.granted)
  }

  ghost predicate CodesInv(env: Env, codes: Codes, issues: map<Digest, Issue>) {
    && codes.Keys == issues.Keys
    && (forall d | d in codes :: CodeInv(env, codes[d], d, issues[d]))
  }

  ghost predicate Used(codes: Codes, d: Digest) {
    d in codes && codes[d].usedAt.Some?
  }

  /** A used code is either waiting for its bundle or the root of exactly one family. */
  ghost predicate UseInv(codes: Codes, pending: set<Digest>, roots: map<string, Digest>) {
    && (forall d :: Used(codes, d) <==> d in pending || d in roots.Values)
    && (forall f | f in roots :: roots[f] !in pending)
    && (forall f, g | f in roots && g in roots && roots[f] == roots[g] :: f == g)
  }

  ghost predicate RedemptionInv(codes: Codes, r: Redemption) {
    && Used(codes, r.code)
    && codes[r.code].challenge == S256(r.verifier)
    && codes[r.code].redirectUri == r.redirectUri
    && r.at < codes[r.code].expiresAt
  }

  ghost predicate RedemptionsInv(codes: Codes, redemptions: seq<Redemption>) {
    && (forall i | 0 <= i < |redemptions| :: RedemptionInv(codes, redemptions[i]))
    && (forall i, j | 0 <= i < j < |redemptions| :: redemptions[i].code != redemptions[j].code)
  }

  ghost predicate Redeemed(redemptions: seq<Redemption>, d: Digest) {
    exists i :: 0 <= i < |redemptions| && redemptions[i].code == d
  }

  ghost predicate UsedAreRedeemed(codes: Codes, redemptions: seq<Redemption>) {
    forall d | Used(codes, d) :: Redeemed(redemptions, d)
  }

  /** A refresh token belongs to a family whose root code has its client, user and scope. */
  ghost predicate RowInv(codes: Codes, roots: map<string, Digest>, row: Row) {
    && row.familyId in roots
    && roots[row.familyId] in codes
    && var c := codes[roots[row.familyId]];
       row.clientId == c.clientId && row.userId == c.userId && row.scope == c.scope
  }

  ghost predicate TokensInv(codes: Codes, roots: map<string, Digest>, tokens: Table) {
    && (forall d | d in tokens :: tokens[d].token == d && RowInv(codes, roots, tokens[d]))
    && (forall f | f in roots :: exists d :: d in tokens && tokens[d].familyId == f)
  }

  ghost predicate ResponseInv(tokens: Table, r: TokenResponse) {
    && Sha256(r.refreshToken) in tokens
    && var row := tokens[Sha256(r.refreshToken)];
       row.clientId == r.clientId && row.userId == r.userId && ScopeSet(r.scope) <= ScopeSet(row.scope)
  }

  ghost predicate ResponsesInv(tokens: Table, responses: seq<TokenResponse>) {
    forall i | 0 <= i < |responses| :: ResponseInv(tokens, responses[i])
  }

  /** An exchange under way presented a stored token of its client and answers no more than that token's scope. */
  ghost predicate ExchangeInv(tokens: Table, requests: map<nat, Families.Request>, rid: nat, x: Exchange) {
    && rid in requests && Sha256(requests[rid].token) in tokens
    && var row := tokens[Sha256(requests[rid].token)];
       row.clientId == x.clientId && ScopeSet(x.scope) <= ScopeSet(row.scope)
  }

  ghost predicate ExchangesInv(tokens: Table, requests: map<nat, Families.Request>, exchanges: map<nat, Exchange>) {
    forall rid | rid in exchanges :: ExchangeInv(tokens, requests, rid, exchanges[rid])
  }

  ghost predicate ParUsed(pars: map<string, Par>, uri: string) {
    uri in pars && pars[uri].usedAt.Some?
  }

  /** A code issued for a pushed request asks for exactly what was pushed. */
  ghost predicate FromPar(pars: map<string, Par>, i: Issue, uri: string) {
    ParUsed(pars, uri) && pars[uri].clientId == i.q.clientId && i.q == ParQuery(pars[uri].clientId, pars[uri].params)
  }

  ghost predicate ParsInv(issues: map<Digest, Issue>, pars: map<string, Par>) {
    && (forall d | d in issues && issues[d].par.Some? :: FromPar(pars, issues[d], issues[d].par.value))
    && (forall d, e | d in issues && e in issues && issues[d].par.Some? && issues[d].par == issues[e].par :: d == e)
  }

  /** A used pushed request is never touched again. */
  ghost predicate ParsKept(pars: map<string, Par>, pars': map<string, Par>) {
    forall uri | ParUsed(pars, uri) :: uri in pars' && pars'[uri] == pars[uri]
  }

  ghost predicate Inv(env: Env, h: History) {
    && CodesInv(env, h.db.codes, h.issues)
    && UseInv(h.db.codes, h.pending, h.roots)
    && RedemptionsInv(h.db.codes, h.redemptions)
    && UsedAreRedeemed(h.db.codes, h.redemptions)
    && TokensInv(h.db.codes, h.roots, h.db.tokens)
    && ResponsesInv(h.db.tokens, h.responses)
    && ParsInv(h.issues, h.db.pars)
    && ExchangesInv(h.db.tokens, h.requests, h.exchanges)
    && Families.Reachable(System(h))
  }

  // ---------------------------------------------------------------------------------------------
  // What the tables keep
  // ---------------------------------------------------------------------------------------------

  /** Codes are never removed, and only their usedAt changes, once. */
  ghost predicate CodesKept(codes: Codes, codes': Codes) {
    forall d | d in codes ::
      d in codes' && (codes'[d] == codes[d]
                      || (codes[d].usedAt.None? && codes'[d] == codes[d].(usedAt := codes'[d].usedAt)))
  }

  /** What a stored refresh token keeps for ever. */
  ghost predicate SameIdentity(a: Row, b: Row) {
    a.token == b.token && a.familyId == b.familyId && a.clientId == b.clientId && a.userId == b.userId
      && a.scope == b.scope
  }

  ghost predicate TokensKept(t: Table, t': Table) {
    forall d | d in t :: d in t' && SameIdentity(t[d], t'[d])
  }

  lemma TokensInvSurvives(codes: Codes, roots: map<string, Digest>, t: Table, codes': Codes, t': Table)
    requires TokensInv(codes, roots, t) && CodesKept(codes, codes') && TokensKept(t, t')
    requires forall d | d in t' && d !in t :: t'[d].token == d && RowInv(codes', roots, t'[d])
    ensures TokensInv(codes', roots, t')
  {
    forall d | d in t'
      ensures t'[d].token == d && RowInv(codes', roots, t'[d])
    {
      if d in t {
        assert RowInv(codes, roots, t[d]) && SameIdentity(t[d], t'[d]);
      }
    }
    forall f | f in roots
      ensures exists d :: d in t' && t'[d].familyId == f
    {
      var d :| d in t && t[d].familyId == f;
      assert SameIdentity(t[d], t'[d]);
    }
  }

  lemma ResponsesInvSurvives(t: Table, t': Table, responses: seq<TokenResponse>)
    requires ResponsesInv(t, responses) && TokensKept(t, t')
    ensures ResponsesInv(t', responses)
  {
    forall i | 0 <= i < |responses|
      ensures ResponseInv(t', responses[i])
    {
      assert ResponseInv(t, responses[i]);
      assert SameIdentity(t[Sha256(responses[i].refreshToken)], t'[Sha256(responses[i].refreshToken)]);
    }
  }

  lemma RedemptionsInvSurvives(codes: Codes, codes': Codes, redemptions: seq<Redemption>)
    requires RedemptionsInv(codes, redemptions) && CodesKept(codes, codes')
    ensures RedemptionsInv(codes', redemptions)
  {
    forall i | 0 <= i < |redemptions|
      ensures RedemptionInv(codes', redemptions[i])
    {
      assert RedemptionInv(codes, redemptions[i]);
    }
  }

  // ---------------------------------------------------------------------------------------------
  // Each kind of step keeps the invariant
  // ---------------------------------------------------------------------------------------------

  /** Rotations are never forgotten, and keep the token that they presented. */
  ghost predicate RequestsKept(requests: map<nat, Families.Request>, requests': map<nat, Families.Request>) {
    forall rid | rid in requests :: rid in requests' && requests'[rid].token == requests[rid].token
  }

  lemma ExchangesInvSurvives(t: Table, t': Table, requests: map<nat, Families.Request>,
                             requests': map<nat, Families.Request>, exchanges: map<nat, Exchange>)
    requires ExchangesInv(t, requests, exchanges) && TokensKept(t, t') && RequestsKept(requests, requests')
    ensures ExchangesInv(t', requests', exchanges)
  {
    forall rid | rid in exchanges
      ensures ExchangeInv(t', requests', rid, exchanges[rid])
    {
      assert ExchangeInv(t, requests, rid, exchanges[rid]);
      assert SameIdentity(t[Sha256(requests[rid].token)], t'[Sha256(requests[rid].token)]);
    }
  }

  /** What a step of the families may do to the tokens of a history. */
  ghost predicate Progressed(h: History, s: Families.System) {
    && TokensKept(h.db.tokens, s.rows)
    && (forall d | d in s.rows && d !in h.db.tokens :: s.rows[d].token == d && RowInv(h.db.codes, h.roots, s.rows[d]))
    && RequestsKept(h.requests, s.requests)
  }

  /** A step of the families that keeps the stored rows and adds rows of known families only. */
  lemma FamilyStepKeepsInv(env: Env, h: History, e: Families.Event)
    requires Inv(env, h) && Progressed(h, Families.Step(System(h), e))
    ensures Inv(env, WithSystem(h, Families.Step(System(h), e)))
  {
    Families.ReachableStep(System(h), e);
    SystemKeepsInv(env, h, Families.Step(System(h), e));
  }

  lemma SystemKeepsInv(env: Env, h: History, s: Families.System)
    requires Inv(env, h) && Progressed(h, s) && Families.Reachable(s)
    ensures Inv(env, WithSystem(h, s))
  {
    TokensInvSurvives(h.db.codes, h.roots, h.db.tokens, h.db.codes, s.rows);
    ResponsesInvSurvives(h.db.tokens, s.rows, h.responses);
    ExchangesInvSurvives(h.db.tokens, s.rows, h.requests, s.requests, h.exchanges);
    assert System(WithSystem(h, s)) == s;
  }

  lemma AddIssue(issues: map<Digest, Issue>, pars: map<string, Par>, pars': map<string, Par>, d: Digest, i: Issue)
    requires ParsInv(issues, pars) && d !in issues
    requires ParsKept(pars, pars')
    requires i.par.Some? ==> FromPar(pars', i, i.par.value) && !ParUsed(pars, i.par.value)
    ensures ParsInv(issues[d := i], pars')
  {
  }

  lemma AddCode(env: Env, codes: Codes, issues: map<Digest, Issue>, d: Digest, c: Code, i: Issue)
    requires CodesInv(env, codes, issues) && d !in codes && CodeInv(env, c, d, i) && c.usedAt.None?
    ensures CodesInv(env, codes[d := c], issues[d := i])
    ensures CodesKept(codes, codes[d := c])
    ensures forall e :: Used(codes[d := c], e) <==> Used(codes, e)
  {
    assert (codes[d := c]).Keys == codes.Keys + {d} && (issues[d := i]).Keys == issues.Keys + {d};
  }

  /** A successful call that issues a code adds that one code, unused, and its issue. */
  ghost predicate IssueStep(env: Env, h: History, db: Db, d: Digest, c: Code, i: Issue) {
    && d !in h.db.codes && db.codes == h.db.codes[d := c] && db.tokens == h.db.tokens
    && c.usedAt.None? && CodeInv(env, c, d, i)
    && ParsKept(h.db.pars, db.pars)
    && (i.par.Some? ==> FromPar(db.pars, i, i.par.value) && !ParUsed(h.db.pars, i.par.value))
  }

  lemma IssueKeepsCodes(env: Env, h: History, db: Db, d: Digest, c: Code, i: Issue)
    requires Inv(env, h) && IssueStep(env, h, db, d, c, i)
    ensures CodesInv(env, db.codes, h.issues[d := i]) && UseInv(db.codes, h.pending, h.roots)
    ensures RedemptionsInv(db.codes, h.redemptions) && UsedAreRedeemed(db.codes, h.redemptions)
  {
    AddCode(env, h.db.codes, h.issues, d, c, i);
    RedemptionsInvSurvives(h.db.codes, db.codes, h.redemptions);
  }

  lemma IssueKeepsTokens(env: Env, h: History, db: Db, d: Digest, c: Code, i: Issue)
    requires Inv(env, h) && IssueStep(env, h, db, d, c, i)
    ensures TokensInv(db.codes, h.roots, db.tokens) && ParsInv(h.issues[d := i], db.pars)
  {
    AddCode(env, h.db.codes, h.issues, d, c, i);
    TokensInvSurvives(h.db.codes, h.roots, h.db.tokens, db.codes, db.tokens);
    AddIssue(h.issues, h.db.pars, db.pars, d, i);
  }

  lemma IssueKeepsInv(env: Env, h: History, db: Db, d: Digest, c: Code, i: Issue)
    requires Inv(env, h) && IssueStep(env, h, db, d, c, i)
    ensures Inv(env, h.(db := db, issues := h.issues[d := i]))
  {
    IssueKeepsCodes(env, h, db, d, c, i);
    IssueKeepsTokens(env, h, db, d, c, i);
  }

  /** A step that leaves codes, tokens and used PAR rows as they are. */
  lemma QuietStepKeepsInv(env: Env, h: History, db: Db)
    requires Inv(env, h)
    requires db.codes == h.db.codes && db.tokens == h.db.tokens
    requires ParsKept(h.db.pars, db.pars)
    ensures Inv(env, h.(db := db))
  {
    assert ParsInv(h.issues, db.pars);
  }

  lemma AuthorizeStep(h: History, env: Env, userId: string, q: Query, now: int, plain: string)
    requires Inv(env, h)
    ensures Inv(env, Step(h, env, AuthorizeCall(userId, q, now, plain)))
  {
    var (r, db) := Authorize(h.db, env, userId, q, now, plain);
    AuthorizeEffect(h.db, env, userId, q, now, plain);
    if r.Success? && r.value.Redirect? {
      IssueKeepsInv(env, h, db, Sha256(plain), NewCode(env, userId, q, now, plain), IssueNow(db, userId, q, now, None));
    }
  }

  /** A pushed request that leads to a code was unused, and is used afterwards; nothing else changes but the code. */
  lemma ParEffect(db: Db, env: Env, userId: string, uri: string, clientId: string, readAt: int, now: int, usedAt: int,
                  plain: string)
    ensures var (r, db') := AuthorizeWithPar(db, env, userId, uri, clientId, readAt, now, usedAt, plain);
            if r.Success? && r.value.Redirect? then
              && r.value.code == plain && uri in db.pars && db.pars[uri].usedAt.None? && clientId in db.clients
              && db.pars[uri].clientId == clientId && readAt < db.pars[uri].expiresAt
              && var q := ParQuery(clientId, db.pars[uri].params);
              && Authorize(db, env, userId, q, now, plain).0 == r
              && var used := db.pars[uri := db.pars[uri].(usedAt := Some(usedAt))];
              db' == Authorize(db, env, userId, q, now, plain).1.(pars := used)
            else db' == db
  {
  }

  /**
   authorize issues a code only within the client's registration and, if it is not first-party, the
   user's consent.
   */
  lemma AuthorizeEffect(db: Db, env: Env, userId: string, q: Query, now: int, plain: string)
    ensures var (r, db') := Authorize(db, env, userId, q, now, plain);
            if r.Success? && r.value.Redirect? then
              && r.value.code == plain && Sha256(plain) !in db.codes && q.clientId in db.clients
              && db' == db.(codes := db.codes[Sha256(plain) := NewCode(env, userId, q, now, plain)])
              && !db.clients[q.clientId].suspended
              && q.redirectUri in db.clients[q.clientId].redirectUris
              && ScopeSet(q.scope) <= ScopeSet(db.clients[q.clientId].scope)
              && (db.clients[q.clientId].isFirstParty
                  || ScopeSet(q.scope) <= GrantedScopes(db.grants, userId, q.clientId))
            else db' == db
  {
  }

  lemma ParStep(h: History, env: Env, userId: string, uri: string, clientId: string, readAt: int, now: int, usedAt: int,
                plain: string)
    requires Inv(env, h)
    ensures Inv(env, Step(h, env, ParCall(userId, uri, clientId, readAt, now, usedAt, plain)))
  {
    var outcome := AuthorizeWithPar(h.db, env, userId, uri, clientId, readAt, now, usedAt, plain);
    ParEffect(h.db, env, userId, uri, clientId, readAt, now, usedAt, plain);
    if uri in h.db.pars {
      ParIssued(h, env, userId, uri, clientId, now, usedAt, plain, outcome);
    }
  }

  lemma ParIssued(h: History, env: Env, userId: string, uri: string, clientId: string, now: int, usedAt: int,
                  plain: string,
                  outcome: (Result<AuthorizeResult, OAuthError>, Db))
    requires Inv(env, h) && uri in h.db.pars
    requires var (r, db') := outcome;
             if r.Success? && r.value.Redirect? then
               && r.value.code == plain && h.db.pars[uri].usedAt.None? && clientId in h.db.clients
               && h.db.pars[uri].clientId == clientId
               && var q := ParQuery(clientId, h.db.pars[uri].params);
               && Authorize(h.db, env, userId, q, now, plain).0 == r
               && var used := h.db.pars[uri := h.db.pars[uri].(usedAt := Some(usedAt))];
               db' == Authorize(h.db, env, userId, q, now, plain).1.(pars := used)
             else db' == h.db
    ensures Inv(env, Issued(h, outcome, userId, ParQuery(clientId, h.db.pars[uri].params), now, Some(uri)))
  {
    var (r, db) := outcome;
    if r.Success? && r.value.Redirect? {
      var q := ParQuery(clientId, h.db.pars[uri].params);
      AuthorizeEffect(h.db, env, userId, q, now, plain);
      IssueKeepsInv(env, h, db, Sha256(plain), NewCode(env, userId, q, now, plain),
                    IssueNow(db, userId, q, now, Some(uri)));
    }
  }

  /** An approved consent stores its grant and, with it, issues a code within the client's registration. */
  lemma ConsentEffect(db: Db, env: Env, userId: string, q: Query, approve: bool, now: int, plain: string)
    ensures var (r, db') := SubmitConsent(db, env, userId, q, approve, now, plain);
            && (r.Success? && r.value.Redirect? ==>
                  && approve && r.value.code == plain && Sha256(plain) !in db.codes && q.clientId in db.clients
                  && db' == db.(grants := db.grants + [Grant(userId, q.clientId, q.scope, None)],
                                codes := db.codes[Sha256(plain) := NewCode(env, userId, q, now, plain)])
                  && q.redirectUri in db.clients[q.clientId].redirectUris
                  && ScopeSet(q.scope) <= ScopeSet(db.clients[q.clientId].scope)
                  && ScopeSet(q.scope) <= GrantedScopes(db'.grants, userId, q.clientId))
            && (!(r.Success? && r.value.Redirect?) ==> db' == db.(grants := db'.grants))
  {
    ConsentIsCovered(db.grants, userId, q.clientId, q.scope);
  }

  lemma ConsentStep(h: History, env: Env, userId: string, q: Query, approve: bool, now: int, plain: string)
    requires Inv(env, h)
    ensures Inv(env, Step(h, env, Consent(userId, q, approve, now, plain)))
  {
    var outcome := SubmitConsent(h.db, env, userId, q, approve, now, plain);
    ConsentEffect(h.db, env, userId, q, approve, now, plain);
    ConsentIssued(h, env, userId, q, now, plain, outcome);
  }

  lemma ConsentIssued(h: History, env: Env, userId: string, q: Query, now: int, plain: string,
                      outcome: (Result<AuthorizeResult, OAuthError>, Db))
    requires Inv(env, h)
    requires var (r, db') := outcome;
             if r.Success? && r.value.Redirect? then
               && r.value.code == plain && Sha256(plain) !in h.db.codes && q.clientId in h.db.clients
               && db'.clients == h.db.clients && db'.pars == h.db.pars && db'.tokens == h.db.tokens
               && db'.codes == h.db.codes[Sha256(plain) := NewCode(env, userId, q, now, plain)]
               && ScopeSet(q.scope) <= ScopeSet(h.db.clients[q.clientId].scope)
               && ScopeSet(q.scope) <= GrantedScopes(db'.grants, userId, q.clientId)
             else db' == h.db.(grants := db'.grants)
    ensures Inv(env, Issued(h, outcome, userId, q, now, None))
  {
    var (r, db) := outcome;
    if r.Success? && r.value.Redirect? {
      IssueKeepsInv(env, h, db, Sha256(plain), NewCode(env, userId, q, now, plain), IssueNow(db, userId, q, now, None));
    } else {
      QuietStepKeepsInv(env, h, db);
    }
  }

  /** Redeeming marks the one code, and nothing else. */
  lemma CodeTaken(env: Env, codes: Codes, issues: map<Digest, Issue>, d: Digest, at: int)
    requires CodesInv(env, codes, issues) && d in codes && codes[d].usedAt.None?
    ensures var codes' := codes[d := codes[d].(usedAt := Some(at))];
            && CodesKept(codes, codes') && CodesInv(env, codes', issues)
            && (forall e :: Used(codes', e) <==> Used(codes, e) || e == d)
            && !Used(codes, d)
  {
    var codes' := codes[d := codes[d].(usedAt := Some(at))];
    assert codes'.Keys == codes.Keys;
    assert CodeInv(env, codes[d], d, issues[d]);
  }

  lemma RedeemStep(h: History, env: Env, req: CodeRequest, caller: Caller, now: int, usedAt: int)
    requires Inv(env, h)
    ensures Inv(env, Step(h, env, Redeem(req, caller, now, usedAt)))
  {
    RedeemEffect(h.db, req, caller, now, usedAt);
    if RedeemCode(h.db, req, caller, now, usedAt).0.Success? {
      TakenKeepsInv(h, env, Redemption(Sha256(req.code), req.verifier, req.redirectUri, now), usedAt);
    }
  }

  /** A redemption that succeeds marks the code it answers; one that fails changes nothing. */
  lemma RedeemEffect(db: Db, req: CodeRequest, caller: Caller, now: int, usedAt: int)
    ensures var (r, db') := RedeemCode(db, req, caller, now, usedAt);
            var d := Sha256(req.code);
            if r.Success? then
              && d in db.codes && r.value == db.codes[d] && db.codes[d].usedAt.None?
              && db.codes[d].challenge == S256(req.verifier) && db.codes[d].redirectUri == req.redirectUri
                && now < db.codes[d].expiresAt
              && db' == db.(codes := db.codes[d := db.codes[d].(usedAt := Some(usedAt))])
            else db' == db
  {
  }

  lemma UseTaken(codes: Codes, codes': Codes, pending: set<Digest>, roots: map<string, Digest>, d: Digest)
    requires UseInv(codes, pending, roots) && !Used(codes, d)
    requires forall e :: Used(codes', e) <==> Used(codes, e) || e == d
    ensures UseInv(codes', pending + {d}, roots)
  {
    forall f | f in roots
      ensures roots[f] !in pending + {d}
    {
      assert roots[f] in roots.Values;
      assert Used(codes, roots[f]);
    }
  }

  lemma UseRecorded(codes: Codes, codes': Codes, redemptions: seq<Redemption>, r: Redemption)
    requires UsedAreRedeemed(codes, redemptions)
    requires forall e :: Used(codes', e) <==> Used(codes, e) || e == r.code
    ensures UsedAreRedeemed(codes', redemptions + [r])
  {
    forall d | Used(codes', d)
      ensures Redeemed(redemptions + [r], d)
    {
      var all := redemptions + [r];
      if d == r.code {
        assert all[|redemptions|].code == d;
      } else {
        var i :| 0 <= i < |redemptions| && redemptions[i].code == d;
        assert all[i].code == d;
      }
    }
  }

  lemma TakenKeepsInv(h: History, env: Env, r: Redemption, usedAt: int)
    requires Inv(env, h) && r.code in h.db.codes
    requires var c := h.db.codes[r.code];
             c.usedAt.None? && c.challenge == S256(r.verifier) && c.redirectUri == r.redirectUri && r.at < c.expiresAt
    ensures Inv(env, h.(db := h.db.(codes := h.db.codes[r.code := h.db.codes[r.code].(usedAt := Some(usedAt))]),
                        pending := h.pending + {r.code}, redemptions := h.redemptions + [r]))
  {
    var codes := h.db.codes;
    var codes' := codes[r.code := codes[r.code].(usedAt := Some(usedAt))];
    CodeTaken(env, codes, h.issues, r.code, usedAt);
    RedemptionsInvSurvives(codes, codes', h.redemptions);
    AddRedemption(codes, codes', h.redemptions, r);
    TokensInvSurvives(codes, h.roots, h.db.tokens, codes', h.db.tokens);
    UseTaken(codes, codes', h.pending, h.roots, r.code);
    UseRecorded(codes, codes', h.redemptions, r);
  }

  lemma AddRedemption(codes: Codes, codes': Codes, redemptions: seq<Redemption>, r: Redemption)
    requires RedemptionsInv(codes, redemptions) && RedemptionsInv(codes', redemptions)
    requires RedemptionInv(codes', r) && !Used(codes, r.code)
    ensures RedemptionsInv(codes', redemptions + [r])
  {
    assert forall i | 0 <= i < |redemptions| :: RedemptionInv(codes, redemptions[i]);
  }

  /** A pending code becomes the root of a new family. */
  lemma TakeRoot(codes: Codes, pending: set<Digest>, roots: map<string, Digest>, f: string, d: Digest)
    requires UseInv(codes, pending, roots) && d in pending && f !in roots
    ensures UseInv(codes, pending - {d}, roots[f := d])
  {
    var roots' := roots[f := d];
    forall e
      ensures e in roots'.Values <==> e in roots.Values || e == d
    {
      if e in roots.Values {
        var g :| g in roots && roots[g] == e;
        assert roots'[g] == e;
      }
      assert roots'[f] == d;
    }
  }

  lemma NewFamilyRow(codes: Codes, roots: map<string, Digest>, t: Table, f: string, d: Digest, row: Row)
    requires TokensInv(codes, roots, t) && f !in roots && row.token !in t
    requires row.familyId == f && RowInv(codes, roots[f := d], row)
    ensures TokensInv(codes, roots[f := d], t[row.token := row])
  {
    var roots', t' := roots[f := d], t[row.token := row];
    forall e | e in t'
      ensures t'[e].token == e && RowInv(codes, roots', t'[e])
    {
      if e != row.token {
        assert RowInv(codes, roots, t[e]);
      }
    }
    forall g | g in roots'
      ensures exists e :: e in t' && t'[e].familyId == g
    {
      if g == f {
        assert t'[row.token].familyId == g;
      } else {
        var e :| e in t && t[e].familyId == g;
        assert t'[e].familyId == g;
      }
    }
  }

  lemma BundleStep(h: History, env: Env, d: Digest, familyId: string, plain: string, jkt: Option<string>, now: int,
                   dbNow: int)
    requires Inv(env, h)
    ensures Inv(env, Step(h, env, Bundle(d, familyId, plain, jkt, now, dbNow)))
  {
    if d in h.pending && d in h.db.codes && familyId !in h.roots && Sha256(plain) !in h.db.tokens {
      var c := h.db.codes[d];
      var params := CreateParams(c.clientId, c.userId, c.scope, env.refreshTokenTtl, familyId, jkt);
      Bundled(h, env, d, plain, params, now, dbNow);
    }
  }

  lemma Bundled(h: History, env: Env, d: Digest, plain: string, p: CreateParams, now: int, dbNow: int)
    requires Inv(env, h) && d in h.pending && p.familyId !in h.roots && Sha256(plain) !in h.db.tokens
    requires d in h.db.codes && var c := h.db.codes[d];
             p.clientId == c.clientId && p.userId == c.userId && p.scope == c.scope
    ensures Inv(env, h.(db := h.db.(tokens := h.db.tokens[Sha256(plain) := NewRow(plain, p, now, dbNow)]),
                        pending := h.pending - {d}, roots := h.roots[p.familyId := d],
                        responses := h.responses
                                     + [TokenResponse(p.userId, p.clientId, p.scope, plain, p.dpopJkt.Some?)]))
  {
    FamilyGrows(h, env, d, NewRow(plain, p, now, dbNow),
                TokenResponse(p.userId, p.clientId, p.scope, plain, p.dpopJkt.Some?));
    BundleCreates(env, h, plain, p, now, dbNow);
  }

  /** To the refresh families a bundle is a creation under a fresh family id. */
  lemma BundleCreates(env: Env, h: History, plain: string, params: CreateParams, now: int, dbNow: int)
    requires Inv(env, h) && params.familyId !in h.roots && Sha256(plain) !in h.db.tokens
    ensures Families.Reachable(Families.System(h.db.tokens[Sha256(plain) := NewRow(plain, params, now, dbNow)],
                                               h.requests))
  {
    assert forall d | d in h.db.tokens :: RowInv(h.db.codes, h.roots, h.db.tokens[d]);
    Families.ReachableStep(System(h), Families.Create(plain, params, now, dbNow));
  }

  /** All but the reachability of the grown families. */
  lemma FamilyGrows(h: History, env: Env, d: Digest, row: Row, resp: TokenResponse)
    requires Inv(env, h) && d in h.pending && row.familyId !in h.roots && row.token !in h.db.tokens
    requires d in h.db.codes && var c := h.db.codes[d];
             row.clientId == c.clientId && row.userId == c.userId && row.scope == c.scope
    requires ResponseInv(map[row.token := row], resp)
    ensures var t' := h.db.tokens[row.token := row];
            && UseInv(h.db.codes, h.pending - {d}, h.roots[row.familyId := d])
            && TokensInv(h.db.codes, h.roots[row.familyId := d], t')
            && ResponsesInv(t', h.responses + [resp])
            && ExchangesInv(t', h.requests, h.exchanges)
  {
    var t' := h.db.tokens[row.token := row];
    TakeRoot(h.db.codes, h.pending, h.roots, row.familyId, d);
    NewFamilyRow(h.db.codes, h.roots, h.db.tokens, row.familyId, d, row);
    FamilyAnswers(h, t', resp);
  }

  lemma FamilyAnswers(h: History, t': Table, resp: TokenResponse)
    requires ResponsesInv(h.db.tokens, h.responses) && ExchangesInv(h.db.tokens, h.requests, h.exchanges)
    requires TokensKept(h.db.tokens, t') && ResponseInv(t', resp)
    ensures ResponsesInv(t', h.responses + [resp]) && ExchangesInv(t', h.requests, h.exchanges)
  {
    ResponsesInvSurvives(h.db.tokens, t', h.responses);
    AddResponse(t', h.responses, resp);
    ExchangesInvSurvives(h.db.tokens, t', h.requests, h.requests, h.exchanges);
  }

  lemma AddResponse(t: Table, responses: seq<TokenResponse>, r: TokenResponse)
    requires ResponsesInv(t, responses) && ResponseInv(t, r)
    ensures ResponsesInv(t, responses + [r])
  {
  }

  /** The transaction of a rotation keeps all rows' identities; its new row has that of the row it retires. */
  lemma CommitKeepsIdentity(codes: Codes, roots: map<string, Digest>, t: Table, current: Row, now: int, plain: string,
                            dbNow: int)
    requires TokensInv(codes, roots, t) && CommitRotation(t, current, now, plain, dbNow).Success?
    ensures var t' := CommitRotation(t, current, now, plain, dbNow).value;
            && TokensKept(t, t')
            && (forall d | d in t' && d !in t :: t'[d].token == d && RowInv(codes, roots, t'[d]))
  {
    assert RowInv(codes, roots, t[current.token]);
  }

  lemma RotationKeepsRequests(s: Families.System, e: Families.Event)
    requires IsRotationStep(e)
    ensures RequestsKept(s.requests, Families.Step(s, e).requests)
  {
  }

  /** What the steps of a rotation do to the table. */
  ghost predicate RotationWrites(s: Families.System, e: Families.Event, t': Table) {
    || t' == s.rows
    || (&& e.Commit? && e.rid in s.requests && s.requests[e.rid].stage.Ready?
        && var q := s.requests[e.rid];
           CommitRotation(s.rows, q.stage.current, q.now, e.newPlain, e.dbNow) == Success(t'))
    || (e.Kill? && e.rid in s.requests && s.requests[e.rid].stage.Killing?
        && t' == RevokeWhere(s.rows, ByFamily(s.requests[e.rid].stage.familyId), e.now))
  }

  lemma RotationWritesOnly(s: Families.System, e: Families.Event)
    requires IsRotationStep(e)
    ensures RotationWrites(s, e, Families.Step(s, e).rows)
  {
  }

  lemma RotationProgresses(env: Env, h: History, e: Families.Event)
    requires Inv(env, h) && IsRotationStep(e)
    ensures Progressed(h, Families.Step(System(h), e))
  {
    RotationKeepsRequests(System(h), e);
    RotationWritesOnly(System(h), e);
    WritesProgress(h, e, Families.Step(System(h), e).rows);
  }

  lemma WritesProgress(h: History, e: Families.Event, t': Table)
    requires TokensInv(h.db.codes, h.roots, h.db.tokens) && RotationWrites(System(h), e, t')
    ensures TokensKept(h.db.tokens, t')
    ensures forall d | d in t' && d !in h.db.tokens :: t'[d].token == d && RowInv(h.db.codes, h.roots, t'[d])
  {
    if t' != h.db.tokens {
      var q := h.requests[e.rid];
      if e.Commit? {
        CommitKeepsIdentity(h.db.codes, h.roots, h.db.tokens, q.stage.current, q.now, e.newPlain, e.dbNow);
      } else {
        RevokeKeepsTokens(h.db.tokens, ByFamily(q.stage.familyId), e.now);
      }
    }
  }

  lemma AdvanceStep(h: History, env: Env, e: Families.Event)
    requires Inv(env, h)
    ensures Inv(env, Step(h, env, Advance(e)))
  {
    if IsRotationStep(e) {
      RotationProgresses(env, h, e);
      FamilyStepKeepsInv(env, h, e);
    }
  }

  /** What a refresh exchange is admitted with lies within the token that it presents. */
  lemma AdmittedWithinToken(db: Db, req: RefreshRequest, caller: Caller)
    requires AdmitRefresh(db, req, caller).Success?
    ensures Sha256(req.token) in db.tokens
    ensures ScopeSet(AdmitRefresh(db, req, caller).value) <= ScopeSet(db.tokens[Sha256(req.token)].scope)
  {
    if req.scope.Some? {
      TrimKeepsScopes(req.scope.value);
    }
  }

  lemma StartStep(h: History, env: Env, rid: nat, req: RefreshRequest, caller: Caller, jkt: Option<string>, now: int)
    requires Inv(env, h)
    ensures Inv(env, Step(h, env, StartExchange(rid, req, caller, jkt, now)))
  {
    if rid !in h.requests && AdmitRefresh(h.db, req, caller).Success? {
      AdmittedStarts(env, h, rid, req, caller, jkt, now);
    }
  }

  lemma AdmittedStarts(env: Env, h: History, rid: nat, req: RefreshRequest, caller: Caller, jkt: Option<string>,
                       now: int)
    requires Inv(env, h) && rid !in h.requests && AdmitRefresh(h.db, req, caller).Success?
    ensures var start := Families.Start(rid, req.token, env.refreshGracePeriod, jkt, now);
            Inv(env, WithSystem(h, Families.Step(System(h), start))
                       .(exchanges := h.exchanges[rid := Exchange(h.db.tokens[Sha256(req.token)].clientId,
                                                                  AdmitRefresh(h.db, req, caller).value, jkt.Some?)]))
  {
    AdmittedWithinToken(h.db, req, caller);
    var x := Exchange(h.db.tokens[Sha256(req.token)].clientId, AdmitRefresh(h.db, req, caller).value, jkt.Some?);
    Started(env, h, rid, req.token, env.refreshGracePeriod, jkt, now, x);
  }

  lemma Started(env: Env, h: History, rid: nat, token: string, grace: int, jkt: Option<string>, now: int, x: Exchange)
    requires Inv(env, h) && rid !in h.requests && Sha256(token) in h.db.tokens
    requires h.db.tokens[Sha256(token)].clientId == x.clientId
    requires ScopeSet(x.scope) <= ScopeSet(h.db.tokens[Sha256(token)].scope)
    ensures var h' := WithSystem(h, Families.Step(System(h), Families.Start(rid, token, grace, jkt, now)));
            Inv(env, h'.(exchanges := h.exchanges[rid := x]))
  {
    var e := Families.Start(rid, token, grace, jkt, now);
    StartProgresses(h, rid, token, grace, jkt, now);
    FamilyStepKeepsInv(env, h, e);
    AddExchange(env, WithSystem(h, Families.Step(System(h), e)), rid, x);
  }

  lemma StartProgresses(h: History, rid: nat, token: string, grace: int, jkt: Option<string>, now: int)
    requires rid !in h.requests
    ensures var s := Families.Step(System(h), Families.Start(rid, token, grace, jkt, now));
            Progressed(h, s) && s.rows == h.db.tokens && rid in s.requests && s.requests[rid].token == token
  {
  }

  lemma AddExchange(env: Env, h: History, rid: nat, x: Exchange)
    requires Inv(env, h) && ExchangeInv(h.db.tokens, h.requests, rid, x)
    ensures Inv(env, h.(exchanges := h.exchanges[rid := x]))
  {
    assert System(h.(exchanges := h.exchanges[rid := x])) == System(h);
  }

  /** The token that a rotation issued shares the grant of the token that was presented for it. */
  lemma IssuedSharesGrant(s: Families.System, rid: nat)
    requires Families.Reachable(s) && rid in s.requests && s.requests[rid].stage.Rotated?
    ensures var q := s.requests[rid];
            && Sha256(q.token) in s.rows && Sha256(q.stage.issued) in s.rows
            && Families.SameGrant(s.rows[Sha256(q.token)], s.rows[Sha256(q.stage.issued)])
            && s.rows[Sha256(q.token)].familyId == s.rows[Sha256(q.stage.issued)].familyId
  {
    var q := s.requests[rid];
    Families.BoundRotationsPresentTheKey(s, rid);
    Families.ReachableInv(s);
    assert Families.StageInv(s.rows, q);
    Families.GraceStaysInFamily(s.rows, q.stage.rotated);
    Families.FamilySharesGrant(s.rows, s.rows[Sha256(q.token)].familyId, Sha256(q.token), Sha256(q.stage.issued));
  }

  lemma AnswerStep(h: History, env: Env, rid: nat)
    requires Inv(env, h)
    ensures Inv(env, Step(h, env, Answer(rid)))
  {
    if rid in h.exchanges && rid in h.requests && h.requests[rid].stage.Rotated?
       && Sha256(h.requests[rid].stage.issued) in h.db.tokens
    {
      var issued, x := h.requests[rid].stage.issued, h.exchanges[rid];
      IssuedSharesGrant(System(h), rid);
      assert ExchangeInv(h.db.tokens, h.requests, rid, x);
      Answered(env, h, rid, TokenResponse(h.db.tokens[Sha256(issued)].userId, x.clientId, x.scope, issued, x.dpop));
    }
  }

  lemma Answered(env: Env, h: History, rid: nat, r: TokenResponse)
    requires Inv(env, h) && ResponseInv(h.db.tokens, r)
    ensures Inv(env, h.(exchanges := h.exchanges - {rid}, responses := h.responses + [r]))
  {
    AddResponse(h.db.tokens, h.responses, r);
    assert System(h.(exchanges := h.exchanges - {rid}, responses := h.responses + [r])) == System(h);
  }

  lemma RevokeKeepsTokens(t: Table, sel: Selector, now: int)
    ensures TokensKept(t, RevokeWhere(t, sel, now)) && RevokeWhere(t, sel, now).Keys == t.Keys
  {
  }

  lemma RevokeStep(h: History, env: Env, sel: Selector, now: int)
    requires Inv(env, h)
    ensures Inv(env, h.(db := h.db.(tokens := RevokeWhere(h.db.tokens, sel, now))))
  {
    RevokeKeepsTokens(h.db.tokens, sel, now);
    FamilyStepKeepsInv(env, h, Families.Revoke(sel, now));
  }

  lemma UnconsentStep(h: History, env: Env, userId: string, clientId: string, now: int, now2: int)
    requires Inv(env, h)
    ensures Inv(env, Step(h, env, Unconsent(userId, clientId, now, now2)))
  {
    var grants := RevokeGrants(h.db.grants, userId, clientId, now);
    var h1 := h.(db := h.db.(grants := grants));
    QuietStepKeepsInv(env, h, h1.db);
    RevokeStep(h1, env, ByClientUser(clientId, userId), now2);
    assert RevokeConsent(h.db, userId, clientId, now, now2).1
           == (if RevokeConsent(h.db, userId, clientId, now, now2).0.Success?
               then h1.db.(tokens := RevokeWhere(h.db.tokens, ByClientUser(clientId, userId), now2)) else h.db);
  }

  lemma PutClientStep(h: History, env: Env, clientId: string, client: Client)
    requires Inv(env, h)
    ensures Inv(env, Step(h, env, PutClient(clientId, client)))
  {
    QuietStepKeepsInv(env, h, h.db.(clients := h.db.clients[clientId := client]));
  }

  lemma PushStep(h: History, env: Env, clientId: string, client: Client, bodyClientId: string, params: ParParams,
                 uri: string, now: int)
    requires Inv(env, h)
    ensures Inv(env, Step(h, env, Push(clientId, client, bodyClientId, params, uri, now)))
  {
    PushAddsOnly(h.db, env, clientId, client, bodyClientId, params, uri, now);
    QuietStepKeepsInv(env, h, PushRequest(h.db, env, clientId, client, bodyClientId, params, uri, now).1);
  }

  lemma PushAddsOnly(db: Db, env: Env, clientId: string, client: Client, bodyClientId: string, params: ParParams,
                     uri: string, now: int)
    ensures var db' := PushRequest(db, env, clientId, client, bodyClientId, params, uri, now).1;
            db' == db.(pars := db'.pars) && ParsKept(db.pars, db'.pars)
  {
  }

  lemma CodeSteps(h: History, env: Env, e: Event)
    requires Inv(env, h) && (e.AuthorizeCall? || e.ParCall? || e.Consent? || e.Redeem?)
    ensures Inv(env, Step(h, env, e))
  {
    match e
    case AuthorizeCall(userId, q, now, plain) => AuthorizeStep(h, env, userId, q, now, plain);
    case ParCall(userId, uri, clientId, readAt, now, usedAt, plain) =>
      ParStep(h, env, userId, uri, clientId, readAt, now, usedAt, plain);
    case Consent(userId, q, approve, now, plain) => ConsentStep(h, env, userId, q, approve, now, plain);
    case Redeem(req, caller, now, usedAt) => RedeemStep(h, env, req, caller, now, usedAt);
  }

  lemma StepKeepsInv(h: History, env: Env, e: Event)
    requires Inv(env, h)
    ensures Inv(env, Step(h, env, e))
  {
    match e
    case PutClient(clientId, client) => PutClientStep(h, env, clientId, client);
    case AuthorizeCall(_, _, _, _) => CodeSteps(h, env, e);
    case ParCall(_, _, _, _, _, _, _) => CodeSteps(h, env, e);
    case Push(clientId, client, bodyClientId, params, uri, now) =>
      PushStep(h, env, clientId, client, bodyClientId, params, uri, now);
    case Consent(_, _, _, _, _) => CodeSteps(h, env, e);
    case Unconsent(userId, clientId, now, now2) => UnconsentStep(h, env, userId, clientId, now, now2);
    case Redeem(_, _, _, _) => CodeSteps(h, env, e);
    case Bundle(d, familyId, plain, jkt, now, dbNow) => BundleStep(h, env, d, familyId, plain, jkt, now, dbNow);
    case StartExchange(rid, req, caller, jkt, now) => StartStep(h, env, rid, req, caller, jkt, now);
    case Advance(step) => AdvanceStep(h, env, step);
    case Answer(rid) => AnswerStep(h, env, rid);
    case Revoke(sel, now) => RevokeStep(h, env, sel, now);
  }

  lemma {:induction false} RunKeepsInv(h: History, env: Env, es: seq<Event>)
    requires Inv(env, h)
    ensures Inv(env, Run(h, env, es))
    decreases |es|
  {
    if es != [] {
      StepKeepsInv(h, env, es[0]);
      RunKeepsInv(Step(h, env, es[0]), env, es[1..]);
    }
  }

  lemma ReachedInv(env: Env, es: seq<Event>)
    ensures Inv(env, Run(INIT, env, es))
  {
    assert System(INIT) == Families.Run(Families.INIT, []);
    RunKeepsInv(INIT, env, es);
  }

  // ---------------------------------------------------------------------------------------------
  // A refresh exchange that nobody interrupts
  // ---------------------------------------------------------------------------------------------

  lemma {:induction false} RunAppends(h: History, env: Env, es: seq<Event>, fs: seq<Event>)
    ensures Run(h, env, es + fs) == Run(Run(h, env, es), env, fs)
    decreases |es|
  {
    if es == [] {
      assert es + fs == fs;
    } else {
      assert (es + fs)[1..] == es[1..] + fs;
      RunAppends(Step(h, env, es[0]), env, es[1..], fs);
    }
  }

  function AdvanceAll(steps: seq<Families.Event>): (es: seq<Event>)
    ensures |es| == |steps| && forall i | 0 <= i < |es| :: es[i] == Event.Advance(steps[i])
  {
    seq(|steps|, i requires 0 <= i < |steps| => Event.Advance(steps[i]))
  }

  lemma {:induction false} AdvancesRunTheFamilies(h: History, env: Env, steps: seq<Families.Event>)
    requires forall i | 0 <= i < |steps| :: IsRotationStep(steps[i])
    ensures Run(h, env, AdvanceAll(steps)) == WithSystem(h, Families.Run(System(h), steps))
    decreases |steps|
  {
    if steps == [] {
      assert WithSystem(h, System(h)) == h;
    } else {
      var h1 := Step(h, env, Advance(steps[0]));
      assert AdvanceAll(steps)[1..] == AdvanceAll(steps[1..]);
      AdvancesRunTheFamilies(h1, env, steps[1..]);
    }
  }

  /** The steps of a lone refresh exchange. */
  function LoneExchange(rid: nat, env: Env, req: RefreshRequest, caller: Caller, jkt: Option<string>, now: int,
                        now2: int,
                        plain: string, dbNow: int): seq<Event>
  {
    [StartExchange(rid, req, caller, jkt, now)]
    + AdvanceAll(Families.LoneRequest(rid, req.token, env.refreshGracePeriod, jkt, now, now2, plain, dbNow)[1..])
    + [Answer(rid)]
  }

  /** The service's serial refresh exchange is the run of its steps without interruption. */
  lemma SerialExchangeIsAnUninterruptedRun(h: History, rid: nat, env: Env, req: RefreshRequest, caller: Caller,
                                           jkt: Option<string>, now: int, now2: int, plain: string, dbNow: int)
    requires rid !in h.requests
    ensures var h' := Run(h, env, LoneExchange(rid, env, req, caller, jkt, now, now2, plain, dbNow));
            var (r, db) := RefreshExchange(h.db, env, req, caller, jkt, now, now2, plain, dbNow);
            && h'.db == db
            && h'.responses == h.responses + (if r.Success? then [r.value] else [])
  {
    var steps := Families.LoneRequest(rid, req.token, env.refreshGracePeriod, jkt, now, now2, plain, dbNow);
    var start, rest := StartExchange(rid, req, caller, jkt, now), AdvanceAll(steps[1..]);
    var h1 := Step(h, env, start);
    var h2 := Run(h1, env, rest);
    assert LoneExchange(rid, env, req, caller, jkt, now, now2, plain, dbNow) == ([start] + rest) + [Answer(rid)];
    RunAppends(h, env, [start] + rest, [Answer(rid)]);
    RunAppends(h, env, [start], rest);
    assert Run(h, env, [start]) == h1 by {
      assert [start][1..] == [];
    }
    assert Run(h2, env, [Answer(rid)]) == Step(h2, env, Answer(rid)) by {
      assert [Answer(rid)][1..] == [];
    }
    AdvancesRunTheFamilies(h1, env, steps[1..]);
    if AdmitRefresh(h.db, req, caller).Success? {
      AdmittedExchangeRuns(h, rid, env, req, caller, jkt, now, now2, plain, dbNow);
    } else {
      RefusedExchangeRests(h1, rid, steps[1..]);
    }
  }

  /** Steps of a rotation that never started change nothing. */
  lemma {:induction false} RefusedExchangeRests(h: History, rid: nat, steps: seq<Families.Event>)
    requires rid !in h.requests && forall i | 0 <= i < |steps| :: IsRotationStep(steps[i]) && steps[i].rid == rid
    ensures WithSystem(h, Families.Run(System(h), steps)) == h
    decreases |steps|
  {
    assert WithSystem(h, System(h)) == h;
    if steps != [] {
      assert Families.Step(System(h), steps[0]) == System(h);
      RefusedExchangeRests(h, rid, steps[1..]);
    }
  }

  lemma AdmittedExchangeRuns(h: History, rid: nat, env: Env, req: RefreshRequest, caller: Caller,
                             jkt: Option<string>, now: int, now2: int, plain: string, dbNow: int)
    requires rid !in h.requests && AdmitRefresh(h.db, req, caller).Success?
    ensures var steps := Families.LoneRequest(rid, req.token, env.refreshGracePeriod, jkt, now, now2, plain, dbNow);
            var h1 := Step(h, env, StartExchange(rid, req, caller, jkt, now));
            var h' := Step(WithSystem(h1, Families.Run(System(h1), steps[1..])), env, Answer(rid));
            var (r, db) := RefreshExchange(h.db, env, req, caller, jkt, now, now2, plain, dbNow);
            && h'.db == db
            && h'.responses == h.responses + (if r.Success? then [r.value] else [])
  {
    var grace := env.refreshGracePeriod;
    var steps := Families.LoneRequest(rid, req.token, grace, jkt, now, now2, plain, dbNow);
    var stage := Families.SerialRotationIsAnUninterruptedRun(System(h), rid, req.token, grace, jkt, now, now2, plain,
                                                             dbNow);
    StartEffect(h, env, rid, req, caller, jkt, now);
    var h1 := Step(h, env, StartExchange(rid, req, caller, jkt, now));
    var s := Families.Run(System(h1), steps[1..]);
    assert s == Families.Run(System(h), steps);
    AnswerEffect(WithSystem(h1, s), env, rid);
    RotationStoresItsRow(h.db.tokens, req.token, grace, now, now2, jkt, plain, dbNow);
    var x := h1.exchanges[rid];
    AnswersAsSerial(h.db, env, req, caller, jkt, now, now2, plain, dbNow, s.rows, stage, x);
  }

  lemma StartEffect(h: History, env: Env, rid: nat, req: RefreshRequest, caller: Caller, jkt: Option<string>, now: int)
    requires rid !in h.requests && AdmitRefresh(h.db, req, caller).Success?
    ensures var h' := Step(h, env, StartExchange(rid, req, caller, jkt, now));
            && h'.db == h.db && h'.responses == h.responses && rid in h'.exchanges
            && System(h') == Families.Step(System(h), Families.Start(rid, req.token, env.refreshGracePeriod, jkt, now))
            && h'.exchanges[rid] == Exchange(h.db.tokens[Sha256(req.token)].clientId,
                                             AdmitRefresh(h.db, req, caller).value, jkt.Some?)
  {
  }

  /** The response that an exchange answers once its rotation has ended in a stage, if it answers any. */
  function ResponseOf(t: Table, stage: Families.Stage, x: Exchange): seq<TokenResponse> {
    if stage.Rotated? && Sha256(stage.issued) in t
    then [TokenResponse(t[Sha256(stage.issued)].userId, x.clientId, x.scope, stage.issued, x.dpop)]
    else []
  }

  lemma AnswerEffect(h: History, env: Env, rid: nat)
    requires rid in h.exchanges && rid in h.requests
    ensures Step(h, env, Answer(rid)).db == h.db
    ensures Step(h, env, Answer(rid)).responses
            == h.responses + ResponseOf(h.db.tokens, h.requests[rid].stage, h.exchanges[rid])
  {
  }

  lemma AnswersAsSerial(db: Db, env: Env, req: RefreshRequest, caller: Caller, jkt: Option<string>, now: int, now2: int,
                        plain: string, dbNow: int, t: Table, stage: Families.Stage, x: Exchange)
    requires AdmitRefresh(db, req, caller).Success?
    requires var (r, t') := RotateSerially(db.tokens, req.token, env.refreshGracePeriod, now, now2, jkt, plain, dbNow);
             && t == t'
             && (match r
                 case Success(issued) => stage.Rotated? && stage.issued == issued && Sha256(issued) in t
                 case Failure(e) => stage == Families.Failed(e))
    requires x == Exchange(db.tokens[Sha256(req.token)].clientId, AdmitRefresh(db, req, caller).value, jkt.Some?)
    ensures var (r, db') := RefreshExchange(db, env, req, caller, jkt, now, now2, plain, dbNow);
            && db' == db.(tokens := t)
            && ResponseOf(t, stage, x) == if r.Success? then [r.value] else []
  {
  }

  /** A serial rotation that succeeds has stored the row whose plaintext it answers. */
  lemma RotationStoresItsRow(t: Table, token: string, grace: int, now: int, now2: int, jkt: Option<string>,
                              plain: string, dbNow: int)
    ensures var (r, t') := RotateSerially(t, token, grace, now, now2, jkt, plain, dbNow);
            r.Success? ==> r.value == plain && Sha256(plain) in t' && Sha256(token) in t
  {
  }

  // ---------------------------------------------------------------------------------------------
  // A flow that nobody interrupts
  // ---------------------------------------------------------------------------------------------

  /** The three calls that may issue a code do to the tables what the endpoints do, and record every code they issue. */
  lemma IssuesAreRecorded(h: History, env: Env, e: Event)
    requires e.AuthorizeCall? || e.Consent? || (e.ParCall? && e.uri in h.db.pars)
    ensures var (r, db) := match e
                           case AuthorizeCall(u, q, now, plain) => Authorize(h.db, env, u, q, now, plain)
                           case Consent(u, q, approve, now, plain) => SubmitConsent(h.db, env, u, q, approve, now,
                                                                                    plain)
                           case ParCall(u, uri, c, readAt, now, usedAt, plain) =>
                             AuthorizeWithPar(h.db, env, u, uri, c, readAt, now, usedAt, plain);
            var h' := Step(h, env, e);
            && h' == h.(db := db, issues := h'.issues)
            && (!(r.Success? && r.value.Redirect?) ==> h'.issues == h.issues)
            && (r.Success? && r.value.Redirect? ==>
                  && var d := Sha256(r.value.code);
                  && d in h'.issues && h'.issues == h.issues[d := h'.issues[d]]
                  && h'.issues[d].userId == e.userId && h'.issues[d].at == e.now
                  && h'.issues[d].q == (if e.ParCall? then ParQuery(e.clientId, h.db.pars[e.uri].params) else e.q)
                  && h'.issues[d].par == (if e.ParCall? then Some(e.uri) else None))
  {
    match e
    case AuthorizeCall(u, q, now, plain) => AuthorizeEffect(h.db, env, u, q, now, plain);
    case Consent(u, q, approve, now, plain) => ConsentEffect(h.db, env, u, q, approve, now, plain);
    case ParCall(u, uri, c, readAt, now, usedAt, plain) =>
      ParEffect(h.db, env, u, uri, c, readAt, now, usedAt, plain);
      AuthorizeEffect(h.db, env, u, ParQuery(c, h.db.pars[uri].params), now, plain);
  }

  /**
   Redeeming an issued code in time, with its verifier and by its client, records the redemption and
   awaits the bundle.
   */
  lemma RedemptionIsRecorded(h: History, env: Env, req: CodeRequest, caller: Caller, now: int, usedAt: int)
    requires Inv(env, h) && Redeemable(env, h, req, caller, now)
    ensures var h' := Step(h, env, Redeem(req, caller, now, usedAt));
            var d := Sha256(req.code);
            && d in h.db.codes
            && h'.db == h.db.(codes := h.db.codes[d := h.db.codes[d].(usedAt := Some(usedAt))])
            && h'.pending == h.pending + {d}
            && h'.redemptions == h.redemptions + [Redemption(d, req.verifier, req.redirectUri, now)]
  {
    CodeIsRedeemable(env, h, req, caller, now, usedAt);
  }

  /** The bundle of a pending code answers with the code's user, client and scope, and roots a family in it. */
  lemma BundleIsRecorded(h: History, env: Env, d: Digest, familyId: string, plain: string, jkt: Option<string>,
                         now: int,
                         dbNow: int)
    requires d in h.pending && d in h.db.codes && familyId !in h.roots && Sha256(plain) !in h.db.tokens
    ensures var h' := Step(h, env, Bundle(d, familyId, plain, jkt, now, dbNow));
            var c := h.db.codes[d];
            && h'.pending == h.pending - {d} && h'.roots == h.roots[familyId := d]
            && h'.responses == h.responses + [TokenResponse(c.userId, c.clientId, c.scope, plain, jkt.Some?)]
            && h'.db.tokens.Keys == h.db.tokens.Keys + {Sha256(plain)}
            && h'.db == h.db.(tokens := h'.db.tokens)
  {
  }

  /**
   The flow from an authorization request to its tokens: whoever is issued a code for a challenge and
   presents a verifier of it in time, as the client, is answered exactly the scope that was asked for.
   */
  lemma FlowDelivers(h: History, env: Env, userId: string, q: Query, at: int, code: string, verifier: string,
                     caller: Caller, redeemAt: int, usedAt: int, familyId: string, plain: string, jkt: Option<string>,
                     bundleAt: int, dbAt: int)
    requires Inv(env, h) && Authorize(h.db, env, userId, q, at, code).0 == Success(Redirect(code))
    requires q.challenge == S256(verifier) && redeemAt < at + env.authCodeTtl * 1000
    requires q.clientId in h.db.clients
    requires h.db.clients[q.clientId].isConfidential
      ==> caller.authenticated == Some(q.clientId) || caller.secretMatches
    requires familyId !in h.roots && Sha256(plain) !in h.db.tokens
    ensures var req := CodeRequest(code, q.redirectUri, verifier, Some(q.clientId));
            var h1 := Step(h, env, AuthorizeCall(userId, q, at, code));
            var h2 := Step(h1, env, Redeem(req, caller, redeemAt, usedAt));
            var h3 := Step(h2, env, Bundle(Sha256(code), familyId, plain, jkt, bundleAt, dbAt));
            h3.responses == h.responses + [TokenResponse(userId, q.clientId, q.scope, plain, jkt.Some?)]
  {
    var req := CodeRequest(code, q.redirectUri, verifier, Some(q.clientId));
    var h1 := Step(h, env, AuthorizeCall(userId, q, at, code));
    AuthorizationIsRedeemable(h, env, userId, q, at, code, verifier, caller, redeemAt);
    RedeemedCodeDelivers(h1, env, req, caller, redeemAt, usedAt, familyId, plain, jkt, bundleAt, dbAt);
  }

  /** A redeemable code, redeemed and bundled, is answered with what was asked for when it was issued. */
  lemma RedeemedCodeDelivers(h: History, env: Env, req: CodeRequest, caller: Caller, redeemAt: int, usedAt: int,
                             familyId: string, plain: string, jkt: Option<string>, bundleAt: int, dbAt: int)
    requires Inv(env, h) && Redeemable(env, h, req, caller, redeemAt)
    requires familyId !in h.roots && Sha256(plain) !in h.db.tokens
    ensures var h1 := Step(h, env, Redeem(req, caller, redeemAt, usedAt));
            var i := h.issues[Sha256(req.code)];
            Step(h1, env, Bundle(Sha256(req.code), familyId, plain, jkt, bundleAt, dbAt)).responses
            == h.responses + [TokenResponse(i.userId, i.q.clientId, i.q.scope, plain, jkt.Some?)]
  {
    var d := Sha256(req.code);
    var h1 := Step(h, env, Redeem(req, caller, redeemAt, usedAt));
    assert CodeInv(env, h.db.codes[d], d, h.issues[d]);
    RedemptionIsRecorded(h, env, req, caller, redeemAt, usedAt);
    RedeemLeavesRest(h, env, req, caller, redeemAt, usedAt);
    BundleIsRecorded(h1, env, d, familyId, plain, jkt, bundleAt, dbAt);
  }

  lemma RedeemLeavesRest(h: History, env: Env, req: CodeRequest, caller: Caller, now: int, usedAt: int)
    ensures var h' := Step(h, env, Redeem(req, caller, now, usedAt));
            h'.roots == h.roots && h'.responses == h.responses && h'.db.tokens == h.db.tokens
  {
  }

  lemma AuthorizationIsRedeemable(h: History, env: Env, userId: string, q: Query, at: int, code: string,
                                  verifier: string, caller: Caller, redeemAt: int)
    requires Inv(env, h) && Authorize(h.db, env, userId, q, at, code).0 == Success(Redirect(code))
    requires q.challenge == S256(verifier) && redeemAt < at + env.authCodeTtl * 1000
    requires q.clientId in h.db.clients
    requires h.db.clients[q.clientId].isConfidential
      ==> caller.authenticated == Some(q.clientId) || caller.secretMatches
    ensures var h1 := Step(h, env, AuthorizeCall(userId, q, at, code));
            && Inv(env, h1)
            && Redeemable(env, h1, CodeRequest(code, q.redirectUri, verifier, Some(q.clientId)), caller, redeemAt)
            && h1.db.tokens == h.db.tokens && h1.roots == h.roots && h1.responses == h.responses
            && h1.issues[Sha256(code)].q == q && h1.issues[Sha256(code)].userId == userId
  {
    AuthorizeEffect(h.db, env, userId, q, at, code);
    IssuesAreRecorded(h, env, AuthorizeCall(userId, q, at, code));
    AuthorizeStep(h, env, userId, q, at, code);
    FreshCodeIsUnredeemed(env, h, Sha256(code));
  }

  lemma FreshCodeIsUnredeemed(env: Env, h: History, d: Digest)
    requires Inv(env, h) && d !in h.db.codes
    ensures !Redeemed(h.redemptions, d)
  {
    forall i | 0 <= i < |h.redemptions|
      ensures h.redemptions[i].code in h.db.codes
    {
      assert RedemptionInv(h.db.codes, h.redemptions[i]);
    }
  }

  // ---------------------------------------------------------------------------------------------
  // What holds after every run
  // ---------------------------------------------------------------------------------------------

  /**
   To the refresh families, every run of the service is a run of their own protocol: what
   RefreshFamilies.dfy proves of reachable states holds of the service's tokens.
   */
  lemma RunsAreFamilyRuns(env: Env, es: seq<Event>)
    ensures Families.Reachable(System(Run(INIT, env, es)))
  {
    ReachedInv(env, es);
  }

  /**
   The scope of every token response lies within the scope of the one redeemed code its family grew
   from; that scope was registered for the client when the code was issued, and for a client that is
   not first-party it was covered by the user's unrevoked grants.
   */
  lemma ScopeProvenance(env: Env, es: seq<Event>, k: nat)
    requires k < |Run(INIT, env, es).responses|
    ensures var h := Run(INIT, env, es);
            var resp := h.responses[k];
            && Sha256(resp.refreshToken) in h.db.tokens
            && var f := h.db.tokens[Sha256(resp.refreshToken)].familyId;
            && f in h.roots && h.roots[f] in h.db.codes && h.roots[f] in h.issues
            && var code, issue := h.db.codes[h.roots[f]], h.issues[h.roots[f]];
            && code.usedAt.Some? && code.clientId == resp.clientId && code.userId == resp.userId
            && issue.q.clientId == resp.clientId && issue.userId == resp.userId && issue.q.scope == code.scope
            && ScopeSet(resp.scope) <= ScopeSet(code.scope) <= issue.registered
            && (!issue.firstParty ==> ScopeSet(code.scope) <= issue.granted)
  {
    var h := Run(INIT, env, es);
    ReachedInv(env, es);
    var resp := h.responses[k];
    assert ResponseInv(h.db.tokens, resp);
    var row := h.db.tokens[Sha256(resp.refreshToken)];
    assert RowInv(h.db.codes, h.roots, row);
    var d := h.roots[row.familyId];
    assert CodeInv(env, h.db.codes[d], d, h.issues[d]);
    assert d in h.roots.Values;
    assert Used(h.db.codes, d);
  }

  /**
   No code is redeemed twice, and only within its lifetime, with the redirect URI of the request that
   it was issued for and a verifier of that request's challenge.
   */
  lemma CodesAreRedeemedOnce(env: Env, es: seq<Event>)
    ensures var h := Run(INIT, env, es);
            && (forall i, j | 0 <= i < j < |h.redemptions| :: h.redemptions[i].code != h.redemptions[j].code)
            && (forall i | 0 <= i < |h.redemptions| ::
                  var r := h.redemptions[i];
                  && r.code in h.issues
                  && var issue := h.issues[r.code];
                  issue.q.challenge == S256(r.verifier) && issue.q.redirectUri == r.redirectUri
                    && r.at < issue.at + env.authCodeTtl * 1000)
  {
    ReachedInv(env, es);
    var h := Run(INIT, env, es);
    forall i | 0 <= i < |h.redemptions|
      ensures RedemptionInv(h.db.codes, h.redemptions[i])
      ensures h.redemptions[i].code in h.issues
        && CodeInv(env, h.db.codes[h.redemptions[i].code], h.redemptions[i].code, h.issues[h.redemptions[i].code])
    {
      assert RedemptionInv(h.db.codes, h.redemptions[i]);
    }
  }

  /**
   The code was issued, has not been redeemed, is younger than its lifetime, and comes with the
   redirect URI of its request, a verifier of its challenge, and its own client, proven if confidential.
   */
  ghost predicate Redeemable(env: Env, h: History, req: CodeRequest, caller: Caller, now: int) {
    var d := Sha256(req.code);
    && d in h.issues && !Redeemed(h.redemptions, d)
    && var issue := h.issues[d];
    && now < issue.at + env.authCodeTtl * 1000
    && issue.q.redirectUri == req.redirectUri && issue.q.challenge == S256(req.verifier)
    && issue.q.clientId in h.db.clients && (req.clientId.None? || req.clientId.value == issue.q.clientId)
    && (h.db.clients[issue.q.clientId].isConfidential
        ==> caller.authenticated == Some(issue.q.clientId) || caller.secretMatches)
  }

  /** A redemption that succeeds answers what was asked for when the code was issued. */
  ghost predicate AnswersIssue(i: Issue, c: Code) {
    c.scope == i.q.scope && c.userId == i.userId && c.clientId == i.q.clientId && c.nonce == i.q.nonce
  }

  /**
   After any run, a code can be redeemed exactly when it is redeemable in terms of what was issued and
   redeemed before.
   */
  lemma RedeemableExactly(env: Env, es: seq<Event>, req: CodeRequest, caller: Caller, now: int, usedAt: int)
    ensures var h := Run(INIT, env, es);
            var r := RedeemCode(h.db, req, caller, now, usedAt).0;
            && (r.Success? <==> Redeemable(env, h, req, caller, now))
            && (r.Success? ==> AnswersIssue(h.issues[Sha256(req.code)], r.value))
  {
    ReachedInv(env, es);
    CodeIsRedeemable(env, Run(INIT, env, es), req, caller, now, usedAt);
  }

  lemma CodeIsRedeemable(env: Env, h: History, req: CodeRequest, caller: Caller, now: int, usedAt: int)
    requires Inv(env, h)
    ensures var r := RedeemCode(h.db, req, caller, now, usedAt).0;
            && (r.Success? <==> Redeemable(env, h, req, caller, now))
            && (r.Success? ==> AnswersIssue(h.issues[Sha256(req.code)], r.value))
  {
    var d := Sha256(req.code);
    if d in h.issues {
      assert CodeInv(env, h.db.codes[d], d, h.issues[d]);
      if i :| 0 <= i < |h.redemptions| && h.redemptions[i].code == d {
        assert RedemptionInv(h.db.codes, h.redemptions[i]);
      }
    }
  }

  /** A pushed request leads to at most one code, which asks for what was pushed; after that it is used. */
  lemma PushedRequestsIssueOnce(env: Env, es: seq<Event>, uri: string)
    ensures var h := Run(INIT, env, es);
            var codes := set d | d in h.issues && h.issues[d].par == Some(uri);
            && |codes| <= 1
            && (forall d | d in codes ::
                  uri in h.db.pars && h.db.pars[uri].usedAt.Some?
                    && h.issues[d].q == ParQuery(h.db.pars[uri].clientId, h.db.pars[uri].params))
  {
    ReachedInv(env, es);
    IssuedForPar(Run(INIT, env, es).issues, Run(INIT, env, es).db.pars, uri);
  }

  lemma IssuedForPar(issues: map<Digest, Issue>, pars: map<string, Par>, uri: string)
    requires ParsInv(issues, pars)
    ensures var codes := set d | d in issues && issues[d].par == Some(uri);
            |codes| <= 1 && (forall d | d in codes :: FromPar(pars, issues[d], uri))
  {
    var codes := set d | d in issues && issues[d].par == Some(uri);
    assert forall d | d in codes :: issues[d].par.value == uri;
    if codes != {} {
      var d :| d in codes;
      assert codes == {d};
    }
  }

  lemma {:induction false} InjectiveValues(m: map<string, Digest>)
    requires forall f, g | f in m && g in m && m[f] == m[g] :: f == g
    ensures |m.Values| == |m|
    decreases |m|
  {
    if m != map[] {
      var f :| f in m;
      var rest := m - {f};
      assert m.Keys == rest.Keys + {f};
      assert |m.Keys| == |m| && |rest.Keys| == |rest|;
      InjectiveValues(rest);
      ValuesOfRest(m, f);
    } else {
      assert m.Values == {};
    }
  }

  lemma ValuesOfRest(m: map<string, Digest>, f: string)
    requires f in m && forall g | g in m && m[g] == m[f] :: g == f
    ensures m.Values == (m - {f}).Values + {m[f]} && m[f] !in (m - {f}).Values
  {
    var rest := m - {f};
    forall v
      ensures v in m.Values <==> v in rest.Values || v == m[f]
    {
      if v in rest.Values {
        var g :| g in rest && rest[g] == v;
        assert m[g] == v;
      }
      if v in m.Values && v != m[f] {
        var g :| g in m && m[g] == v;
        assert rest[g] == v;
      }
    }
  }

  ghost function FamilyIds(t: Table): set<string> {
    set d | d in t :: t[d].familyId
  }

  ghost function UsedCodes(codes: Codes): set<Digest> {
    set d | d in codes && codes[d].usedAt.Some?
  }

  lemma FamiliesAreTheRoots(codes: Codes, roots: map<string, Digest>, t: Table)
    requires TokensInv(codes, roots, t)
    ensures FamilyIds(t) == roots.Keys
  {
    forall f | f in roots
      ensures f in FamilyIds(t)
    {
      var d :| d in t && t[d].familyId == f;
    }
    assert forall d | d in t :: RowInv(codes, roots, t[d]);
  }

  lemma UsedCodesAre(codes: Codes, pending: set<Digest>, roots: map<string, Digest>)
    requires UseInv(codes, pending, roots)
    ensures UsedCodes(codes) == pending + roots.Values && pending !! roots.Values
    ensures |roots.Values| == |roots.Keys|
  {
    assert forall d :: d in UsedCodes(codes) <==> Used(codes, d);
    InjectiveValues(roots);
    assert |roots.Keys| == |roots|;
  }

  /** Refresh families are conserved: one for each redeemed code, except those still waiting for their bundle. */
  lemma FamiliesAreConserved(env: Env, es: seq<Event>)
    ensures var h := Run(INIT, env, es);
            |FamilyIds(h.db.tokens)| + |h.pending| == |UsedCodes(h.db.codes)|
  {
    ReachedInv(env, es);
    var h := Run(INIT, env, es);
    FamiliesAreTheRoots(h.db.codes, h.roots, h.db.tokens);
    UsedCodesAre(h.db.codes, h.pending, h.roots);
  }
}
