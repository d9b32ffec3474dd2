/**
 Registration and email verification (apps/server/src/modules/auth/email-verification.service.ts,
 auth.service.ts:41-72), with the administrator's change of a user's status (admin.service.ts:68-100).

 Calls are serial. Each call reads the clock several times; the readings of a run never decrease.
 */
module EmailVerification {
  import opened AccountTokens
  import opened Common
  import Sessions

  const VERIFICATION_TTL_MS := 24 * 60 * 60 * 1000

  datatype Status = PendingVerification | Active | Suspended

  datatype Account = Account(status: Status, emailVerified: bool)

  /** The tokens, the users by id, and the unique index from email to id. */
  datatype Accounts = Accounts(tokens: seq<Token>, users: map<string, Account>, emails: map<string, string>)

  const NOBODY := Accounts([], map[], map[])

  /** UPDATE ... SET used_at = usedAt WHERE the row is live for the user at comparedAt. */
  function ConsumeLive(rows: seq<Token>, userId: string, usedAt: int, comparedAt: int): (r: seq<Token>)
    ensures |r| == |rows|
    ensures forall i | 0 <= i < |r| ::
              r[i] == if Live(rows[i], userId, comparedAt) then rows[i].(usedAt := Some(usedAt)) else rows[i]
  {
    seq(|rows|, i requires 0 <= i < |rows| =>
      if Live(rows[i], userId, comparedAt) then rows[i].(usedAt := Some(usedAt)) else rows[i])
  }

  /** generateVerificationToken; refused only if the random token is taken. */
  function Mint(rows: seq<Token>, userId: string, plain: string, mintAt: int, dbNow: int): seq<Token> {
    if Find(rows, plain).Some? then rows
    else rows + [Token(userId, plain, mintAt + VERIFICATION_TTL_MS, None, dbNow)]
  }

  /** INSERT of a user, refused by the unique columns email and id. */
  function AddUser(s: Accounts, email: string, userId: string): Option<Accounts> {
    if email in s.emails || userId in s.users then None
    else Some(s.(users := s.users[userId := Account(PendingVerification, false)], emails := s.emails[email := userId]))
  }

  /** register, as far as accounts and tokens go: a new user and its first token. */
  function Register(s: Accounts, email: string, userId: string, plain: string, mintAt: int, dbNow: int): Accounts {
    match AddUser(s, email, userId)
    case None => s
    case Some(s') => s'.(tokens := Mint(s'.tokens, userId, plain, mintAt, dbNow))
  }

  /** Whether a verification email may be sent to the account that an email names, and to whom. */
  function Eligible(s: Accounts, email: string): Option<string> {
    if email !in s.emails || s.emails[email] !in s.users then None
    else
      var u := s.emails[email];
      if s.users[u].emailVerified || s.users[u].status != PendingVerification then None else Some(u)
  }

  /** resendVerificationForEmail. */
  function Resend(s: Accounts, email: string, plain: string, usedAt: int, comparedAt: int, mintAt: int, dbNow: int)
    : Accounts
  {
    match Eligible(s, email)
    case None => s
    case Some(u) => s.(tokens := Mint(ConsumeLive(s.tokens, u, usedAt, comparedAt), u, plain, mintAt, dbNow))
  }

  /** verifyEmail: whether it succeeds, whether the event is published, and the new tables. */
  function VerifyEmail(s: Accounts, token: string, checkedAt: int, usedAt: int, comparedAt: int)
    : (bool, bool, Accounts)
  {
    match Find(s.tokens, token)
    case None => (false, false, s)
    case Some(i) =>
      if || i >= |s.tokens| || s.tokens[i].usedAt.Some? || s.tokens[i].expiresAt <= checkedAt
         || s.tokens[i].expiresAt <= comparedAt || s.tokens[i].userId !in s.users
      then (false, false, s)
      else
        var u := s.tokens[i].userId;
        var s' := s.(tokens := MarkUsed(s.tokens, i, usedAt));
        if s.users[u].status == PendingVerification
        then (true, true, s'.(users := s.users[u := Account(Active, true)]))
        else (true, false, s')
  }

  /** updateUserStatus: an administrator activates or suspends a user; the email counts as verified or not as before. */
  function SetStatus(s: Accounts, userId: string, status: Status): Accounts {
    if userId !in s.users || status == PendingVerification then s
    else s.(users := s.users[userId := s.users[userId].(status := status)])
  }

  // ---------------------------------------------------------------------------------------------
  // What single calls amount to
  // ---------------------------------------------------------------------------------------------

  /** A resend concerns exactly a registered email whose account is pending and not verified. */
  lemma EligibleExactly(s: Accounts, email: string, u: string)
    ensures Eligible(s, email) == Some(u) <==>
            && email in s.emails && s.emails[email] == u && u in s.users
            && s.users[u].status == PendingVerification && !s.users[u].emailVerified
  {
  }

  /**
   A resend for such an account consumes its live tokens and stores one new token; for any other email
   it does nothing.
   */
  lemma ResendExactly(s: Accounts, email: string, plain: string, usedAt: int, comparedAt: int, mintAt: int, dbNow: int)
    requires forall i | 0 <= i < |s.tokens| :: s.tokens[i].token != plain
    ensures var s' := Resend(s, email, plain, usedAt, comparedAt, mintAt, dbNow);
            var u := if email in s.emails then s.emails[email] else "";
            && s'.users == s.users && s'.emails == s.emails
            && if email in s.emails && u in s.users && s.users[u].status == PendingVerification
                  && !s.users[u].emailVerified
               then && |s'.tokens| == |s.tokens| + 1
                    && s'.tokens[|s.tokens|] == Token(u, plain, mintAt + 86_400_000, None, dbNow)
                    && forall i | 0 <= i < |s.tokens| ::
                         s'.tokens[i] == if s.tokens[i].userId == u && s.tokens[i].usedAt.None?
                                            && s.tokens[i].expiresAt > comparedAt
                                         then s.tokens[i].(usedAt := Some(usedAt)) else s.tokens[i]
               else s' == s
  {
    FindFinds(s.tokens, plain);
    if Eligible(s, email).Some? {
      var consumed := ConsumeLive(s.tokens, Eligible(s, email).value, usedAt, comparedAt);
      FindSurvives(s.tokens, consumed, plain);
      assert forall i | 0 <= i < |s.tokens| :: (consumed + [Token("", "", 0, None, 0)])[i] == consumed[i];
    }
  }

  /** A registration under a free email and id adds the pending account and its first token, and nothing else. */
  lemma RegisterExactly(s: Accounts, email: string, userId: string, plain: string, mintAt: int, dbNow: int)
    requires forall i | 0 <= i < |s.tokens| :: s.tokens[i].token != plain
    ensures Register(s, email, userId, plain, mintAt, dbNow)
            == if email in s.emails || userId in s.users then s
               else Accounts(s.tokens + [Token(userId, plain, mintAt + 86_400_000, None, dbNow)],
                             s.users[userId := Account(PendingVerification, false)], s.emails[email := userId])
  {
    FindFinds(s.tokens, plain);
  }

  /** A verification marks its own token, with the time, and touches at most the account that the token belongs to. */
  lemma VerifyMarksOne(s: Accounts, token: string, checkedAt: int, usedAt: int, comparedAt: int)
    requires forall i, j | 0 <= i < j < |s.tokens| :: s.tokens[i].token != s.tokens[j].token
    ensures var (ok, didVerify, s') := VerifyEmail(s, token, checkedAt, usedAt, comparedAt);
            && (ok <==> exists t :: t in s.tokens && t.token == token && t.usedAt.None? && t.userId in s.users
                                    && checkedAt < t.expiresAt && comparedAt < t.expiresAt)
            && (!ok ==> s' == s && !didVerify)
            && s'.emails == s.emails && |s'.tokens| == |s.tokens|
            && (forall i | 0 <= i < |s.tokens| ::
                  s'.tokens[i] == if ok && s.tokens[i].token == token then s.tokens[i].(usedAt := Some(usedAt))
                                  else s.tokens[i])
            && (forall i | 0 <= i < |s.tokens| && ok && s.tokens[i].token == token ::
                  var u := s.tokens[i].userId;
                  && (didVerify <==> s.users[u].status == PendingVerification)
                  && s'.users == if didVerify then s.users[u := Account(Active, true)] else s.users)
  {
    FindFinds(s.tokens, token);
    if t :| t in s.tokens && t.token == token && t.usedAt.None? && t.userId in s.users
            && checkedAt < t.expiresAt && comparedAt < t.expiresAt {
      var i :| 0 <= i < |s.tokens| && s.tokens[i] == t;
    }
  }

  /** An administrator may activate or suspend a known user, and changes nothing but the status. */
  lemma StatusIsSetExactly(s: Accounts, userId: string, status: Status)
    ensures SetStatus(s, userId, status)
            == if userId in s.users && (status == Active || status == Suspended)
               then s.(users := s.users[userId := Account(status, s.users[userId].emailVerified)]) else s
  {
  }

  // ---------------------------------------------------------------------------------------------
  // Serial runs
  // ---------------------------------------------------------------------------------------------

  datatype Event =
    | RegisterCall(email: string, newUser: string, plain: string, mintAt: int, dbNow: int)
    | ResendCall(email: string, plain: string, usedAt: int, comparedAt: int, mintAt: int, dbNow: int)
    | VerifyCall(token: string, checkedAt: int, usedAt: int, comparedAt: int)
    | StatusCall(changed: string, status: Status)

  ghost predicate TimelyCall(clock: int, e: Event) {
    match e
    case RegisterCall(_, _, _, mintAt, dbNow) => clock <= mintAt <= dbNow
    case ResendCall(_, _, usedAt, comparedAt, mintAt, dbNow) => clock <= usedAt <= comparedAt <= mintAt <= dbNow
    case VerifyCall(_, checkedAt, usedAt, comparedAt) => clock <= checkedAt <= usedAt <= comparedAt
    case StatusCall(_, _) => true
  }

  function ClockAfter(clock: int, e: Event): int {
    match e
    case RegisterCall(_, _, _, _, dbNow) => dbNow
    case ResendCall(_, _, _, _, _, dbNow) => dbNow
    case VerifyCall(_, _, _, comparedAt) => comparedAt
    case StatusCall(_, _) => clock
  }

  ghost predicate Timely(clock: int, es: seq<Event>)
    decreases |es|
  {
    es == [] || (TimelyCall(clock, es[0]) && Timely(ClockAfter(clock, es[0]), es[1..]))
  }

  function EndClock(clock: int, es: seq<Event>): int
    decreases |es|
  {
    if es == [] then clock else EndClock(ClockAfter(clock, es[0]), es[1..])
  }

  function Step(s: Accounts, e: Event): Accounts {
    match e
    case RegisterCall(email, u, plain, mintAt, dbNow) => Register(s, email, u, plain, mintAt, dbNow)
    case ResendCall(email, plain, usedAt, comparedAt, mintAt, dbNow) =>
      Resend(s, email, plain, usedAt, comparedAt, mintAt, dbNow)
    case VerifyCall(token, checkedAt, usedAt, comparedAt) => VerifyEmail(s, token, checkedAt, usedAt, comparedAt).2
    case StatusCall(u, status) => SetStatus(s, u, status)
  }

  function Run(s: Accounts, es: seq<Event>): Accounts
    decreases |es|
  {
    if es == [] then s else Run(Step(s, es[0]), es[1..])
  }

  // ---------------------------------------------------------------------------------------------
  // At most one live token
  // ---------------------------------------------------------------------------------------------

  ghost predicate SpentFor(rows: seq<Token>, userId: string) {
    exists i :: 0 <= i < |rows| && rows[i].userId == userId && rows[i].usedAt.Some?
  }

  /** Tokens belong to registered users, and a verified address was verified by a token minted for it. */
  ghost predicate AccountsInv(s: Accounts, clock: int) {
    && AtMost(s.tokens, 1, clock)
    && (forall i | 0 <= i < |s.tokens| :: s.tokens[i].userId in s.users)
    && (forall u | u in s.users && s.users[u].emailVerified :: SpentFor(s.tokens, u))
  }

  lemma {:induction false} NobodysTokens(rows: seq<Token>, userId: string, now: int)
    requires forall i | 0 <= i < |rows| :: !Live(rows[i], userId, now)
    ensures CountLive(rows, userId, now) == 0
  {
    if rows != [] {
      assert forall i | 0 <= i < |rows| - 1 :: rows[..|rows| - 1][i] == rows[i];
      NobodysTokens(rows[..|rows| - 1], userId, now);
    }
  }

  lemma SpentStays(rows: seq<Token>, rows': seq<Token>, userId: string)
    requires SpentFor(rows, userId)
    requires |rows| <= |rows'| && OnlyMarked(rows, rows'[..|rows|])
    ensures SpentFor(rows', userId)
  {
    var i :| 0 <= i < |rows| && rows[i].userId == userId && rows[i].usedAt.Some?;
    assert rows'[i] == rows'[..|rows|][i];
  }

  lemma MintKeepsBound(rows: seq<Token>, userId: string, plain: string, mintAt: int, dbNow: int, since: int)
    requires AtMost(rows, 1, since) && since <= mintAt <= dbNow
    requires forall i | 0 <= i < |rows| :: !Live(rows[i], userId, dbNow)
    ensures AtMost(Mint(rows, userId, plain, mintAt, dbNow), 1, dbNow)
  {
    var rows' := Mint(rows, userId, plain, mintAt, dbNow);
    if rows' != rows {
      var t := Token(userId, plain, mintAt + VERIFICATION_TTL_MS, None, dbNow);
      forall u, now | now >= dbNow
        ensures CountLive(rows', u, now) <= 1
      {
        AppendLive(rows, t, u, now);
        if u == userId {
          NobodysTokens(rows, u, now);
        }
      }
    }
  }

  lemma ConsumeLeavesNone(rows: seq<Token>, userId: string, usedAt: int, comparedAt: int, now: int, clock: int)
    requires comparedAt <= now && AtMost(rows, 1, clock) && clock <= comparedAt
    ensures OnlyMarked(rows, ConsumeLive(rows, userId, usedAt, comparedAt))
    ensures AtMost(ConsumeLive(rows, userId, usedAt, comparedAt), 1, comparedAt)
    ensures forall i | 0 <= i < |rows| :: !Live(ConsumeLive(rows, userId, usedAt, comparedAt)[i], userId, now)
  {
    var rows' := ConsumeLive(rows, userId, usedAt, comparedAt);
    forall u, t | t >= comparedAt
      ensures CountLive(rows', u, t) <= 1
    {
      MarkingNeverRevives(rows, rows', u, t, t);
    }
  }

  lemma VerifiedStillSpent(s: Accounts, s': Accounts)
    requires forall u | u in s.users && s.users[u].emailVerified :: SpentFor(s.tokens, u)
    requires forall u | u in s'.users && s'.users[u].emailVerified :: u in s.users && s.users[u].emailVerified
    requires |s.tokens| <= |s'.tokens| && OnlyMarked(s.tokens, s'.tokens[..|s.tokens|])
    ensures forall u | u in s'.users && s'.users[u].emailVerified :: SpentFor(s'.tokens, u)
  {
    forall u | u in s'.users && s'.users[u].emailVerified
      ensures SpentFor(s'.tokens, u)
    {
      SpentStays(s.tokens, s'.tokens, u);
    }
  }

  lemma RegisterKeepsInv(s: Accounts, clock: int, e: Event)
    requires AccountsInv(s, clock) && e.RegisterCall? && TimelyCall(clock, e)
    ensures AccountsInv(Step(s, e), e.dbNow)
  {
    if AddUser(s, e.email, e.newUser).Some? {
      FirstTokenKeepsInv(s, AddUser(s, e.email, e.newUser).value, clock, e.newUser, e.plain, e.mintAt, e.dbNow);
    }
  }

  lemma FirstTokenKeepsInv(s: Accounts, added: Accounts, clock: int, newUser: string, plain: string, mintAt: int,
                           dbNow: int)
    requires AccountsInv(s, clock) && clock <= mintAt <= dbNow && newUser !in s.users && added.tokens == s.tokens
    requires added.users == s.users[newUser := Account(PendingVerification, false)]
    ensures AccountsInv(added.(tokens := Mint(s.tokens, newUser, plain, mintAt, dbNow)), dbNow)
  {
    var s' := added.(tokens := Mint(s.tokens, newUser, plain, mintAt, dbNow));
    MintKeepsBound(s.tokens, newUser, plain, mintAt, dbNow, clock);
    assert s'.tokens[..|s.tokens|] == s.tokens;
    VerifiedStillSpent(s, s');
  }

  lemma ResendKeepsInv(s: Accounts, clock: int, e: Event)
    requires AccountsInv(s, clock) && e.ResendCall? && TimelyCall(clock, e)
    ensures AccountsInv(Step(s, e), e.dbNow)
  {
    if Eligible(s, e.email).Some? {
      ResentTokenKeepsInv(s, clock, Eligible(s, e.email).value, e);
    }
  }

  lemma ResentTokenKeepsInv(s: Accounts, clock: int, u: string, e: Event)
    requires AccountsInv(s, clock) && e.ResendCall? && TimelyCall(clock, e) && u in s.users
    ensures var consumed := ConsumeLive(s.tokens, u, e.usedAt, e.comparedAt);
            AccountsInv(s.(tokens := Mint(consumed, u, e.plain, e.mintAt, e.dbNow)), e.dbNow)
  {
    var consumed := ConsumeLive(s.tokens, u, e.usedAt, e.comparedAt);
    var s' := s.(tokens := Mint(consumed, u, e.plain, e.mintAt, e.dbNow));
    ConsumeLeavesNone(s.tokens, u, e.usedAt, e.comparedAt, e.dbNow, clock);
    MintKeepsBound(consumed, u, e.plain, e.mintAt, e.dbNow, e.comparedAt);
    assert s'.tokens[..|s.tokens|] == consumed;
    OwnersStay(s.tokens, consumed, s'.tokens, u, s.users.Keys);
    VerifiedStillSpent(s, s');
  }

  lemma OwnersStay(rows: seq<Token>, consumed: seq<Token>, rows': seq<Token>, u: string, users: set<string>)
    requires (forall i | 0 <= i < |rows| :: rows[i].userId in users) && u in users
    requires |consumed| == |rows| && forall i | 0 <= i < |rows| :: consumed[i].userId == rows[i].userId
    requires |rows'| >= |rows| && rows'[..|rows|] == consumed
    requires forall i | |rows| <= i < |rows'| :: rows'[i].userId == u
    ensures forall i | 0 <= i < |rows'| :: rows'[i].userId in users
  {
    forall i | 0 <= i < |rows'|
      ensures rows'[i].userId in users
    {
      assert i < |rows| ==> rows'[..|rows|][i] == consumed[i];
    }
  }

  lemma VerifyKeepsInv(s: Accounts, clock: int, token: string, checkedAt: int, usedAt: int, comparedAt: int)
    requires AccountsInv(s, clock) && clock <= checkedAt <= usedAt <= comparedAt
    ensures AccountsInv(VerifyEmail(s, token, checkedAt, usedAt, comparedAt).2, comparedAt)
  {
    var (ok, didVerify, s') := VerifyEmail(s, token, checkedAt, usedAt, comparedAt);
    FindFinds(s.tokens, token);
    if ok {
      var i := Find(s.tokens, token).value;
      assert OnlyMarked(s.tokens, s'.tokens);
      forall u, now | now >= comparedAt
        ensures CountLive(s'.tokens, u, now) <= 1
      {
        MarkingNeverRevives(s.tokens, s'.tokens, u, now, now);
      }
      assert s'.tokens[..|s.tokens|] == s'.tokens;
      forall v | v in s'.users && s'.users[v].emailVerified
        ensures SpentFor(s'.tokens, v)
      {
        if v == s.tokens[i].userId {
          assert s'.tokens[i].usedAt.Some?;
        } else {
          SpentStays(s.tokens, s'.tokens, v);
        }
      }
    }
  }

  lemma {:induction false} RunKeepsInv(s: Accounts, clock: int, es: seq<Event>)
    requires AccountsInv(s, clock) && Timely(clock, es)
    ensures AccountsInv(Run(s, es), EndClock(clock, es))
    decreases |es|
  {
    if es != [] {
      var e := es[0];
      match e {
        case RegisterCall(_, _, _, _, _) => RegisterKeepsInv(s, clock, e);
        case ResendCall(_, _, _, _, _, _) => ResendKeepsInv(s, clock, e);
        case VerifyCall(token, checkedAt, usedAt, comparedAt) =>
          VerifyKeepsInv(s, clock, token, checkedAt, usedAt, comparedAt);
        case StatusCall(_, _) =>
      }
      RunKeepsInv(Step(s, e), ClockAfter(clock, e), es[1..]);
    }
  }

  /**
   In every serial run a user has at most one live verification token, and whoever counts as
   verified has spent a token minted for them.
   */
  lemma AtMostOneLiveVerificationToken(clock: int, es: seq<Event>, userId: string)
    requires Timely(clock, es)
    ensures var s := Run(NOBODY, es);
            && CountLive(s.tokens, userId, EndClock(clock, es)) <= 1
            && (userId in s.users && s.users[userId].emailVerified ==> SpentFor(s.tokens, userId))
  {
    RunKeepsInv(NOBODY, clock, es);
  }

  // ---------------------------------------------------------------------------------------------
  // What becomes of one token
  // ---------------------------------------------------------------------------------------------

  /** The email index is one-to-one, and every token belongs to a user that it names. */
  ghost predicate Indexed(s: Accounts) {
    && (forall e | e in s.emails :: s.emails[e] in s.users)
    && (forall e, f | e in s.emails && f in s.emails && s.emails[e] == s.emails[f] :: e == f)
  }

  lemma StepKeepsIndex(s: Accounts, e: Event)
    requires Indexed(s)
    ensures Indexed(Step(s, e))
    ensures forall u | u in s.users :: u in Step(s, e).users
    ensures forall m | m in s.emails :: m in Step(s, e).emails && Step(s, e).emails[m] == s.emails[m]
  {
  }

  lemma {:induction false} RunKeepsIndex(s: Accounts, es: seq<Event>)
    requires Indexed(s)
    ensures Indexed(Run(s, es))
    decreases |es|
  {
    if es != [] {
      StepKeepsIndex(s, es[0]);
      RunKeepsIndex(Step(s, es[0]), es[1..]);
    }
  }

  ghost predicate StandsAt(s: Accounts, token: string, i: nat, t: Token) {
    Find(s.tokens, token) == Some(i) && i < |s.tokens| && s.tokens[i] == t
  }

  lemma MintSparesToken(rows: seq<Token>, u: string, plain: string, mintAt: int, dbNow: int, token: string)
    requires Find(rows, token).Some?
    ensures Find(Mint(rows, u, plain, mintAt, dbNow), token) == Find(rows, token)
    ensures rows <= Mint(rows, u, plain, mintAt, dbNow)
  {
    var rows' := Mint(rows, u, plain, mintAt, dbNow);
    if rows' != rows {
      assert rows'[..|rows|] == rows;
    }
  }

  /** A step leaves a token as it is unless it presents it, or consumes its user's live tokens and it is one. */
  lemma StepSparesToken(s: Accounts, e: Event, token: string, i: nat, t: Token)
    requires StandsAt(s, token, i, t)
    requires e.VerifyCall? ==> e.token != token || t.usedAt.Some?
    requires e.ResendCall? && Eligible(s, e.email).Some? ==> Eligible(s, e.email).value != t.userId || t.usedAt.Some?
    ensures StandsAt(Step(s, e), token, i, t)
  {
    match e
    case RegisterCall(email, u, plain, mintAt, dbNow) => MintSparesToken(s.tokens, u, plain, mintAt, dbNow, token);
    case ResendCall(email, plain, usedAt, comparedAt, mintAt, dbNow) =>
      if Eligible(s, email).Some? {
        var u := Eligible(s, email).value;
        var consumed := ConsumeLive(s.tokens, u, usedAt, comparedAt);
        FindSurvives(s.tokens, consumed, token);
        MintSparesToken(consumed, u, plain, mintAt, dbNow, token);
        assert consumed[i] == t;
      }
    case VerifyCall(other, checkedAt, usedAt, comparedAt) =>
      FindFinds(s.tokens, other);
      FindFinds(s.tokens, token);
      FindSurvives(s.tokens, Step(s, e).tokens, token);
    case StatusCall(_, _) =>
  }

  lemma {:induction false} SpentTokenStands(s: Accounts, es: seq<Event>, token: string, i: nat, t: Token)
    requires StandsAt(s, token, i, t) && t.usedAt.Some?
    ensures StandsAt(Run(s, es), token, i, t)
    decreases |es|
  {
    if es != [] {
      StepSparesToken(s, es[0], token, i, t);
      SpentTokenStands(Step(s, es[0]), es[1..], token, i, t);
    }
  }

  /** A verification token works once: after every continuation it is refused, and the refusal changes nothing. */
  lemma VerificationTokenWorksOnce(s: Accounts, token: string, checkedAt: int, usedAt: int, comparedAt: int,
                                   es: seq<Event>, checkedAgain: int, usedAgain: int, comparedAgain: int)
    requires VerifyEmail(s, token, checkedAt, usedAt, comparedAt).0
    ensures var later := Run(VerifyEmail(s, token, checkedAt, usedAt, comparedAt).2, es);
            VerifyEmail(later, token, checkedAgain, usedAgain, comparedAgain) == (false, false, later)
  {
    var s' := VerifyEmail(s, token, checkedAt, usedAt, comparedAt).2;
    FindFinds(s.tokens, token);
    FindSurvives(s.tokens, s'.tokens, token);
    var i := Find(s.tokens, token).value;
    SpentTokenStands(s', es, token, i, s'.tokens[i]);
  }

  /**
   The calls that may touch a live token of the user that an email names: presenting it, and resending
   to that email.
   */
  ghost predicate LeavesAlone(e: Event, token: string, email: string) {
    (e.VerifyCall? ==> e.token != token) && (e.ResendCall? ==> e.email != email)
  }

  lemma {:induction false} LiveTokenStands(s: Accounts, es: seq<Event>, token: string, email: string, i: nat, t: Token)
    requires Indexed(s) && StandsAt(s, token, i, t)
    requires email in s.emails && s.emails[email] == t.userId
    requires forall j | 0 <= j < |es| :: LeavesAlone(es[j], token, email)
    ensures StandsAt(Run(s, es), token, i, t) && t.userId in Run(s, es).users
    decreases |es|
  {
    if es != [] {
      assert LeavesAlone(es[0], token, email);
      StepSparesToken(s, es[0], token, i, t);
      StepKeepsIndex(s, es[0]);
      assert forall j | 0 <= j < |es[1..]| :: LeavesAlone(es[1..][j], token, email) by {
        assert forall j | 0 <= j < |es[1..]| :: es[1..][j] == es[j + 1];
      }
      LiveTokenStands(Step(s, es[0]), es[1..], token, email, i, t);
    }
  }

  /**
   The token of a registration, in any serial run and whatever follows it other than a resend to that
   email: it is accepted for a day, and it activates the account if the account is still pending.
   */
  lemma RegisteredTokenVerifies(before: seq<Event>, email: string, userId: string, plain: string, mintAt: int,
                                dbNow: int, es: seq<Event>, checkedAt: int, usedAt: int, comparedAt: int)
    requires AddUser(Run(NOBODY, before), email, userId).Some? && Find(Run(NOBODY, before).tokens, plain).None?
    requires forall j | 0 <= j < |es| :: LeavesAlone(es[j], plain, email)
    ensures var s := Run(Register(Run(NOBODY, before), email, userId, plain, mintAt, dbNow), es);
            var (ok, didVerify, verified) := VerifyEmail(s, plain, checkedAt, usedAt, comparedAt);
            && (ok <==> checkedAt < mintAt + 24 * 60 * 60 * 1000 && comparedAt < mintAt + 24 * 60 * 60 * 1000)
            && userId in s.users
            && (didVerify <==> ok && s.users[userId].status == PendingVerification)
            && verified.users == (if didVerify then s.users[userId := Account(Active, true)] else s.users)
  {
    var s0 := Run(NOBODY, before);
    RunKeepsIndex(NOBODY, before);
    var s1 := Register(s0, email, userId, plain, mintAt, dbNow);
    StepKeepsIndex(s0, RegisterCall(email, userId, plain, mintAt, dbNow));
    var t := Token(userId, plain, mintAt + VERIFICATION_TTL_MS, None, dbNow);
    assert StandsAt(s1, plain, |s0.tokens|, t);
    LiveTokenStands(s1, es, plain, email, |s0.tokens|, t);
    LiveTokenAnswers(Run(s1, es), plain, |s0.tokens|, t, checkedAt, usedAt, comparedAt);
  }

  lemma LiveTokenAnswers(s: Accounts, token: string, i: nat, t: Token, checkedAt: int, usedAt: int, comparedAt: int)
    requires StandsAt(s, token, i, t) && t.usedAt.None? && t.userId in s.users
    ensures var (ok, didVerify, verified) := VerifyEmail(s, token, checkedAt, usedAt, comparedAt);
            && (ok <==> checkedAt < t.expiresAt && comparedAt < t.expiresAt)
            && (didVerify <==> ok && s.users[t.userId].status == PendingVerification)
            && verified.users == (if didVerify then s.users[t.userId := Account(Active, true)] else s.users)
  {
  }

  /** A resend retires every older token of the user; the new one takes over for a day. */
  lemma ResendReplacesTokens(s: Accounts, email: string, plain: string, usedAt: int, comparedAt: int, mintAt: int,
                             dbNow: int, older: string, i: nat, t: Token, checkedAt: int, usedLater: int,
                             comparedLater: int)
    requires Eligible(s, email).Some? && Find(s.tokens, plain).None?
    requires comparedAt <= checkedAt
    requires StandsAt(s, older, i, t) && t.userId == Eligible(s, email).value
    ensures var s' := Resend(s, email, plain, usedAt, comparedAt, mintAt, dbNow);
            && !VerifyEmail(s', older, checkedAt, usedLater, comparedLater).0
            && (VerifyEmail(s', plain, checkedAt, usedLater, comparedLater).1
                <==> checkedAt < mintAt + 24 * 60 * 60 * 1000 && comparedLater < mintAt + 24 * 60 * 60 * 1000)
  {
    var consumed := ConsumeLive(s.tokens, t.userId, usedAt, comparedAt);
    FindSurvives(s.tokens, consumed, older);
    FindSurvives(s.tokens, consumed, plain);
    FindFinds(s.tokens, older);
    MintSparesToken(consumed, t.userId, plain, mintAt, dbNow, older);
    var s' := Resend(s, email, plain, usedAt, comparedAt, mintAt, dbNow);
    assert s'.tokens[..|consumed|] == consumed;
    assert Find(s'.tokens, plain) == Some(|consumed|);
  }

  // ---------------------------------------------------------------------------------------------
  // Registration
  // ---------------------------------------------------------------------------------------------

  /** The tables that register writes. */
  datatype Tables = Tables(accounts: Accounts, passwords: map<string, string>, sessions: Sessions.Table)

  datatype Registration = EmailTaken | Broken | Registered(userId: string, session: Sessions.Session)

  /** The random values and clock readings of one registration. */
  datatype Draw = Draw(userId: string, sessionToken: string, sessionId: string, plain: string, sessionAt: int,
                       sessionDbAt: int, mintAt: int, dbNow: int)

  /**
   register: the user, the first session, the first token, one after the other. If the session token is
   taken the user stays without session and token; if the mailed token is taken, without that.
   */
  function CompleteRegistration(t: Tables, email: string, passwordHash: string, ttlSeconds: int, d: Draw)
    : (Registration, Tables)
  {
    match AddUser(t.accounts, email, d.userId)
    case None => (EmailTaken, t)
    case Some(accounts) =>
      var t1 := t.(accounts := accounts, passwords := t.passwords[d.userId := passwordHash]);
      var session := Sessions.NewSession(d.sessionId, d.userId, ttlSeconds, None, None, d.sessionAt, d.sessionDbAt);
      if Sha256(d.sessionToken) in t.sessions then (Broken, t1)
      else
        var t2 := t1.(sessions := t.sessions[Sha256(d.sessionToken) := session]);
        var tokens := Mint(accounts.tokens, d.userId, d.plain, d.mintAt, d.dbNow);
        if Find(accounts.tokens, d.plain).Some? then (Broken, t2)
        else (Registered(d.userId, session), t2.(accounts := accounts.(tokens := tokens)))
  }

  /**
   How a registration ends: a taken email changes nothing; a taken session token leaves the user
   without session and token; a taken mail token leaves the user with the session but without token.
   */
  lemma RegistrationEndsExactly(t: Tables, email: string, passwordHash: string, ttlSeconds: int, d: Draw)
    ensures var (r, t') := CompleteRegistration(t, email, passwordHash, ttlSeconds, d);
            var free := email !in t.accounts.emails && d.userId !in t.accounts.users;
            var mailed := exists k :: k in t.accounts.tokens && k.token == d.plain;
            && (r == EmailTaken <==> !free) && (r == EmailTaken ==> t' == t)
            && (r.Registered? <==> free && Sha256(d.sessionToken) !in t.sessions && !mailed)
            && (free ==>
                  && t'.accounts.users == t.accounts.users[d.userId := Account(PendingVerification, false)]
                  && t'.accounts.emails == t.accounts.emails[email := d.userId]
                  && t'.passwords == t.passwords[d.userId := passwordHash]
                  && (t'.sessions == t.sessions <==> Sha256(d.sessionToken) in t.sessions)
                  && (t'.accounts.tokens == t.accounts.tokens <==> !r.Registered?))
  {
    FindFinds(t.accounts.tokens, d.plain);
    if k :| k in t.accounts.tokens && k.token == d.plain {
      var i :| 0 <= i < |t.accounts.tokens| && t.accounts.tokens[i] == k;
    }
    var session := Sessions.NewSession(d.sessionId, d.userId, ttlSeconds, None, None, d.sessionAt, d.sessionDbAt);
    assert Sha256(d.sessionToken) in t.sessions[Sha256(d.sessionToken) := session];
  }

  /**
   A registration that succeeds is that of the serial runs above, under an email and id that were
   free, and opens a session for the new user that validates until its lifetime ends.
   */
  lemma RegistrationOpensAccount(t: Tables, email: string, passwordHash: string, ttlSeconds: int, d: Draw, readAt: int,
                                 judgedAt: int)
    requires CompleteRegistration(t, email, passwordHash, ttlSeconds, d).0.Registered?
    ensures var t' := CompleteRegistration(t, email, passwordHash, ttlSeconds, d).1;
            && email !in t.accounts.emails && d.userId !in t.accounts.users
            && t'.accounts == Register(t.accounts, email, d.userId, d.plain, d.mintAt, d.dbNow)
            && Find(t.accounts.tokens, d.plain).None? && Find(t'.accounts.tokens, d.plain).Some?
            && t'.passwords == t.passwords[d.userId := passwordHash]
            && var r := Sessions.Validate(t'.sessions, d.sessionToken, readAt, judgedAt).0;
            && (r.Some? <==> readAt < d.sessionAt + ttlSeconds * 1000)
            && (r.Some? ==> r.value.userId == d.userId && r.value.id == d.sessionId)
  {
    Sessions.CreatedSessionValidates(t.sessions, d.sessionToken, d.sessionId, d.userId, ttlSeconds, None, None,
                                     d.sessionAt, d.sessionDbAt, [], readAt, judgedAt);
  }

  // ---------------------------------------------------------------------------------------------
  // The service
  // ---------------------------------------------------------------------------------------------

  class EmailVerificationService {
    const sessionTtlSeconds: int
    var tokens: seq<Token>
    var users: map<string, Account>
    var emails: map<string, string>
    var passwords: map<string, string>
    var sessions: Sessions.Table

    ghost function All(): Tables
      reads this
    {
      Tables(Accounts(tokens, users, emails), passwords, sessions)
    }

    constructor (sessionTtlSeconds: int)
      ensures this.sessionTtlSeconds == sessionTtlSeconds && All() == Tables(NOBODY, map[], map[])
    {
      this.sessionTtlSeconds := sessionTtlSeconds;
      tokens, users, emails, passwords, sessions := [], map[], map[], map[], map[];
    }

    method GenerateVerificationToken(userId: string, plain: string, mintAt: int, dbNow: int) returns (ok: bool)
      modifies this`tokens
      ensures tokens == Mint(old(tokens), userId, plain, mintAt, dbNow)
      ensures ok <==> Find(old(tokens), plain).None?
    {
      var expiresAt := mintAt + 24 * 60 * 60 * 1000;
      if Find(tokens, plain).Some? {
        return false;
      }
      tokens := tokens + [Token(userId, plain, expiresAt, None, dbNow)];
      ok := true;
    }

    method RegisterUser(email: string, passwordHash: string, d: Draw) returns (r: Registration)
      modifies this
      ensures (r, All()) == CompleteRegistration(old(All()), email, passwordHash, sessionTtlSeconds, d)
    {
      if email in emails || d.userId in users {
        return EmailTaken;
      }
      users := users[d.userId := Account(PendingVerification, false)];
      emails := emails[email := d.userId];
      passwords := passwords[d.userId := passwordHash];
      var expiresAt := d.sessionAt + sessionTtlSeconds * 1000;
      if Sha256(d.sessionToken) in sessions {
        return Broken;
      }
      var session := Sessions.Session(d.sessionId, d.userId, expiresAt, d.sessionDbAt, None, None, d.sessionDbAt);
      sessions := sessions[Sha256(d.sessionToken) := session];
      var minted := GenerateVerificationToken(d.userId, d.plain, d.mintAt, d.dbNow);
      r := if minted then Registered(d.userId, session) else Broken;
    }

    method ResendVerificationForEmail(email: string, plain: string, usedAt: int, comparedAt: int, mintAt: int,
                                      dbNow: int)
      returns (sent: bool)
      modifies this`tokens
      ensures Accounts(tokens, users, emails)
              == Resend(Accounts(old(tokens), users, emails), email, plain, usedAt, comparedAt, mintAt, dbNow)
      ensures sent ==> Eligible(Accounts(old(tokens), users, emails), email).Some?
    {
      if email !in emails || emails[email] !in users {
        return false;
      }
      var userId := emails[email];
      if users[userId].emailVerified || users[userId].status != PendingVerification {
        return false;
      }
      tokens := ConsumeLive(tokens, userId, usedAt, comparedAt);
      sent := GenerateVerificationToken(userId, plain, mintAt, dbNow);
    }

    method VerifyEmailWith(token: string, checkedAt: int, usedAt: int, comparedAt: int)
      returns (ok: bool, didVerify: bool)
      modifies this`tokens, this`users
      ensures (ok, didVerify, Accounts(tokens, users, emails))
              == VerifyEmail(Accounts(old(tokens), old(users), emails), token, checkedAt, usedAt, comparedAt)
    {
      var found := Find(tokens, token);
      FindFinds(tokens, token);
      if found.None? {
        return false, false;
      }
      var record := tokens[found.value];
      if record.usedAt.Some? || record.expiresAt <= checkedAt {
        return false, false;
      }
      if !(record.expiresAt > comparedAt) {
        return false, false;
      }
      if record.userId !in users {
        return false, false;
      }
      tokens := tokens[found.value := record.(usedAt := Some(usedAt))];
      didVerify := false;
      if users[record.userId].status == PendingVerification {
        users := users[record.userId := Account(Active, true)];
        didVerify := true;
      }
      ok := true;
    }
  }
}
