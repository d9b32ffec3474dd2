/**
 Password resets (apps/server/src/modules/auth/password-reset.service.ts).

 Calls are serial. Each call reads the clock several times; the readings of a run never decrease.
 */
module PasswordReset {
  import opened AccountTokens
  import opened Common
  import opened Counting
  import Sessions

  const HOUR_MS := 60 * 60 * 1000
  const RESET_TOKEN_TTL_MS := 60 * 60 * 1000
  const MAX_UNUSED_RESET_REQUESTS_PER_HOUR := 3

  predicate RecentUnused(t: Token, userId: string, since: int) {
    t.userId == userId && t.usedAt.None? && t.createdAt >= since
  }

  function CountRecentUnused(rows: seq<Token>, userId: string, since: int): nat {
    if rows == [] then 0
    else CountRecentUnused(rows[..|rows| - 1], userId, since)
         + (if RecentUnused(rows[|rows| - 1], userId, since) then 1 else 0)
  }

  /** The count is that of one user's unused tokens since the given time, and of no other rows. */
  lemma CountRecentUnusedIsSize(rows: seq<Token>, userId: string, since: int)
    ensures CountRecentUnused(rows, userId, since)
            == |set i | 0 <= i < |rows| && rows[i].userId == userId && rows[i].usedAt.None?
              && rows[i].createdAt >= since|
  {
    var p := (r: Token) => r.userId == userId && r.usedAt.None? && r.createdAt >= since;
    CountRecentUnusedIsCountIf(rows, userId, since, p);
    CountIsSize(rows, p);
    assert Places(rows, p) == set i | 0 <= i < |rows| && rows[i].userId == userId && rows[i].usedAt.None?
      && rows[i].createdAt >= since;
  }

  lemma {:induction false} CountRecentUnusedIsCountIf(rows: seq<Token>, userId: string, since: int, p: Token -> bool)
    requires forall r: Token :: p(r) <==> r.userId == userId && r.usedAt.None? && r.createdAt >= since
    ensures CountRecentUnused(rows, userId, since) == CountIf(rows, p)
  {
    if rows != [] {
      CountRecentUnusedIsCountIf(rows[..|rows| - 1], userId, since, p);
    }
  }

  /** requestPasswordReset: counted at countAt, expiring from mintAt, stored at dbNow. */
  function RequestReset(rows: seq<Token>, userId: Option<string>, plain: string, countAt: int, mintAt: int, dbNow: int)
    : (Option<string>, seq<Token>)
  {
    if userId.None? then (None, rows)
    else if CountRecentUnused(rows, userId.value, countAt - HOUR_MS) >= MAX_UNUSED_RESET_REQUESTS_PER_HOUR
      then (None, rows)
    else if Find(rows, plain).Some? then (None, rows)
    else (Some(plain), rows + [Token(userId.value, plain, mintAt + RESET_TOKEN_TTL_MS, None, dbNow)])
  }

  /** resetPassword: whose password is replaced, if the token is accepted. */
  function ResetPassword(rows: seq<Token>, token: string, checkedAt: int, usedAt: int): (Option<string>, seq<Token>) {
    match Find(rows, token)
    case None => (None, rows)
    case Some(i) =>
      if i >= |rows| || rows[i].usedAt.Some? || rows[i].expiresAt <= checkedAt then (None, rows)
      else (Some(rows[i].userId), MarkUsed(rows, i, usedAt))
  }

  datatype ResetEvent =
    | Request(userId: Option<string>, plain: string, countAt: int, mintAt: int, dbNow: int)
    | Reset(token: string, checkedAt: int, usedAt: int)

  ghost predicate TimelyReset(clock: int, e: ResetEvent) {
    match e
    case Request(_, _, countAt, mintAt, dbNow) => clock <= countAt <= mintAt <= dbNow
    case Reset(_, checkedAt, usedAt) => clock <= checkedAt <= usedAt
  }

  function ResetClock(e: ResetEvent): int {
    match e
    case Request(_, _, _, _, dbNow) => dbNow
    case Reset(_, _, usedAt) => usedAt
  }

  ghost predicate TimelyResets(clock: int, es: seq<ResetEvent>)
    decreases |es|
  {
    es == [] || (TimelyReset(clock, es[0]) && TimelyResets(ResetClock(es[0]), es[1..]))
  }

  function ResetStep(rows: seq<Token>, e: ResetEvent): seq<Token> {
    match e
    case Request(userId, plain, countAt, mintAt, dbNow) => RequestReset(rows, userId, plain, countAt, mintAt, dbNow).1
    case Reset(token, checkedAt, usedAt) => ResetPassword(rows, token, checkedAt, usedAt).1
  }

  function RunResets(rows: seq<Token>, es: seq<ResetEvent>): seq<Token>
    decreases |es|
  {
    if es == [] then rows else RunResets(ResetStep(rows, es[0]), es[1..])
  }

  /** No row expires later than one lifetime after it was stored. */
  ghost predicate ExpireWithinTtl(rows: seq<Token>, ttl: int) {
    forall i | 0 <= i < |rows| :: rows[i].expiresAt <= rows[i].createdAt + ttl
  }

  /** The window of the count covers the lifetime, so every live token is counted. */
  lemma {:induction false} LiveIsRecent(rows: seq<Token>, userId: string, now: int)
    requires ExpireWithinTtl(rows, RESET_TOKEN_TTL_MS)
    ensures CountLive(rows, userId, now) <= CountRecentUnused(rows, userId, now - HOUR_MS)
  {
    if rows != [] {
      LiveIsRecent(rows[..|rows| - 1], userId, now);
    }
  }

  lemma {:induction false} LiveOnlyFades(rows: seq<Token>, userId: string, now: int, later: int)
    requires now <= later
    ensures CountLive(rows, userId, later) <= CountLive(rows, userId, now)
  {
    if rows != [] {
      LiveOnlyFades(rows[..|rows| - 1], userId, now, later);
    }
  }

  lemma ResetStepKeepsBound(rows: seq<Token>, clock: int, e: ResetEvent)
    requires TimelyReset(clock, e) && AtMost(rows, 3, clock) && ExpireWithinTtl(rows, RESET_TOKEN_TTL_MS)
    ensures AtMost(ResetStep(rows, e), 3, ResetClock(e)) && ExpireWithinTtl(ResetStep(rows, e), RESET_TOKEN_TTL_MS)
  {
    match e
    case Request(user, plain, countAt, mintAt, dbNow) =>
      if ResetStep(rows, e) != rows {
        var t := Token(user.value, plain, mintAt + RESET_TOKEN_TTL_MS, None, dbNow);
        forall userId, now | now >= dbNow
          ensures CountLive(rows + [t], userId, now) <= 3
        {
          AppendLive(rows, t, userId, now);
          LiveIsRecent(rows, user.value, countAt);
          LiveOnlyFades(rows, user.value, countAt, now);
        }
      }
    case Reset(token, checkedAt, usedAt) =>
      FindFinds(rows, token);
      forall userId, now | now >= usedAt
        ensures CountLive(ResetStep(rows, e), userId, now) <= 3
      {
        MarkingNeverRevives(rows, ResetStep(rows, e), userId, now, now);
      }
  }

  lemma {:induction false} ResetRunKeepsBound(rows: seq<Token>, clock: int, es: seq<ResetEvent>, at: int)
    requires TimelyResets(clock, es) && AtMost(rows, 3, clock) && ExpireWithinTtl(rows, RESET_TOKEN_TTL_MS)
    requires at >= clock && (es != [] ==> at >= ResetClock(es[|es| - 1]))
    ensures forall userId :: CountLive(RunResets(rows, es), userId, at) <= 3
    decreases |es|
  {
    if es != [] {
      ResetStepKeepsBound(rows, clock, es[0]);
      LastReadingBounds(clock, es);
      ResetRunKeepsBound(ResetStep(rows, es[0]), ResetClock(es[0]), es[1..], at);
    }
  }

  lemma {:induction false} LastReadingBounds(clock: int, es: seq<ResetEvent>)
    requires TimelyResets(clock, es) && es != []
    ensures clock <= ResetClock(es[0]) <= ResetClock(es[|es| - 1])
    decreases |es|
  {
    if |es| > 1 {
      LastReadingBounds(ResetClock(es[0]), es[1..]);
    }
  }

  /** In every serial run a user never has more than three live reset tokens at once. */
  lemma AtMostThreeLiveResetTokens(clock: int, es: seq<ResetEvent>, userId: string, at: int)
    requires TimelyResets(clock, es) && at >= clock && (es != [] ==> at >= ResetClock(es[|es| - 1]))
    ensures CountLive(RunResets([], es), userId, at) <= 3
  {
    ResetRunKeepsBound([], clock, es, at);
  }

  lemma ResetStepSparesToken(rows: seq<Token>, e: ResetEvent, token: string)
    requires Find(rows, token).Some? && (e.Reset? ==> e.token != token)
    ensures Find(ResetStep(rows, e), token) == Find(rows, token)
    ensures Find(rows, token).value < |rows|
      && ResetStep(rows, e)[Find(rows, token).value] == rows[Find(rows, token).value]
  {
    FindFinds(rows, token);
    match e
    case Request(user, plain, countAt, mintAt, dbNow) =>
      var rows' := ResetStep(rows, e);
      if rows' != rows {
        assert rows'[..|rows| ] == rows;
      }
    case Reset(other, checkedAt, usedAt) =>
      FindFinds(rows, other);
      FindSurvives(rows, ResetStep(rows, e), token);
  }

  lemma {:induction false} ResetRunSparesToken(rows: seq<Token>, es: seq<ResetEvent>, token: string)
    requires Find(rows, token).Some?
    requires forall i | 0 <= i < |es| && es[i].Reset? :: es[i].token != token
    ensures Find(RunResets(rows, es), token) == Find(rows, token)
    ensures Find(rows, token).value < |rows| && Find(rows, token).value < |RunResets(rows, es)|
    ensures RunResets(rows, es)[Find(rows, token).value] == rows[Find(rows, token).value]
    decreases |es|
  {
    FindFinds(rows, token);
    if es != [] {
      ResetStepSparesToken(rows, es[0], token);
      assert forall i | 0 <= i < |es[1..]| && es[1..][i].Reset? :: es[i + 1].token != token;
      ResetRunSparesToken(ResetStep(rows, es[0]), es[1..], token);
    }
  }

  lemma {:induction false} UsedStaysUsed(rows: seq<Token>, es: seq<ResetEvent>, token: string)
    requires Find(rows, token).Some? && Find(rows, token).value < |rows| && rows[Find(rows, token).value].usedAt.Some?
    ensures Find(RunResets(rows, es), token) == Find(rows, token)
    ensures Find(rows, token).value < |RunResets(rows, es)| && RunResets(rows, es)[Find(rows, token).value].usedAt.Some?
    decreases |es|
  {
    if es != [] {
      if es[0].Reset? && es[0].token == token {
        assert ResetStep(rows, es[0]) == rows;
      } else {
        ResetStepSparesToken(rows, es[0], token);
      }
      UsedStaysUsed(ResetStep(rows, es[0]), es[1..], token);
    }
  }

  /** An accepted reset token is spent: after whatever further requests and resets it is refused. */
  lemma ResetTokenWorksOnce(rows: seq<Token>, token: string, checkedAt: int, usedAt: int, es: seq<ResetEvent>,
                            checkedAgain: int, usedAgain: int)
    requires ResetPassword(rows, token, checkedAt, usedAt).0.Some?
    ensures var later := RunResets(ResetPassword(rows, token, checkedAt, usedAt).1, es);
            ResetPassword(later, token, checkedAgain, usedAgain) == (None, later)
  {
    var rows' := ResetPassword(rows, token, checkedAt, usedAt).1;
    FindFinds(rows, token);
    FindSurvives(rows, rows', token);
    UsedStaysUsed(rows', es, token);
  }

  /**
   A request mints a token exactly for a known user of whom fewer than three unused tokens were stored
   in the last hour, given a random token not seen before; a request that mints nothing stores nothing.
   Other users' tokens do not count.
   */
  lemma ResetIsMintedExactly(rows: seq<Token>, user: Option<string>, plain: string, countAt: int, mintAt: int,
                             dbNow: int)
    requires forall i | 0 <= i < |rows| :: rows[i].token != plain
    ensures var (r, rows') := RequestReset(rows, user, plain, countAt, mintAt, dbNow);
            var recent := set i | 0 <= i < |rows| && user == Some(rows[i].userId) && rows[i].usedAt.None?
                                  && rows[i].createdAt >= countAt - 3_600_000;
            if user.Some? && |recent| < 3
            then r == Some(plain) && rows' == rows + [Token(user.value, plain, mintAt + 3_600_000, None, dbNow)]
            else r.None? && rows' == rows
  {
    FindFinds(rows, plain);
    if user.Some? {
      var u, since := user.value, countAt - 3_600_000;
      CountRecentUnusedIsSize(rows, u, since);
      assert (set i | 0 <= i < |rows| && user == Some(rows[i].userId) && rows[i].usedAt.None?
                      && rows[i].createdAt >= countAt - 3_600_000)
             == (set i | 0 <= i < |rows| && rows[i].userId == u && rows[i].usedAt.None? && rows[i].createdAt >= since);
    }
  }

  /** A call that concerns other users: a request for one, or a reset with a token that is not the user's. */
  ghost predicate ConcernsOthers(rows: seq<Token>, e: ResetEvent, userId: string, plain: string) {
    match e
    case Request(other, token, _, _, _) => other != Some(userId) && token != plain
    case Reset(token, _, _) => forall i | 0 <= i < |rows| && rows[i].token == token :: rows[i].userId != userId
  }

  lemma OthersKeepTheCount(rows: seq<Token>, e: ResetEvent, userId: string, plain: string, since: int)
    requires ConcernsOthers(rows, e, userId, plain)
    ensures CountRecentUnused(ResetStep(rows, e), userId, since) == CountRecentUnused(rows, userId, since)
    ensures Find(rows, plain).None? ==> Find(ResetStep(rows, e), plain).None?
  {
    var rows' := ResetStep(rows, e);
    match e
    case Request(other, token, countAt, mintAt, dbNow) =>
      if rows' != rows {
        assert rows'[..|rows|] == rows;
      }
    case Reset(token, checkedAt, usedAt) =>
      FindFinds(rows, token);
      FindSurvives(rows, rows', plain);
      SameUnusedSameCount(rows, rows', userId, since);
  }

  lemma {:induction false} SameUnusedSameCount(rows: seq<Token>, rows': seq<Token>, userId: string, since: int)
    requires |rows'| == |rows|
    requires forall i | 0 <= i < |rows| :: rows'[i].userId == rows[i].userId
    requires forall i | 0 <= i < |rows| && rows[i].userId == userId :: rows'[i] == rows[i]
    ensures CountRecentUnused(rows', userId, since) == CountRecentUnused(rows, userId, since)
    decreases |rows|
  {
    if rows != [] {
      SameUnusedSameCount(rows[..|rows| - 1], rows'[..|rows| - 1], userId, since);
    }
  }

  /** Whatever other users request or reset, a user's own request is answered as if they had not. */
  lemma {:induction false} OthersDoNotMatter(rows: seq<Token>, es: seq<ResetEvent>, userId: string, plain: string,
                                             countAt: int, mintAt: int, dbNow: int)
    requires Find(rows, plain).None?
    requires forall i | 0 <= i < |es| :: ConcernsOthers(RunResets(rows, es[..i]), es[i], userId, plain)
    ensures RequestReset(RunResets(rows, es), Some(userId), plain, countAt, mintAt, dbNow).0
            == RequestReset(rows, Some(userId), plain, countAt, mintAt, dbNow).0
    decreases |es|
  {
    if es != [] {
      assert RunResets(rows, es[..0]) == rows;
      OthersKeepTheCount(rows, es[0], userId, plain, countAt - HOUR_MS);
      var next := ResetStep(rows, es[0]);
      forall i | 0 <= i < |es[1..]|
        ensures ConcernsOthers(RunResets(next, es[1..][..i]), es[1..][i], userId, plain)
      {
        assert es[..i + 1][0] == es[0] && es[..i + 1][1..] == es[1..][..i];
        assert ConcernsOthers(RunResets(rows, es[..i + 1]), es[i + 1], userId, plain);
      }
      OthersDoNotMatter(next, es[1..], userId, plain, countAt, mintAt, dbNow);
    }
  }

  /**
   Whatever is requested or reset in between, a minted token resets its user's password within the hour,
   and not after.
   */
  lemma MintedResetTokenIsAccepted(rows: seq<Token>, user: Option<string>, plain: string, countAt: int, mintAt: int,
                                   dbNow: int, es: seq<ResetEvent>, checkedAt: int, usedAt: int)
    requires RequestReset(rows, user, plain, countAt, mintAt, dbNow).0.Some?
    requires forall i | 0 <= i < |es| && es[i].Reset? :: es[i].token != plain
    ensures var rows' := RequestReset(rows, user, plain, countAt, mintAt, dbNow).1;
            ResetPassword(RunResets(rows', es), plain, checkedAt, usedAt).0
            == if checkedAt < mintAt + 60 * 60 * 1000 then user else None
  {
    var rows' := RequestReset(rows, user, plain, countAt, mintAt, dbNow).1;
    assert Find(rows', plain) == Some(|rows|);
    ResetRunSparesToken(rows', es, plain);
  }

  /** A reset with an accepted token marks that token, with the time, and no other row. */
  lemma ResetMarksOne(rows: seq<Token>, token: string, checkedAt: int, usedAt: int)
    requires forall i, j | 0 <= i < j < |rows| :: rows[i].token != rows[j].token
    ensures var (r, rows') := ResetPassword(rows, token, checkedAt, usedAt);
            && (r.Some? <==> exists t :: t in rows && t.token == token && t.usedAt.None? && checkedAt < t.expiresAt)
            && |rows'| == |rows|
            && (forall i | 0 <= i < |rows| ::
                  rows'[i] == if r.Some? && rows[i].token == token then rows[i].(usedAt := Some(usedAt)) else rows[i])
            && (forall i | 0 <= i < |rows| && rows[i].token == token && r.Some? :: r.value == rows[i].userId)
  {
    FindFinds(rows, token);
    if t :| t in rows && t.token == token && t.usedAt.None? && checkedAt < t.expiresAt {
      var i :| 0 <= i < |rows| && rows[i] == t;
    }
  }

  /** Everything that resetPassword writes: the token, the password hash, the user's sessions. */
  datatype ResetTables = ResetTables(tokens: seq<Token>, passwords: map<string, string>, sessions: Sessions.Table)

  function CompleteReset(s: ResetTables, token: string, newHash: string, checkedAt: int, usedAt: int)
    : (bool, ResetTables)
  {
    match ResetPassword(s.tokens, token, checkedAt, usedAt)
    case (None, _) => (false, s)
    case (Some(u), tokens) =>
      (true, ResetTables(tokens, if u in s.passwords then s.passwords[u := newHash] else s.passwords,
                         Sessions.Delete(s.sessions, Sessions.ByUser(u, None))))
  }

  /** A reset goes through exactly if its token is accepted, and otherwise changes nothing. */
  lemma ResetCompletesExactly(s: ResetTables, token: string, newHash: string, checkedAt: int, usedAt: int)
    ensures var (ok, s') := CompleteReset(s, token, newHash, checkedAt, usedAt);
            && (ok <==> ResetPassword(s.tokens, token, checkedAt, usedAt).0.Some?)
            && s'.tokens == ResetPassword(s.tokens, token, checkedAt, usedAt).1
            && (!ok ==> s' == s)
  {
  }

  /**
   A reset replaces one password, the token owner's, ends all of the owner's sessions for good and
   leaves everybody else's password and sessions alone.
   */
  lemma ResetLocksOut(s: ResetTables, token: string, newHash: string, checkedAt: int, usedAt: int,
                      sessionToken: string, es: seq<Sessions.Event>, readAt: int, now: int)
    returns (owner: string)
    requires CompleteReset(s, token, newHash, checkedAt, usedAt).0
    requires forall i | 0 <= i < |es| && es[i].Create? :: es[i].token != sessionToken
    ensures var s' := CompleteReset(s, token, newHash, checkedAt, usedAt).1;
            && (exists i :: 0 <= i < |s.tokens| && s.tokens[i].token == token && s.tokens[i].userId == owner)
            && s'.passwords.Keys == s.passwords.Keys
            && (forall u | u in s.passwords :: s'.passwords[u] == if u == owner then newHash else s.passwords[u])
            && (Sha256(sessionToken) in s.sessions && s.sessions[Sha256(sessionToken)].userId == owner ==>
                  Sessions.Validate(Sessions.Run(s'.sessions, es), sessionToken, readAt, now).0.None?)
            && (forall d | d in s.sessions && s.sessions[d].userId != owner ::
                d in s'.sessions && s'.sessions[d] == s.sessions[d])
  {
    FindFinds(s.tokens, token);
    owner := s.tokens[Find(s.tokens, token).value].userId;
    if Sha256(sessionToken) in s.sessions && s.sessions[Sha256(sessionToken)].userId == owner {
      Sessions.RevocationIsFinal(s.sessions, Sessions.ByUser(owner, None), es, sessionToken, readAt, now);
    }
  }

  // ---------------------------------------------------------------------------------------------
  // The service
  // ---------------------------------------------------------------------------------------------

  class PasswordResetService {
    var emails: map<string, string>
    var resetTokens: seq<Token>
    var passwords: map<string, string>
    var sessions: Sessions.Table

    constructor (emails: map<string, string>, passwords: map<string, string>, sessions: Sessions.Table)
      ensures resetTokens == []
      ensures this.emails == emails && this.passwords == passwords && this.sessions == sessions
    {
      resetTokens := [];
      this.emails, this.passwords, this.sessions := emails, passwords, sessions;
    }

    method CountRecent(userId: string, since: int) returns (count: nat)
      ensures count == CountRecentUnused(resetTokens, userId, since)
    {
      count := 0;
      for i := 0 to |resetTokens|
        invariant count == CountRecentUnused(resetTokens[..i], userId, since)
      {
        assert resetTokens[..i + 1][..i] == resetTokens[..i];
        if resetTokens[i].userId == userId && resetTokens[i].usedAt.None? && resetTokens[i].createdAt >= since {
          count := count + 1;
        }
      }
      assert resetTokens[..|resetTokens|] == resetTokens;
    }

    method RequestPasswordReset(email: string, plain: string, countAt: int, mintAt: int, dbNow: int)
      returns (r: Option<string>)
      modifies this`resetTokens
      ensures (r, resetTokens)
              == RequestReset(old(resetTokens), if email in emails then Some(emails[email]) else None,
                              plain, countAt, mintAt, dbNow)
    {
      if email !in emails {
        return None;
      }
      var userId := emails[email];
      var hourAgo := countAt - 60 * 60 * 1000;
      var recentUnused := CountRecent(userId, hourAgo);
      if recentUnused >= 3 {
        return None;
      }
      if Find(resetTokens, plain).Some? {
        return None;
      }
      resetTokens := resetTokens + [Token(userId, plain, mintAt + RESET_TOKEN_TTL_MS, None, dbNow)];
      r := Some(plain);
    }

    method ResetPasswordWith(token: string, newHash: string, checkedAt: int, usedAt: int) returns (ok: bool)
      modifies this`resetTokens, this`passwords, this`sessions
      ensures (ok, ResetTables(resetTokens, passwords, sessions))
              == CompleteReset(ResetTables(old(resetTokens), old(passwords), old(sessions)), token, newHash, checkedAt,
                               usedAt)
    {
      var found := Find(resetTokens, token);
      FindFinds(resetTokens, token);
      if found.None? {
        return false;
      }
      var record := resetTokens[found.value];
      if record.usedAt.Some? || record.expiresAt <= checkedAt {
        return false;
      }
      if record.userId in passwords {
        passwords := passwords[record.userId := newHash];
      }
      resetTokens := resetTokens[found.value := record.(usedAt := Some(usedAt))];
      sessions := map d | d in sessions && sessions[d].userId != record.userId :: sessions[d];
      assert sessions == Sessions.Delete(old(sessions), Sessions.ByUser(record.userId, None));
      ok := true;
    }
  }
}
