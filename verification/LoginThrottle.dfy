/**
 Login throttling (apps/server/src/modules/auth/login-attempts.service.ts, auth.service.ts:76-152).
 */
module LoginThrottle {
  import opened Common
  import opened Counting
  import Sessions

  const DAY_MS := 24 * 60 * 60 * 1000
  const MFA_CHALLENGE_TTL_MS := 5 * 60 * 1000

  datatype Attempt = Attempt(email: string, ipAddress: string, success: bool, createdAt: int)

  datatype User = User(id: string, hasPassword: bool, suspended: bool, mfaEnrolled: bool)

  datatype Challenge = Challenge(userId: string, expiresAt: int, usedAt: Option<int>)

  datatype LoginResult = TooManyRequests(retryAfter: nat) | InvalidCredentials | MfaRequired | LoggedIn

  predicate FailureSince(a: Attempt, email: string, cutoff: int) {
    a.email == email && !a.success && a.createdAt > cutoff
  }

  /** getRecentFailureCount at time now. */
  function FailureCount(attempts: seq<Attempt>, email: string, now: int): nat {
    if attempts == [] then 0
    else FailureCount(attempts[..|attempts| - 1], email, now)
         + (if FailureSince(attempts[|attempts| - 1], email, now - DAY_MS) then 1 else 0)
  }

  /** The failures of one email that are younger than a day. */
  lemma FailureCountIsSize(attempts: seq<Attempt>, email: string, now: int)
    ensures FailureCount(attempts, email, now)
            == |set i | 0 <= i < |attempts| && attempts[i].email == email && !attempts[i].success
              && attempts[i].createdAt > now - 86_400_000|
  {
    var p := (r: Attempt) => r.email == email && !r.success && r.createdAt > now - 86_400_000;
    FailureCountIsCountIf(attempts, email, now, p);
    CountIsSize(attempts, p);
    assert Places(attempts, p) == set i | 0 <= i < |attempts| && attempts[i].email == email && !attempts[i].success
      && attempts[i].createdAt > now - 86_400_000;
  }

  lemma {:induction false} FailureCountIsCountIf(attempts: seq<Attempt>, email: string, now: int, p: Attempt -> bool)
    requires forall r: Attempt :: p(r) <==> r.email == email && !r.success && r.createdAt > now - 86_400_000
    ensures FailureCount(attempts, email, now) == CountIf(attempts, p)
  {
    if attempts != [] {
      FailureCountIsCountIf(attempts[..|attempts| - 1], email, now, p);
    }
  }

  function Pow2(n: nat): nat {
    if n == 0 then 1 else 2 * Pow2(n - 1)
  }

  function CalculateDelay(failureCount: nat): nat {
    if failureCount < 5 then 0
    else if Pow2(failureCount - 5) < 30 then Pow2(failureCount - 5) else 30
  }

  lemma {:induction false} Pow2Monotone(m: nat, n: nat)
    requires m <= n
    ensures 1 <= Pow2(m) <= Pow2(n)
    decreases n
  {
    if m < n {
      Pow2Monotone(m, n - 1);
    } else if n > 0 {
      Pow2Monotone(m - 1, n - 1);
    }
  }

  /** The delay is zero below five failures, then doubles from one second on, and stays at 30 from the tenth on. */
  lemma DelayMonotone(m: nat, n: nat)
    requires m <= n
    ensures CalculateDelay(m) <= CalculateDelay(n) <= 30
    ensures CalculateDelay(n) > 0 <==> n >= 5
    ensures CalculateDelay(n) == 30 <==> n >= 10
    ensures CalculateDelay(5) == 1 && (5 <= n < 9 ==> CalculateDelay(n + 1) == 2 * CalculateDelay(n))
  {
    if m >= 5 {
      Pow2Monotone(m - 5, n - 5);
    }
    if n >= 5 {
      Pow2Monotone(0, n - 5);
    }
    assert Pow2(0) == 1 && Pow2(4) == 16 && Pow2(5) == 32;
    if 5 <= n < 9 {
      Pow2Monotone(n - 4, 4);
    }
    if n >= 10 {
      Pow2Monotone(5, n - 5);
    } else if n >= 5 {
      Pow2Monotone(n - 5, 4);
    }
  }

  /** pruneOldAttempts. */
  function Prune(attempts: seq<Attempt>, now: int): seq<Attempt> {
    if attempts == [] then []
    else Prune(attempts[..|attempts| - 1], now)
         + (if attempts[|attempts| - 1].createdAt <= now - DAY_MS then [] else [attempts[|attempts| - 1]])
  }

  /** Pruning drops exactly the attempts that are a day old or older, and keeps the order of the others. */
  lemma {:induction false} PruneExactly(attempts: seq<Attempt>, now: int, a: Attempt)
    ensures multiset(Prune(attempts, now))[a] == if a.createdAt > now - 86_400_000 then multiset(attempts)[a] else 0
    ensures (forall b | b in attempts :: b.createdAt > now - 86_400_000) ==> Prune(attempts, now) == attempts
  {
    if attempts != [] {
      var init, last := attempts[..|attempts| - 1], attempts[|attempts| - 1];
      assert attempts == init + [last];
      PruneExactly(init, now, a);
    }
  }

  /** login, as far as throttling and recording go; the attempt is counted at countAt and recorded at recordAt. */
  function Login(attempts: seq<Attempt>, user: Option<User>, email: string, ipAddress: string, passwordOk: bool,
                 countAt: int, recordAt: int): (LoginResult, seq<Attempt>)
  {
    var delay := CalculateDelay(FailureCount(attempts, email, countAt));
    if delay > 0 then (TooManyRequests(delay), attempts)
    else if user.None? || !user.value.hasPassword || user.value.suspended || !passwordOk
    then (InvalidCredentials, attempts + [Attempt(email, ipAddress, false, recordAt)])
    else (if user.value.mfaEnrolled then MfaRequired else LoggedIn,
          attempts + [Attempt(email, ipAddress, true, recordAt)])
  }

  class LoginAttempts {
    var attempts: seq<Attempt>

    constructor ()
      ensures attempts == []
    {
      attempts := [];
    }

    method RecordAttempt(email: string, ipAddress: string, success: bool, createdAt: int)
      modifies this
      ensures attempts == old(attempts) + [Attempt(email, ipAddress, success, createdAt)]
    {
      attempts := attempts + [Attempt(email, ipAddress, success, createdAt)];
    }

    method GetRecentFailureCount(email: string, now: int) returns (count: nat)
      ensures count == FailureCount(attempts, email, now)
    {
      var cutoff := now - 24 * 60 * 60 * 1000;
      count := 0;
      for i := 0 to |attempts|
        invariant count == FailureCount(attempts[..i], email, now)
      {
        assert attempts[..i + 1][..i] == attempts[..i];
        if attempts[i].email == email && attempts[i].success == false && attempts[i].createdAt > cutoff {
          count := count + 1;
        }
      }
      assert attempts[..|attempts|] == attempts;
    }

    method PruneOldAttempts(now: int) returns (deleted: nat)
      modifies this
      ensures attempts == Prune(old(attempts), now)
      ensures deleted == |old(attempts)| - |attempts|
    {
      var cutoff := now - 24 * 60 * 60 * 1000;
      var all := attempts;
      var kept: seq<Attempt> := [];
      for i := 0 to |all|
        invariant kept == Prune(all[..i], now) && |kept| <= i
      {
        assert all[..i + 1][..i] == all[..i];
        if all[i].createdAt > cutoff {
          kept := kept + [all[i]];
        }
      }
      assert all[..|all|] == all;
      attempts := kept;
      deleted := |all| - |kept|;
    }
  }

  // ---------------------------------------------------------------------------------------------
  // What a login opens
  // ---------------------------------------------------------------------------------------------

  /** The tables that login writes; a challenge's token is unique. */
  datatype Tables = Tables(attempts: seq<Attempt>, challenges: map<string, Challenge>, sessions: Sessions.Table)

  /** The random values of one login, and the clock readings taken when it stores them. */
  datatype Draw = Draw(mfaToken: string, sessionToken: string, sessionId: string, mintAt: int, dbNow: int)

  /** What the request says about its origin; attempts are recorded for 0.0.0.0 if it says nothing. */
  datatype Meta = Meta(ipAddress: Option<string>, userAgent: Option<string>)
  {
    function Ip(): string {
      if ipAddress.Some? then ipAddress.value else "0.0.0.0"
    }
  }

  datatype Opened = Nothing | MfaChallenge(token: string) | NewSession(session: Sessions.Session) | Broken

  function NewChallenge(userId: string, mintAt: int): Challenge {
    Challenge(userId, mintAt + MFA_CHALLENGE_TTL_MS, None)
  }

  /** login: the throttled and recorded attempt, then a challenge or a session; a taken token breaks it off. */
  function CompleteLogin(t: Tables, ttlSeconds: int, user: Option<User>, email: string, meta: Meta, passwordOk: bool,
                         countAt: int, recordAt: int, d: Draw): (LoginResult, Opened, Tables)
  {
    var (r, attempts) := Login(t.attempts, user, email, meta.Ip(), passwordOk, countAt, recordAt);
    var t1 := t.(attempts := attempts);
    if user.None? then (r, Nothing, t1)
    else
      match r
      case MfaRequired =>
        if d.mfaToken in t.challenges then (r, Broken, t1)
        else
          (r, MfaChallenge(d.mfaToken),
           t1.(challenges := t.challenges[d.mfaToken := NewChallenge(user.value.id, d.mintAt)]))
      case LoggedIn =>
        var session := Sessions.NewSession(d.sessionId, user.value.id, ttlSeconds, meta.ipAddress, meta.userAgent,
                                           d.mintAt, d.dbNow);
        if Sha256(d.sessionToken) in t.sessions then (r, Broken, t1)
        else (r, NewSession(session), t1.(sessions := t.sessions[Sha256(d.sessionToken) := session]))
      case _ => (r, Nothing, t1)
  }

  /**
   A login opens a session only for an active user with the right password and no second factor; the
   session is that user's and validates until its lifetime ends. A user with a second factor gets a
   five-minute challenge and no session; everybody else gets nothing.
   */
  lemma LoginOpens(t: Tables, ttlSeconds: int, user: Option<User>, email: string, meta: Meta, passwordOk: bool,
                   countAt: int, recordAt: int, d: Draw, readAt: int, judgedAt: int)
    requires d.mfaToken !in t.challenges && Sha256(d.sessionToken) !in t.sessions
    ensures var (r, given, t') := CompleteLogin(t, ttlSeconds, user, email, meta, passwordOk, countAt, recordAt, d);
            var proven := FailureCount(t.attempts, email, countAt) < 5 && passwordOk
                          && user.Some? && user.value.hasPassword && !user.value.suspended;
            && (given.NewSession? <==> proven && !user.value.mfaEnrolled)
            && (given.MfaChallenge? <==> proven && user.value.mfaEnrolled)
            && !given.Broken?
            && (r.LoggedIn? <==> given.NewSession?) && (r.MfaRequired? <==> given.MfaChallenge?)
            && (r, t'.attempts) == Login(t.attempts, user, email,
                                         if meta.ipAddress.Some? then meta.ipAddress.value else "0.0.0.0",
                                         passwordOk, countAt, recordAt)
            && (t'.sessions == t.sessions || given.NewSession?)
            && (if given.MfaChallenge?
                then t'.challenges == t.challenges[d.mfaToken := Challenge(user.value.id, d.mintAt + 300_000, None)]
                else t'.challenges == t.challenges)
            && (given.NewSession? ==>
                  && var s := Sessions.Validate(t'.sessions, d.sessionToken, readAt, judgedAt).0;
                  && (s.Some? <==> readAt < d.mintAt + ttlSeconds * 1000)
                  && (s.Some? ==>
                        && s.value.userId == user.value.id && s.value.id == d.sessionId
                        && s.value.ipAddress == meta.ipAddress && s.value.userAgent == meta.userAgent))
  {
    LoginRecords(t.attempts, user, email, meta.Ip(), passwordOk, countAt, recordAt, email, recordAt);
    if user.Some? {
      Sessions.CreatedSessionValidates(t.sessions, d.sessionToken, d.sessionId, user.value.id, ttlSeconds,
                                       meta.ipAddress, meta.userAgent, d.mintAt, d.dbNow, [], readAt, judgedAt);
    }
  }

  /** A login whose random token is taken is broken off after the attempt was recorded, and opens nothing. */
  lemma LoginBreaksOff(t: Tables, ttlSeconds: int, user: Option<User>, email: string, meta: Meta, passwordOk: bool,
                       countAt: int, recordAt: int, d: Draw)
    requires d.mfaToken in t.challenges && Sha256(d.sessionToken) in t.sessions
    ensures var (r, given, t') := CompleteLogin(t, ttlSeconds, user, email, meta, passwordOk, countAt, recordAt, d);
            && t'.challenges == t.challenges && t'.sessions == t.sessions
            && (given == Broken <==> r.MfaRequired? || r.LoggedIn?) && (given == Nothing <==> given != Broken)
            && (r, t'.attempts) == Login(t.attempts, user, email,
                                         if meta.ipAddress.Some? then meta.ipAddress.value else "0.0.0.0",
                                         passwordOk, countAt, recordAt)
  {
    LoginRecords(t.attempts, user, email, meta.Ip(), passwordOk, countAt, recordAt, email, recordAt);
  }

  class AuthService {
    const sessionTtlSeconds: int
    const loginAttempts: LoginAttempts
    var challenges: map<string, Challenge>
    var sessions: Sessions.Table

    ghost function All(): Tables
      reads this, loginAttempts
    {
      Tables(loginAttempts.attempts, challenges, sessions)
    }

    constructor (sessionTtlSeconds: int, loginAttempts: LoginAttempts)
      ensures this.sessionTtlSeconds == sessionTtlSeconds && this.loginAttempts == loginAttempts
      ensures All() == Tables(loginAttempts.attempts, map[], map[])
    {
      this.sessionTtlSeconds, this.loginAttempts := sessionTtlSeconds, loginAttempts;
      challenges, sessions := map[], map[];
    }

    method Login(user: Option<User>, email: string, meta: Meta, passwordOk: bool, countAt: int, recordAt: int, d: Draw)
      returns (r: LoginResult, given: Opened)
      modifies this, loginAttempts
      ensures (r, given, All())
              == CompleteLogin(old(All()), sessionTtlSeconds, user, email, meta, passwordOk, countAt, recordAt, d)
    {
      var ipAddress := if meta.ipAddress.Some? then meta.ipAddress.value else "0.0.0.0";
      var failureCount := loginAttempts.GetRecentFailureCount(email, countAt);
      var delaySec := CalculateDelay(failureCount);
      if delaySec > 0 {
        return TooManyRequests(delaySec), Nothing;
      }
      if user.None? || !user.value.hasPassword {
        loginAttempts.RecordAttempt(email, ipAddress, false, recordAt);
        return InvalidCredentials, Nothing;
      }
      if user.value.suspended {
        loginAttempts.RecordAttempt(email, ipAddress, false, recordAt);
        return InvalidCredentials, Nothing;
      }
      if !passwordOk {
        loginAttempts.RecordAttempt(email, ipAddress, false, recordAt);
        return InvalidCredentials, Nothing;
      }
      loginAttempts.RecordAttempt(email, ipAddress, true, recordAt);
      if user.value.mfaEnrolled {
        if d.mfaToken in challenges {
          return MfaRequired, Broken;
        }
        var expiresAt := d.mintAt + MFA_CHALLENGE_TTL_MS;
        challenges := challenges[d.mfaToken := Challenge(user.value.id, expiresAt, None)];
        return MfaRequired, MfaChallenge(d.mfaToken);
      }
      var expiresAt := d.mintAt + sessionTtlSeconds * 1000;
      if Sha256(d.sessionToken) in sessions {
        return LoggedIn, Broken;
      }
      var session := Sessions.Session(d.sessionId, user.value.id, expiresAt, d.dbNow, meta.ipAddress, meta.userAgent,
                                      d.dbNow);
      sessions := sessions[Sha256(d.sessionToken) := session];
      r, given := LoggedIn, NewSession(session);
    }
  }

  /**
   A login is refused for its delay exactly from the fifth failure in the last day on, whatever the
   password; otherwise it succeeds exactly for an active user with the right password, and only its
   failure raises a count: that email's, by one, for a day.
   */
  lemma LoginRecords(attempts: seq<Attempt>, user: Option<User>, email: string, ip: string, passwordOk: bool,
                     countAt: int, recordAt: int, other: string, now: int)
    requires recordAt <= now
    ensures var (r, attempts') := Login(attempts, user, email, ip, passwordOk, countAt, recordAt);
            && (r.TooManyRequests? <==> FailureCount(attempts, email, countAt) >= 5)
            && (r.TooManyRequests? ==> r.retryAfter == CalculateDelay(FailureCount(attempts, email, countAt)) > 0)
            && attempts' == (if r.TooManyRequests? then attempts
                             else attempts + [Attempt(email, ip, !r.InvalidCredentials?, recordAt)])
            && (r.LoggedIn? || r.MfaRequired? <==>
                  && FailureCount(attempts, email, countAt) < 5
                  && user.Some? && user.value.hasPassword && !user.value.suspended && passwordOk)
            && (r.MfaRequired? ==> user.value.mfaEnrolled) && (r.LoggedIn? ==> !user.value.mfaEnrolled)
            && FailureCount(attempts', other, now)
               == FailureCount(attempts, other, now)
                  + (if r.InvalidCredentials? && other == email && now < recordAt + DAY_MS then 1 else 0)
  {
    var n := FailureCount(attempts, email, countAt);
    DelayMonotone(n, n);
    AppendCounts(attempts, Attempt(email, ip, false, recordAt), other, now);
    AppendCounts(attempts, Attempt(email, ip, true, recordAt), other, now);
  }

  // ---------------------------------------------------------------------------------------------
  // Serial runs
  // ---------------------------------------------------------------------------------------------

  datatype Event =
    | LoginCall(user: Option<User>, email: string, ipAddress: string, passwordOk: bool, countAt: int, recordAt: int)
    | CountCall(counted: string, at: int)
    | PruneCall(at: int)

  datatype Reply = LoginReply(result: LoginResult) | CountReply(count: nat)

  function FirstReading(e: Event): int {
    match e
    case LoginCall(_, _, _, _, countAt, _) => countAt
    case CountCall(_, at) => at
    case PruneCall(at) => at
  }

  function LastReading(e: Event): int {
    match e
    case LoginCall(_, _, _, _, _, recordAt) => recordAt
    case CountCall(_, at) => at
    case PruneCall(at) => at
  }

  /** The clock never runs backwards over the run. */
  ghost predicate Timely(clock: int, es: seq<Event>)
    decreases |es|
  {
    es == [] || (clock <= FirstReading(es[0]) <= LastReading(es[0]) && Timely(LastReading(es[0]), es[1..]))
  }

  function After(attempts: seq<Attempt>, e: Event): seq<Attempt> {
    match e
    case LoginCall(user, email, ip, ok, countAt, recordAt) => Login(attempts, user, email, ip, ok, countAt, recordAt).1
    case CountCall(_, _) => attempts
    case PruneCall(at) => Prune(attempts, at)
  }

  function Reply1(attempts: seq<Attempt>, e: Event): seq<Reply> {
    match e
    case LoginCall(user, email, ip, ok, countAt, recordAt) =>
      [LoginReply(Login(attempts, user, email, ip, ok, countAt, recordAt).0)]
    case CountCall(email, at) => [CountReply(FailureCount(attempts, email, at))]
    case PruneCall(_) => []
  }

  /** What the callers see over a run. */
  function Replies(attempts: seq<Attempt>, es: seq<Event>): seq<Reply>
    decreases |es|
  {
    if es == [] then [] else Reply1(attempts, es[0]) + Replies(After(attempts, es[0]), es[1..])
  }

  function WithoutPrunes(es: seq<Event>): seq<Event> {
    if es == [] then [] else (if es[0].PruneCall? then [] else [es[0]]) + WithoutPrunes(es[1..])
  }

  // ---------------------------------------------------------------------------------------------
  // Cleanup is invisible
  // ---------------------------------------------------------------------------------------------

  /** The two tables give the same count to anybody who asks from now on. */
  ghost predicate Agree(a: seq<Attempt>, b: seq<Attempt>, clock: int) {
    forall email, now | now >= clock :: FailureCount(a, email, now) == FailureCount(b, email, now)
  }

  lemma {:induction false} PruneKeepsCounts(attempts: seq<Attempt>, at: int, email: string, now: int)
    requires at <= now
    ensures FailureCount(Prune(attempts, at), email, now) == FailureCount(attempts, email, now)
  {
    if attempts != [] {
      var n := |attempts| - 1;
      PruneKeepsCounts(attempts[..n], at, email, now);
      var rest := Prune(attempts[..n], at);
      if attempts[n].createdAt > at - DAY_MS {
        assert (rest + [attempts[n]])[..|rest|] == rest;
      } else {
        assert rest + [] == rest;
      }
    }
  }

  lemma AppendCounts(attempts: seq<Attempt>, a: Attempt, email: string, now: int)
    ensures FailureCount(attempts + [a], email, now)
            == FailureCount(attempts, email, now) + (if FailureSince(a, email, now - DAY_MS) then 1 else 0)
  {
    assert (attempts + [a])[..|attempts|] == attempts;
  }

  lemma StepAgrees(a: seq<Attempt>, b: seq<Attempt>, clock: int, e: Event)
    requires Agree(a, b, clock) && clock <= FirstReading(e) <= LastReading(e)
    ensures e.PruneCall? ==> Agree(After(a, e), b, LastReading(e))
    ensures !e.PruneCall? ==> Agree(After(a, e), After(b, e), LastReading(e)) && Reply1(a, e) == Reply1(b, e)
  {
    match e
    case PruneCall(at) =>
      forall email, now | now >= at
        ensures FailureCount(Prune(a, at), email, now) == FailureCount(b, email, now)
      {
        PruneKeepsCounts(a, at, email, now);
      }
    case LoginCall(user, email, ip, ok, countAt, recordAt) =>
      forall mail, now | now >= recordAt
        ensures FailureCount(After(a, e), mail, now) == FailureCount(After(b, e), mail, now)
      {
        AppendCounts(a, Attempt(email, ip, false, recordAt), mail, now);
        AppendCounts(b, Attempt(email, ip, false, recordAt), mail, now);
        AppendCounts(a, Attempt(email, ip, true, recordAt), mail, now);
        AppendCounts(b, Attempt(email, ip, true, recordAt), mail, now);
      }
    case CountCall(_, _) =>
  }

  lemma {:induction false} PruningKeepsReplies(a: seq<Attempt>, b: seq<Attempt>, clock: int, es: seq<Event>)
    requires Agree(a, b, clock) && Timely(clock, es)
    ensures Replies(a, es) == Replies(b, WithoutPrunes(es))
    decreases |es|
  {
    if es != [] {
      var e := es[0];
      StepAgrees(a, b, clock, e);
      if e.PruneCall? {
        PruningKeepsReplies(After(a, e), b, LastReading(e), es[1..]);
        assert WithoutPrunes(es) == WithoutPrunes(es[1..]);
      } else {
        PruningKeepsReplies(After(a, e), After(b, e), LastReading(e), es[1..]);
        var rest := WithoutPrunes(es[1..]);
        assert WithoutPrunes(es) == [e] + rest;
        assert ([e] + rest)[1..] == rest;
      }
    }
  }

  /** Pruning at any points of a run changes no login result and no count. */
  lemma PruningIsInvisible(attempts: seq<Attempt>, clock: int, es: seq<Event>)
    requires Timely(clock, es)
    ensures Replies(attempts, es) == Replies(attempts, WithoutPrunes(es))
  {
    PruningKeepsReplies(attempts, attempts, clock, es);
  }

  // ---------------------------------------------------------------------------------------------
  // At most five failures a day
  // ---------------------------------------------------------------------------------------------

  /** The failures of one email recorded in the window (from, from + 24 h]. */
  function FailuresIn(attempts: seq<Attempt>, email: string, from: int): nat {
    if attempts == [] then 0
    else
      var a := attempts[|attempts| - 1];
      FailuresIn(attempts[..|attempts| - 1], email, from)
      + (if a.email == email && !a.success && from < a.createdAt <= from + DAY_MS then 1 else 0)
  }

  /** The failures of one email in the window from a time to a day later. */
  lemma FailuresInIsSize(attempts: seq<Attempt>, email: string, from: int)
    ensures FailuresIn(attempts, email, from)
            == |set i | 0 <= i < |attempts| && attempts[i].email == email && !attempts[i].success
              && from < attempts[i].createdAt <= from + 86_400_000|
  {
    var p := (r: Attempt) => r.email == email && !r.success && from < r.createdAt <= from + 86_400_000;
    FailuresInIsCountIf(attempts, email, from, p);
    CountIsSize(attempts, p);
    assert Places(attempts, p) == set i | 0 <= i < |attempts| && attempts[i].email == email && !attempts[i].success
      && from < attempts[i].createdAt <= from + 86_400_000;
  }

  lemma {:induction false} FailuresInIsCountIf(attempts: seq<Attempt>, email: string, from: int, p: Attempt -> bool)
    requires forall r: Attempt :: p(r) <==> r.email == email && !r.success && from < r.createdAt <= from + 86_400_000
    ensures FailuresIn(attempts, email, from) == CountIf(attempts, p)
  {
    if attempts != [] {
      FailuresInIsCountIf(attempts[..|attempts| - 1], email, from, p);
    }
  }

  /** Everything that a run ever records, pruned or not, behind what was recorded before. */
  function Recorded(attempts: seq<Attempt>, history: seq<Attempt>, es: seq<Event>): seq<Attempt>
    decreases |es|
  {
    if es == [] then history
    else
      var next := After(attempts, es[0]);
      Recorded(next, if es[0].LoginCall? && |next| > |attempts| then history + [next[|next| - 1]] else history, es[1..])
  }

  ghost predicate FivePerDay(history: seq<Attempt>) {
    forall email, from :: FailuresIn(history, email, from) <= 5
  }

  ghost predicate RecordedBy(history: seq<Attempt>, clock: int) {
    forall i | 0 <= i < |history| :: history[i].createdAt <= clock
  }

  lemma {:induction false} WindowWithinCount(history: seq<Attempt>, email: string, from: int, now: int)
    requires now - DAY_MS <= from
    ensures FailuresIn(history, email, from) <= FailureCount(history, email, now)
  {
    if history != [] {
      WindowWithinCount(history[..|history| - 1], email, from, now);
    }
  }

  lemma {:induction false} CountWithinWindow(history: seq<Attempt>, email: string, now: int)
    requires RecordedBy(history, now)
    ensures FailureCount(history, email, now) == FailuresIn(history, email, now - DAY_MS)
  {
    if history != [] {
      CountWithinWindow(history[..|history| - 1], email, now);
    }
  }

  lemma RecordKeepsFivePerDay(history: seq<Attempt>, a: Attempt, countAt: int)
    requires FivePerDay(history) && countAt <= a.createdAt
    requires FailureCount(history, a.email, countAt) < 5
    ensures FivePerDay(history + [a])
  {
    forall email, from
      ensures FailuresIn(history + [a], email, from) <= 5
    {
      assert (history + [a])[..|history|] == history;
      if email == a.email && from < a.createdAt <= from + DAY_MS {
        WindowWithinCount(history, email, from, countAt);
      }
    }
  }

  /** The invariant of a run: the stored table answers like the full history, which obeys the bound. */
  ghost predicate Inv(attempts: seq<Attempt>, history: seq<Attempt>, clock: int) {
    Agree(attempts, history, clock) && FivePerDay(history) && RecordedBy(history, clock)
  }

  /** A delay that is raised is exactly one second: the count never exceeds five. */
  lemma DelayIsOne(attempts: seq<Attempt>, history: seq<Attempt>, clock: int, email: string, now: int)
    requires Inv(attempts, history, clock) && now >= clock
    ensures FailureCount(attempts, email, now) <= 5
    ensures CalculateDelay(FailureCount(attempts, email, now)) <= 1
  {
    CountWithinWindow(history, email, now);
    assert Pow2(0) == 1;
  }

  lemma AppendKeepsInv(attempts: seq<Attempt>, history: seq<Attempt>, clock: int, a: Attempt, countAt: int)
    requires Inv(attempts, history, clock) && clock <= countAt <= a.createdAt
    requires FailureCount(attempts, a.email, countAt) < 5
    ensures Inv(attempts + [a], history + [a], a.createdAt)
  {
    RecordKeepsFivePerDay(history, a, countAt);
    forall email, now | now >= a.createdAt
      ensures FailureCount(attempts + [a], email, now) == FailureCount(history + [a], email, now)
    {
      AppendCounts(attempts, a, email, now);
      AppendCounts(history, a, email, now);
    }
  }

  lemma LoginKeepsInv(attempts: seq<Attempt>, history: seq<Attempt>, clock: int, e: Event)
    requires Inv(attempts, history, clock) && e.LoginCall? && clock <= e.countAt <= e.recordAt
    ensures var next := After(attempts, e);
            Inv(next, if |next| > |attempts| then history + [next[|next| - 1]] else history, e.recordAt)
  {
    var next := After(attempts, e);
    if |next| > |attempts| {
      var a := next[|next| - 1];
      assert next == attempts + [a] && a.email == e.email;
      var n := FailureCount(attempts, e.email, e.countAt);
      DelayMonotone(n, n);
      AppendKeepsInv(attempts, history, clock, a, e.countAt);
    }
  }

  /** A refusal asks for one second, and a count is at most five. */
  ghost predicate Mild(r: Reply) {
    match r
    case LoginReply(result) => result.TooManyRequests? ==> result.retryAfter == 1
    case CountReply(count) => count <= 5
  }

  /** What is recorded after one more call. */
  function RecordedAfter(attempts: seq<Attempt>, history: seq<Attempt>, e: Event): seq<Attempt> {
    var next := After(attempts, e);
    if e.LoginCall? && |next| > |attempts| then history + [next[|next| - 1]] else history
  }

  lemma StepKeepsInv(attempts: seq<Attempt>, history: seq<Attempt>, clock: int, e: Event)
    requires Inv(attempts, history, clock) && clock <= FirstReading(e) <= LastReading(e)
    ensures Inv(After(attempts, e), RecordedAfter(attempts, history, e), LastReading(e))
    ensures forall r | r in Reply1(attempts, e) :: Mild(r)
  {
    match e
    case LoginCall(_, email, _, _, countAt, recordAt) =>
      DelayIsOne(attempts, history, clock, email, countAt);
      LoginKeepsInv(attempts, history, clock, e);
    case CountCall(email, at) => DelayIsOne(attempts, history, clock, email, at);
    case PruneCall(at) => StepAgrees(attempts, history, clock, e);
  }

  lemma {:induction false} RunKeepsInv(attempts: seq<Attempt>, history: seq<Attempt>, clock: int, es: seq<Event>)
    requires Inv(attempts, history, clock) && Timely(clock, es)
    ensures FivePerDay(Recorded(attempts, history, es))
    ensures forall r | r in Replies(attempts, es) :: Mild(r)
    decreases |es|
  {
    if es != [] {
      StepKeepsInv(attempts, history, clock, es[0]);
      RunKeepsInv(After(attempts, es[0]), RecordedAfter(attempts, history, es[0]), LastReading(es[0]), es[1..]);
      assert forall r | r in Replies(attempts, es) ::
               r in Reply1(attempts, es[0]) || r in Replies(After(attempts, es[0]), es[1..]);
    }
  }

  /**
   In a serial run no 24-hour window ever holds more than five recorded failures of one email,
   because a throttled attempt is refused before it is recorded. So every refusal asks for a delay
   of one second, and the longer delays of calculateDelay are never reached.
   */
  lemma AtMostFiveFailuresADay(clock: int, es: seq<Event>)
    requires Timely(clock, es)
    ensures FivePerDay(Recorded([], [], es))
    ensures forall r | r in Replies([], es) && r.LoginReply? && r.result.TooManyRequests? :: r.result.retryAfter == 1
  {
    RunKeepsInv([], [], clock, es);
    assert forall r | r in Replies([], es) :: Mild(r);
  }
}
