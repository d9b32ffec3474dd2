/**
 Sessions (apps/server/src/modules/session/session.service.ts).
 */
module Sessions {
  import opened Common

  const LAST_ACTIVE_DEBOUNCE_MS := 5 * 60 * 1000

  datatype Session = Session(
    id: string,
    userId: string,
    expiresAt: int,
    lastActiveAt: int,
    ipAddress: Option<string>,
    userAgent: Option<string>,
    createdAt: int)

  /** The column token is unique. */
  type Table = map<Digest, Session>

  function NewSession(id: string, userId: string, ttlSeconds: int, ip: Option<string>, agent: Option<string>,
                      now: int, dbNow: int): Session
  {
    Session(id, userId, now + ttlSeconds * 1000, dbNow, ip, agent, dbNow)
  }

  function Touch(s: Session, now: int): Session {
    if now - s.lastActiveAt > LAST_ACTIVE_DEBOUNCE_MS then s.(lastActiveAt := now) else s
  }

  /** validateSession: the row is selected at readAt, its activity is judged at now. */
  function Validate(t: Table, token: string, readAt: int, now: int): (Option<Session>, Table) {
    var d := Sha256(token);
    if d !in t || t[d].expiresAt <= readAt then (None, t)
    else (Some(Touch(t[d], now)), t[d := Touch(t[d], now)])
  }

  /** Which rows a DELETE removes. */
  datatype Selector =
    | ById(id: string)
    | ByUser(userId: string, except: Option<string>)
    | Expired(now: int)
  {
    predicate Selects(s: Session) {
      match this
      case ById(id) => s.id == id
      case ByUser(u, except) => s.userId == u && except != Some(s.id)
      case Expired(now) => s.expiresAt <= now
    }
  }

  function Delete(t: Table, sel: Selector): Table {
    map d | d in t && !sel.Selects(t[d]) :: t[d]
  }

  class SessionService {
    const ttlSeconds: int
    var sessions: Table

    constructor (ttlSeconds: int)
      ensures this.ttlSeconds == ttlSeconds && sessions == map[]
    {
      this.ttlSeconds := ttlSeconds;
      sessions := map[];
    }

    method CreateSession(token: string, id: string, userId: string, ip: Option<string>, agent: Option<string>,
                         now: int, dbNow: int)
      returns (r: Option<Session>)
      modifies this
      ensures Sha256(token) in old(sessions) ==> r.None? && sessions == old(sessions)
      ensures Sha256(token) !in old(sessions) ==>
                && r == Some(NewSession(id, userId, ttlSeconds, ip, agent, now, dbNow))
                && sessions == old(sessions)[Sha256(token) := r.value]
    {
      var expiresAt := now + ttlSeconds * 1000;
      if Sha256(token) in sessions {
        return None;
      }
      var row := Session(id, userId, expiresAt, dbNow, ip, agent, dbNow);
      sessions := sessions[Sha256(token) := row];
      r := Some(row);
    }

    method ValidateSession(token: string, readAt: int, now: int) returns (r: Option<Session>)
      modifies this
      ensures (r, sessions) == Validate(old(sessions), token, readAt, now)
    {
      var tokenHash := Sha256(token);
      if tokenHash !in sessions || !(sessions[tokenHash].expiresAt > readAt) {
        return None;
      }
      var row := sessions[tokenHash];
      var msSinceLastActive := now - row.lastActiveAt;
      if msSinceLastActive > LAST_ACTIVE_DEBOUNCE_MS {
        row := row.(lastActiveAt := now);
        sessions := sessions[tokenHash := row];
      }
      assert sessions == old(sessions)[tokenHash := row];
      r := Some(row);
    }

    method RevokeSession(id: string)
      modifies this
      ensures sessions == Delete(old(sessions), ById(id))
    {
      sessions := map d | d in sessions && sessions[d].id != id :: sessions[d];
    }

    method RevokeAllUserSessions(userId: string, except: Option<string>)
      modifies this
      ensures sessions == Delete(old(sessions), ByUser(userId, except))
    {
      if except.Some? {
        sessions := map d | d in sessions && !(sessions[d].userId == userId && sessions[d].id != except.value) ::
          sessions[d];
      } else {
        sessions := map d | d in sessions && sessions[d].userId != userId :: sessions[d];
      }
    }

    method DeleteExpiredSessions(now: int) returns (deleted: nat)
      modifies this
      ensures sessions == Delete(old(sessions), Expired(now))
      ensures deleted == |old(sessions)| - |sessions|
    {
      var before := sessions;
      sessions := map d | d in before && before[d].expiresAt > now :: before[d];
      assert sessions.Keys <= before.Keys && before.Keys == sessions.Keys + (before.Keys - sessions.Keys);
      deleted := |before.Keys - sessions.Keys|;
    }
  }

  // ---------------------------------------------------------------------------------------------
  // Serial runs
  // ---------------------------------------------------------------------------------------------

  datatype Event =
    | Create(token: string, session: Session)
    | ValidateCall(presented: string, readAt: int, now: int)
    | DeleteCall(sel: Selector)

  predicate IsCleanup(e: Event) {
    e.DeleteCall? && e.sel.Expired?
  }

  function After(t: Table, e: Event): Table {
    match e
    case Create(token, session) => if Sha256(token) in t then t else t[Sha256(token) := session]
    case ValidateCall(token, readAt, now) => Validate(t, token, readAt, now).1
    case DeleteCall(sel) => Delete(t, sel)
  }

  function Replies(t: Table, es: seq<Event>): seq<Option<Session>>
    decreases |es|
  {
    if es == [] then []
    else
      (if es[0].ValidateCall? then [Validate(t, es[0].presented, es[0].readAt, es[0].now).0] else [])
      + Replies(After(t, es[0]), es[1..])
  }

  function WithoutCleanup(es: seq<Event>): seq<Event> {
    if es == [] then [] else (if IsCleanup(es[0]) then [] else [es[0]]) + WithoutCleanup(es[1..])
  }

  /** Validations and cleanups read a clock that never runs backwards. */
  ghost predicate Timely(clock: int, es: seq<Event>)
    decreases |es|
  {
    es == [] ||
    match es[0]
    case ValidateCall(_, readAt, now) => clock <= readAt <= now && Timely(now, es[1..])
    case DeleteCall(Expired(now)) => clock <= now && Timely(now, es[1..])
    case _ => Timely(clock, es[1..])
  }

  /** Every created token is new: 32 random bytes. */
  ghost predicate FreshTokens(minted: set<Digest>, es: seq<Event>)
    decreases |es|
  {
    es == [] ||
    if es[0].Create? then Sha256(es[0].token) !in minted && FreshTokens(minted + {Sha256(es[0].token)}, es[1..])
    else FreshTokens(minted, es[1..])
  }

  /** The cleaned table misses only rows that have expired, of tokens that will not be minted again. */
  ghost predicate Agree(cleaned: Table, full: Table, clock: int, minted: set<Digest>) {
    && full.Keys <= minted
    && (forall d | d in cleaned :: d in full && cleaned[d] == full[d])
    && (forall d | d in full && d !in cleaned :: full[d].expiresAt <= clock)
  }

  function Clock(clock: int, e: Event): int {
    match e
    case ValidateCall(_, _, now) => now
    case DeleteCall(Expired(now)) => now
    case _ => clock
  }

  function Minted(minted: set<Digest>, e: Event): set<Digest> {
    if e.Create? then minted + {Sha256(e.token)} else minted
  }

  lemma StepAgrees(cleaned: Table, full: Table, clock: int, minted: set<Digest>, es: seq<Event>)
    requires es != [] && Agree(cleaned, full, clock, minted) && Timely(clock, es) && FreshTokens(minted, es)
    ensures var e := es[0];
            && Agree(After(cleaned, e), if IsCleanup(e) then full else After(full, e), Clock(clock, e),
                     Minted(minted, e))
            && Timely(Clock(clock, e), es[1..]) && FreshTokens(Minted(minted, e), es[1..])
            && (e.ValidateCall? ==>
                  Validate(cleaned, e.presented, e.readAt, e.now).0 == Validate(full, e.presented, e.readAt, e.now).0)
  {
    var e := es[0];
    match e
    case Create(token, session) =>
    case ValidateCall(token, readAt, now) =>
    case DeleteCall(sel) =>
      if sel.Expired? {
        assert Timely(sel.now, es[1..]);
      }
  }

  lemma {:induction false} CleanupKeepsReplies(cleaned: Table, full: Table, clock: int, minted: set<Digest>,
                                               es: seq<Event>)
    requires Agree(cleaned, full, clock, minted) && Timely(clock, es) && FreshTokens(minted, es)
    ensures Replies(cleaned, es) == Replies(full, WithoutCleanup(es))
    decreases |es|
  {
    if es != [] {
      var e := es[0];
      StepAgrees(cleaned, full, clock, minted, es);
      var next := if IsCleanup(e) then full else After(full, e);
      CleanupKeepsReplies(After(cleaned, e), next, Clock(clock, e), Minted(minted, e), es[1..]);
      var rest := WithoutCleanup(es[1..]);
      if IsCleanup(e) {
        assert WithoutCleanup(es) == rest;
        assert Replies(cleaned, es) == Replies(After(cleaned, e), es[1..]);
      } else {
        assert WithoutCleanup(es) == [e] + rest;
        assert ([e] + rest)[1..] == rest;
      }
    }
  }

  /** Deleting expired sessions at any points of a run changes no validation. */
  lemma CleanupIsInvisible(t: Table, clock: int, es: seq<Event>)
    requires Timely(clock, es) && FreshTokens(t.Keys, es)
    ensures Replies(t, es) == Replies(t, WithoutCleanup(es))
  {
    CleanupKeepsReplies(t, t, clock, t.Keys, es);
  }

  // ---------------------------------------------------------------------------------------------
  // Revocation is final
  // ---------------------------------------------------------------------------------------------

  function Run(t: Table, es: seq<Event>): Table
    decreases |es|
  {
    if es == [] then t else Run(After(t, es[0]), es[1..])
  }

  /** A token that is not in the table, and is not minted again, never validates again. */
  lemma {:induction false} GoneForEver(t: Table, es: seq<Event>, token: string, readAt: int, now: int)
    requires Sha256(token) !in t
    requires forall i | 0 <= i < |es| && es[i].Create? :: es[i].token != token
    ensures Validate(Run(t, es), token, readAt, now).0.None?
    decreases |es|
  {
    if es != [] {
      assert forall i | 0 <= i < |es[1..]| && es[1..][i].Create? :: es[i + 1].token != token;
      GoneForEver(After(t, es[0]), es[1..], token, readAt, now);
    }
  }

  /**
   What each deletion keeps: of an id, every session but that one; of a user, the sessions of others and
   the excepted one; of expired sessions, those that still live. What it keeps it does not change.
   */
  lemma DeleteKeepsExactly(t: Table, sel: Selector, d: Digest)
    ensures d in Delete(t, sel) <==>
            d in t && match sel
                      case ById(id) => t[d].id != id
                      case ByUser(u, except) => t[d].userId != u || except == Some(t[d].id)
                      case Expired(now) => t[d].expiresAt > now
    ensures d in Delete(t, sel) ==> Delete(t, sel)[d] == t[d]
  {
  }

  /**
   A revoked session, be it by its id or as one of its user's that is not excepted, stays revoked: no
   later step, other than minting the same token again, brings it back. Nor does an expired one return.
   */
  lemma RevocationIsFinal(t: Table, sel: Selector, es: seq<Event>, token: string, readAt: int, now: int)
    requires Sha256(token) in t ==>
               match sel
               case ById(id) => t[Sha256(token)].id == id
               case ByUser(u, except) => t[Sha256(token)].userId == u && except != Some(t[Sha256(token)].id)
               case Expired(at) => t[Sha256(token)].expiresAt <= at
    requires forall i | 0 <= i < |es| && es[i].Create? :: es[i].token != token
    ensures Validate(Run(Delete(t, sel), es), token, readAt, now).0.None?
  {
    DeleteKeepsExactly(t, sel, Sha256(token));
    GoneForEver(Delete(t, sel), es, token, readAt, now);
  }

  /** Up to lastActiveAt, which only moves forward. */
  ghost predicate SameSession(a: Session, b: Session) {
    b == a.(lastActiveAt := b.lastActiveAt) && b.lastActiveAt >= a.lastActiveAt
  }

  /** A stored session outlives every run of which no deletion selects it. */
  lemma {:induction false} SessionStays(t: Table, es: seq<Event>, d: Digest)
    requires d in t
    requires forall i | 0 <= i < |es| && es[i].DeleteCall? :: !es[i].sel.Selects(t[d])
    ensures d in Run(t, es) && SameSession(t[d], Run(t, es)[d])
    decreases |es|
  {
    if es != [] {
      var t' := After(t, es[0]);
      assert d in t' && SameSession(t[d], t'[d]);
      forall i | 0 <= i < |es[1..]| && es[1..][i].DeleteCall?
        ensures !es[1..][i].sel.Selects(t'[d])
      {
        assert es[1..][i] == es[i + 1];
      }
      SessionStays(t', es[1..], d);
    }
  }

  /**
   A created session validates for its user until its lifetime is over, whatever happens in between,
   unless its id is revoked, or its user's sessions are and it is not the excepted one; cleanups that
   do not run ahead of the validation do not disturb it.
   */
  lemma CreatedSessionValidates(t: Table, token: string, id: string, userId: string, ttlSeconds: int,
                                ip: Option<string>,
                                agent: Option<string>, now: int, dbNow: int, es: seq<Event>, readAt: int, judgedAt: int)
    requires Sha256(token) !in t
    requires forall i | 0 <= i < |es| && es[i].Create? :: es[i].token != token
    requires forall i | 0 <= i < |es| && es[i].DeleteCall? ::
               match es[i].sel
               case ById(other) => other != id
               case ByUser(u, except) => u != userId || except == Some(id)
               case Expired(at) => at <= readAt
    ensures var t' := Run(t[Sha256(token) := NewSession(id, userId, ttlSeconds, ip, agent, now, dbNow)], es);
            var r := Validate(t', token, readAt, judgedAt).0;
            && (r.Some? <==> readAt < now + ttlSeconds * 1000)
            && (r.Some? ==>
                  && r.value.id == id && r.value.userId == userId && r.value.expiresAt == now + ttlSeconds * 1000
                  && r.value.ipAddress == ip && r.value.userAgent == agent && r.value.createdAt == dbNow
                  && r.value.lastActiveAt >= dbNow)
  {
    var d := Sha256(token);
    var s := NewSession(id, userId, ttlSeconds, ip, agent, now, dbNow);
    var t0 := t[d := s];
    if readAt < s.expiresAt {
      SessionStays(t0, es, d);
    } else {
      ExpiredNeverValidates(t0, es, token, s.expiresAt);
      assert d in Run(t0, es) ==> Run(t0, es)[d].expiresAt <= readAt;
    }
  }

  /** Validation never extends a session. */
  lemma {:induction false} ExpiredNeverValidates(t: Table, es: seq<Event>, token: string, limit: int)
    requires Sha256(token) in t ==> t[Sha256(token)].expiresAt <= limit
    requires forall i | 0 <= i < |es| && es[i].Create? :: es[i].token != token
    ensures Sha256(token) in Run(t, es) ==> Run(t, es)[Sha256(token)].expiresAt <= limit
    decreases |es|
  {
    if es != [] {
      assert forall i | 0 <= i < |es[1..]| && es[1..][i].Create? :: es[i + 1].token != token;
      ExpiredNeverValidates(After(t, es[0]), es[1..], token, limit);
    }
  }

  /** What one validation accepts and changes: an unexpired row, of which at most lastActiveAt moves, forward. */
  lemma ValidateExactly(t: Table, token: string, readAt: int, now: int)
    ensures var (r, t') := Validate(t, token, readAt, now);
            && (r.Some? <==> Sha256(token) in t && readAt < t[Sha256(token)].expiresAt)
            && t'.Keys == t.Keys
            && (forall d | d in t ::
                  t'[d] == t[d].(lastActiveAt := t'[d].lastActiveAt) && t'[d].lastActiveAt >= t[d].lastActiveAt)
            && (r.Some? ==> t'[Sha256(token)] == r.value && now - r.value.lastActiveAt <= 5 * 60 * 1000)
            && (r.None? || now - t[Sha256(token)].lastActiveAt <= 5 * 60 * 1000 ==> t' == t)
            && (forall d | d in t && d != Sha256(token) :: t'[d] == t[d])
  {
  }
}
