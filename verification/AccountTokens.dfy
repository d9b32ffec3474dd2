/**
 Tokens that are mailed to a user and work once: the tables password_reset_tokens and
 email_verification_tokens have the same columns.
 */
module AccountTokens {
  import opened Common
  import opened Counting

  datatype Token = Token(userId: string, token: string, expiresAt: int, usedAt: Option<int>, createdAt: int)

  predicate Live(t: Token, userId: string, now: int) {
    t.userId == userId && t.usedAt.None? && t.expiresAt > now
  }

  function CountLive(rows: seq<Token>, userId: string, now: int): nat {
    if rows == [] then 0
    else CountLive(rows[..|rows| - 1], userId, now) + (if Live(rows[|rows| - 1], userId, now) then 1 else 0)
  }

  /** The live tokens of a user: unused and not yet expired. */
  lemma CountLiveIsSize(rows: seq<Token>, userId: string, now: int)
    ensures CountLive(rows, userId, now)
            == |set i | 0 <= i < |rows| && rows[i].userId == userId && rows[i].usedAt.None? && rows[i].expiresAt > now|
  {
    var p := (r: Token) => r.userId == userId && r.usedAt.None? && r.expiresAt > now;
    CountLiveIsCountIf(rows, userId, now, p);
    CountIsSize(rows, p);
    assert Places(rows, p) == set i | 0 <= i < |rows| && rows[i].userId == userId && rows[i].usedAt.None?
      && rows[i].expiresAt > now;
  }

  lemma {:induction false} CountLiveIsCountIf(rows: seq<Token>, userId: string, now: int, p: Token -> bool)
    requires forall r: Token :: p(r) <==> r.userId == userId && r.usedAt.None? && r.expiresAt > now
    ensures CountLive(rows, userId, now) == CountIf(rows, p)
  {
    if rows != [] {
      CountLiveIsCountIf(rows[..|rows| - 1], userId, now, p);
    }
  }

  function Find(rows: seq<Token>, token: string): Option<nat> {
    if rows == [] then None
    else if rows[|rows| - 1].token == token then Some(|rows| - 1)
    else Find(rows[..|rows| - 1], token)
  }

  lemma {:induction false} FindFinds(rows: seq<Token>, token: string)
    ensures Find(rows, token).Some? ==> Find(rows, token).value < |rows| && rows[Find(rows, token).value].token == token
    ensures Find(rows, token).None? ==> forall i | 0 <= i < |rows| :: rows[i].token != token
  {
    if rows != [] && rows[|rows| - 1].token != token {
      FindFinds(rows[..|rows| - 1], token);
    }
  }

  function MarkUsed(rows: seq<Token>, i: nat, now: int): seq<Token>
    requires i < |rows|
  {
    rows[i := rows[i].(usedAt := Some(now))]
  }

  /** A table row became what it is now only by being marked used. */
  ghost predicate OnlyMarked(rows: seq<Token>, rows': seq<Token>) {
    && |rows| == |rows'|
    && (forall i | 0 <= i < |rows| ::
          rows'[i] == rows[i] || (rows[i].usedAt.None? && rows'[i].usedAt.Some?
                                  && rows'[i] == rows[i].(usedAt := rows'[i].usedAt)))
  }

  lemma {:induction false} MarkingNeverRevives(rows: seq<Token>, rows': seq<Token>, userId: string, now: int,
                                               later: int)
    requires OnlyMarked(rows, rows') && now <= later
    ensures CountLive(rows', userId, later) <= CountLive(rows, userId, now)
    decreases |rows|
  {
    if rows != [] {
      MarkingNeverRevives(rows[..|rows| - 1], rows'[..|rows| - 1], userId, now, later);
    }
  }

  lemma AppendLive(rows: seq<Token>, t: Token, userId: string, now: int)
    ensures CountLive(rows + [t], userId, now) == CountLive(rows, userId, now) + (if Live(t, userId, now) then 1 else 0)
  {
    assert (rows + [t])[..|rows|] == rows;
  }

  ghost predicate AtMost(rows: seq<Token>, limit: nat, clock: int) {
    forall userId, now | now >= clock :: CountLive(rows, userId, now) <= limit
  }

  lemma {:induction false} FindSurvives(rows: seq<Token>, rows': seq<Token>, token: string)
    requires |rows'| == |rows| && forall i | 0 <= i < |rows| :: rows'[i].token == rows[i].token
    ensures Find(rows', token) == Find(rows, token)
    decreases |rows|
  {
    if rows != [] {
      FindSurvives(rows[..|rows| - 1], rows'[..|rows| - 1], token);
    }
  }
}
