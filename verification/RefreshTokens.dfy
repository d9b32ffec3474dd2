/**
 The refresh_tokens table and the database steps of the refresh token service
 (apps/server/src/modules/token/refresh-token.service.ts).

 Every function here is one atomic database step, or the pure decision between two of them.
 The class at the end is the service itself; its methods are proved against these functions.
 RefreshFamilies.dfy interleaves the steps of any number of requests.
 */
module RefreshTokens {
  import opened Common

  /** Times are milliseconds. The column rotation_grace_plaintext holds the successor's digest. */
  datatype Row = Row(
    token: Digest,
    clientId: string,
    userId: string,
    scope: string,
    expiresAt: int,
    revokedAt: Option<int>,
    rotationGrace: Option<Digest>,
    dpopJkt: Option<string>,
    familyId: string,
    createdAt: int)

  /** The column token is unique, so the table is a map keyed by it. */
  type Table = map<Digest, Row>

  datatype TokenError = InvalidToken | BindingMismatch | ReuseDetected | UniqueViolation

  /** The WHERE clauses of the service's revoking updates, each joined with "revoked_at IS NULL". */
  datatype Selector =
    | ByToken(token: Digest)
    | ByFamily(familyId: string)
    | ByClientUser(clientId: string, userId: string)
  {
    predicate Selects(row: Row) {
      match this
      case ByToken(d) => row.token == d
      case ByFamily(f) => row.familyId == f
      case ByClientUser(c, u) => row.clientId == c && row.userId == u
    }
  }

  datatype CreateParams = CreateParams(
    clientId: string,
    userId: string,
    scope: string,
    expiresInSeconds: int,
    familyId: string,
    dpopJkt: Option<string>)

  const MIN_TTL_MS := 60_000

  ghost predicate Keyed(t: Table) {
    forall d | d in t :: t[d].token == d
  }

  function RevokeRow(row: Row, now: int): Row {
    if row.revokedAt.None? then row.(revokedAt := Some(now)) else row
  }

  /** UPDATE refresh_tokens SET revoked_at = now WHERE sel AND revoked_at IS NULL. */
  function RevokeWhere(t: Table, sel: Selector, now: int): Table {
    map d | d in t :: if sel.Selects(t[d]) then RevokeRow(t[d], now) else t[d]
  }

  function NewRow(plain: string, p: CreateParams, now: int, dbNow: int): Row {
    Row(Sha256(plain), p.clientId, p.userId, p.scope, now + p.expiresInSeconds * 1000,
        None, None, p.dpopJkt, p.familyId, dbNow)
  }

  /** INSERT, refused by the unique column when the digest is taken. */
  function Insert(t: Table, row: Row): Result<Table, TokenError> {
    if row.token in t then Failure(UniqueViolation) else Success(t[row.token := row])
  }

  function TtlMs(row: Row): int {
    Max(row.expiresAt - row.createdAt, MIN_TTL_MS)
  }

  function Successor(cur: Row, current: Row, newHash: Digest, now: int, dbNow: int): Row {
    Row(newHash, cur.clientId, cur.userId, cur.scope, now + TtlMs(current),
        None, None, cur.dpopJkt, cur.familyId, dbNow)
  }

  /** The transaction of a rotation: re-read, re-check, retire the row, insert its successor. */
  function CommitRotation(t: Table, current: Row, now: int, newPlain: string, dbNow: int)
    : Result<Table, TokenError>
  {
    if current.token !in t then Failure(InvalidToken)
    else
      var cur := t[current.token];
      if cur.revokedAt.Some? || cur.expiresAt <= now then Failure(InvalidToken)
      else
        var newHash := Sha256(newPlain);
        Insert(t[cur.token := cur.(revokedAt := Some(now), rotationGrace := Some(newHash))],
               Successor(cur, current, newHash, now, dbNow))
  }

  /** The checks made on a snapshot of an unrevoked row before its transaction starts. */
  function Admit(current: Row, now: int, jkt: Option<string>): Option<TokenError> {
    if current.dpopJkt.Some? && jkt != current.dpopJkt then Some(BindingMismatch)
    else if current.expiresAt <= now then Some(InvalidToken)
    else None
  }

  /** What the first read of a rotation leads to. */
  datatype Verdict =
    | Rotate(current: Row)
    | LookForChild(familyId: string, child: Digest)
    | KillFamily(familyId: string)
    | Refuse(error: TokenError)

  function Examine(t: Table, token: string, grace: int, now: int, jkt: Option<string>): Verdict {
    if Sha256(token) !in t then Refuse(InvalidToken)
    else
      var row := t[Sha256(token)];
      if row.revokedAt.Some? then
        var withinGrace := now < row.revokedAt.value + grace * 1000;
        if withinGrace && row.rotationGrace.Some? then LookForChild(row.familyId, row.rotationGrace.value)
        else if withinGrace then Refuse(InvalidToken)
        else KillFamily(row.familyId)
      else
        AdmitOrRefuse(row, now, jkt)
  }

  function AdmitOrRefuse(row: Row, now: int, jkt: Option<string>): (v: Verdict)
    ensures v.Rotate? || v.Refuse?
  {
    match Admit(row, now, jkt)
    case Some(e) => Refuse(e)
    case None => Rotate(row)
  }

  /** The second read of a grace replay: the unrevoked successor of the presented row. */
  function ExamineChild(t: Table, familyId: string, child: Digest, now: int, jkt: Option<string>): (v: Verdict)
    ensures v.Rotate? || v.Refuse?
  {
    if child in t && t[child].familyId == familyId && t[child].revokedAt.None?
    then AdmitOrRefuse(t[child], now, jkt)
    else Refuse(InvalidToken)
  }

  /** One rotation with nothing in between its steps; now2 is the second clock reading, taken for a kill. */
  function RotateSerially(t: Table, token: string, grace: int, now: int, now2: int, jkt: Option<string>,
                          newPlain: string, dbNow: int): (Result<string, TokenError>, Table)
  {
    var first := Examine(t, token, grace, now, jkt);
    var v := if first.LookForChild? then ExamineChild(t, first.familyId, first.child, now, jkt) else first;
    match v
    case Rotate(current) =>
      (match CommitRotation(t, current, now, newPlain, dbNow)
       case Success(t') => (Success(newPlain), t')
       case Failure(e) => (Failure(e), t))
    case KillFamily(f) => (Failure(ReuseDetected), RevokeWhere(t, ByFamily(f), now2))
    case Refuse(e) => (Failure(e), t)
  }

  // ---------------------------------------------------------------------------------------------
  // What single calls amount to
  // ---------------------------------------------------------------------------------------------

  /**
   A created token can be exchanged with its own key until it expires, and its successor carries the
   grant it was created for. A refused exchange changes nothing.
   */
  lemma CreatedTokenRotates(t: Table, plain: string, p: CreateParams, now: int, dbNow: int, grace: int, at: int,
                            at2: int,
                            jkt: Option<string>, newPlain: string, dbAt: int)
    requires Sha256(plain) !in t && Sha256(newPlain) !in t && newPlain != plain
    ensures var d, h := Sha256(plain), Sha256(newPlain);
            var t1 := t[d := NewRow(plain, p, now, dbNow)];
            var (r, t2) := RotateSerially(t1, plain, grace, at, at2, jkt, newPlain, dbAt);
            && r == (if p.dpopJkt.Some? && jkt != p.dpopJkt then Failure(BindingMismatch)
                     else if now + p.expiresInSeconds * 1000 <= at then Failure(InvalidToken)
                     else Success(newPlain))
            && (r.Failure? ==> t2 == t1)
            && (r.Success? ==>
                  && t2.Keys == t1.Keys + {h} && t2[d] == t1[d].(revokedAt := Some(at), rotationGrace := Some(h))
                  && t2[h] == Row(h, p.clientId, p.userId, p.scope,
                                  at + Max(now + p.expiresInSeconds * 1000 - dbNow, 60_000),
                                  None, None, p.dpopJkt, p.familyId, dbAt))
  {
    var t1 := t[Sha256(plain) := NewRow(plain, p, now, dbNow)];
    assert Examine(t1, plain, grace, at, jkt) == AdmitOrRefuse(NewRow(plain, p, now, dbNow), at, jkt);
  }

  /**
   Reuse is reported exactly for a stored, revoked token presented after its grace window; then its
   family loses its last unrevoked row and no other family changes. Any other refusal, such as that of
   a plainly revoked token inside the window, changes nothing.
   */
  lemma ReuseIsReportedExactly(t: Table, token: string, grace: int, now: int, now2: int, jkt: Option<string>,
                               newPlain: string,
                               dbNow: int)
    ensures var (r, t') := RotateSerially(t, token, grace, now, now2, jkt, newPlain, dbNow);
            && (r == Failure(ReuseDetected) <==>
                  && Sha256(token) in t && t[Sha256(token)].revokedAt.Some?
                  && now >= t[Sha256(token)].revokedAt.value + grace * 1000)
            && (r == Failure(ReuseDetected) ==>
                  && t'.Keys == t.Keys
                  && (forall d | d in t && t[d].familyId == t[Sha256(token)].familyId :: t'[d].revokedAt.Some?)
                  && (forall d | d in t && t[d].familyId != t[Sha256(token)].familyId :: t'[d] == t[d]))
            && (r.Failure? && !r.error.ReuseDetected? ==> t' == t)
  {
  }

  /**
   The row that a presented plaintext would retire: its own row while that is unrevoked; inside the
   grace window after its rotation, its unrevoked successor in the same family; else none.
   */
  ghost function Target(t: Table, token: string, grace: int, now: int): Option<Row> {
    var d := Sha256(token);
    if d !in t then None
    else if t[d].revokedAt.None? then Some(t[d])
    else if now < t[d].revokedAt.value + grace * 1000 && t[d].rotationGrace.Some? && t[d].rotationGrace.value in t
            && t[t[d].rotationGrace.value].familyId == t[d].familyId && t[t[d].rotationGrace.value].revokedAt.None?
    then Some(t[t[d].rotationGrace.value])
    else None
  }

  /**
   Exactly when a rotation succeeds: there is a row to retire, it has not expired, its key is presented
   if it is bound, and the new plaintext is not stored yet. Then that row is stamped and linked, and its
   successor carries its grant on.
   */
  lemma RotationSucceedsExactly(t: Table, token: string, grace: int, now: int, now2: int, jkt: Option<string>,
                                newPlain: string, dbNow: int)
    requires Keyed(t)
    ensures var (r, t') := RotateSerially(t, token, grace, now, now2, jkt, newPlain, dbNow);
            var target := Target(t, token, grace, now);
            && (r.Success? <==>
                  && target.Some? && now < target.value.expiresAt && Sha256(newPlain) !in t
                  && (target.value.dpopJkt.Some? ==> jkt == target.value.dpopJkt))
            && (r.Success? ==>
                  && r.value == newPlain
                  && var row, h := target.value, Sha256(newPlain);
                  && t'[row.token] == row.(revokedAt := Some(now), rotationGrace := Some(h))
                  && t' == t[row.token := t'[row.token]][h := t'[h]]
                  && t'[h] == Row(h, row.clientId, row.userId, row.scope,
                                  now + Max(row.expiresAt - row.createdAt, 60_000), None, None, row.dpopJkt,
                                  row.familyId, dbNow))
  {
  }

  /** A revocation stamps exactly the selected rows that were not revoked before; it is idempotent. */
  lemma RevokeWhereExactly(t: Table, sel: Selector, now: int, later: int)
    ensures var t' := RevokeWhere(t, sel, now);
            && t'.Keys == t.Keys
            && (forall d | d in t ::
                  var chosen := match sel
                                case ByToken(token) => t[d].token == token
                                case ByFamily(f) => t[d].familyId == f
                                case ByClientUser(c, u) => t[d].clientId == c && t[d].userId == u;
                  t'[d].revokedAt == if chosen && t[d].revokedAt.None? then Some(now) else t[d].revokedAt)
            && (forall d | d in t :: t'[d].(revokedAt := t[d].revokedAt) == t[d])
            && RevokeWhere(t', sel, later) == t'
  {
    var t' := RevokeWhere(t, sel, now);
    assert forall d | d in t' && sel.Selects(t'[d]) :: t'[d].revokedAt.Some?;
    assert RevokeWhere(t', sel, later) == t';
  }

  /** A client that lost the answer may retry with the old plaintext: the retry rotates the successor. */
  lemma RetryInsideGraceSucceeds(t: Table, token: string, grace: int, jkt: Option<string>,
                                 now: int, b: string, retryAt: int, c: string, dbNow: int, dbRetry: int)
    requires Keyed(t) && Sha256(token) in t && t[Sha256(token)].revokedAt.None?
    requires t[Sha256(token)].dpopJkt.Some? ==> jkt == t[Sha256(token)].dpopJkt
    requires now < t[Sha256(token)].expiresAt
    requires Sha256(b) !in t && Sha256(c) !in t && b != c
    requires retryAt < now + grace * 1000 && retryAt < now + TtlMs(t[Sha256(token)])
    ensures var (r1, t1) := RotateSerially(t, token, grace, now, now, jkt, b, dbNow);
            var (r2, t2) := RotateSerially(t1, token, grace, retryAt, retryAt, jkt, c, dbRetry);
            r1 == Success(b) && r2 == Success(c) && Sha256(b) in t2 && t2[Sha256(b)].revokedAt == Some(retryAt)
  {
    var (r1, t1) := RotateSerially(t, token, grace, now, now, jkt, b, dbNow);
    var cur := t[Sha256(token)];
    assert t1[Sha256(token)] == cur.(revokedAt := Some(now), rotationGrace := Some(Sha256(b)));
    assert t1[Sha256(b)] == Successor(cur, cur, Sha256(b), now, dbNow);
    assert Examine(t1, token, grace, retryAt, jkt) == LookForChild(cur.familyId, Sha256(b));
  }

  /** The service, run serially. Random plaintexts and clock readings are arguments. */
  class RefreshTokenService {
    var rows: Table

    constructor ()
      ensures rows == map[]
    {
      rows := map[];
    }

    method CreateRefreshToken(p: CreateParams, plain: string, now: int, dbNow: int)
      returns (r: Result<(string, string), TokenError>)
      modifies this
      ensures Sha256(plain) in old(rows) ==> r == Failure(UniqueViolation) && rows == old(rows)
      ensures Sha256(plain) !in old(rows) ==>
                r == Success((plain, p.familyId)) && rows == old(rows)[Sha256(plain) := NewRow(plain, p, now, dbNow)]
    {
      var row := NewRow(plain, p, now, dbNow);
      if row.token in rows {
        return Failure(UniqueViolation);
      }
      rows := rows[row.token := row];
      r := Success((plain, p.familyId));
    }

    method RotateActiveRefreshTokenRow(current: Row, now: int, jkt: Option<string>, newPlain: string, dbNow: int)
      returns (r: Result<string, TokenError>)
      modifies this
      ensures match Admit(current, now, jkt)
              case Some(e) => r == Failure(e) && rows == old(rows)
              case None =>
                match CommitRotation(old(rows), current, now, newPlain, dbNow)
                case Success(t) => r == Success(newPlain) && rows == t
                case Failure(e) => r == Failure(e) && rows == old(rows)
    {
      if current.dpopJkt.Some? {
        if jkt != current.dpopJkt {
          return Failure(BindingMismatch);
        }
      }
      if current.expiresAt <= now {
        return Failure(InvalidToken);
      }
      var newHash := Sha256(newPlain);
      var ttlMs := Max(current.expiresAt - current.createdAt, 60_000);
      var newExpiresAt := now + ttlMs;

      var before := rows;
      if current.token !in rows {
        return Failure(InvalidToken);
      }
      var cur := rows[current.token];
      if cur.revokedAt.Some? || cur.expiresAt <= now {
        return Failure(InvalidToken);
      }
      rows := rows[cur.token := cur.(revokedAt := Some(now), rotationGrace := Some(newHash))];
      if newHash in rows {
        rows := before;
        return Failure(UniqueViolation);
      }
      rows := rows[newHash := Row(newHash, cur.clientId, cur.userId, cur.scope, newExpiresAt,
                                  None, None, cur.dpopJkt, cur.familyId, dbNow)];
      r := Success(newPlain);
    }

    method RevokeAllNonRevokedInFamily(familyId: string, now: int)
      modifies this
      ensures rows == RevokeWhere(old(rows), ByFamily(familyId), now)
    {
      rows := map d | d in rows ::
        if rows[d].familyId == familyId && rows[d].revokedAt.None? then rows[d].(revokedAt := Some(now)) else rows[d];
    }

    method RotateRefreshToken(token: string, grace: int, now: int, now2: int, jkt: Option<string>,
                              newPlain: string, dbNow: int)
      returns (r: Result<string, TokenError>)
      modifies this
      ensures (r, rows) == RotateSerially(old(rows), token, grace, now, now2, jkt, newPlain, dbNow)
    {
      var incomingHash := Sha256(token);
      if incomingHash !in rows {
        return Failure(InvalidToken);
      }
      var row := rows[incomingHash];
      if row.revokedAt.Some? {
        var graceEndMs := row.revokedAt.value + grace * 1000;
        var withinGrace := now < graceEndMs;
        if withinGrace && row.rotationGrace.Some? {
          var child := row.rotationGrace.value;
          if child in rows && rows[child].familyId == row.familyId && rows[child].revokedAt.None? {
            r := RotateActiveRefreshTokenRow(rows[child], now, jkt, newPlain, dbNow);
            return;
          }
          return Failure(InvalidToken);
        }
        if withinGrace && row.rotationGrace.None? {
          return Failure(InvalidToken);
        }
        RevokeAllNonRevokedInFamily(row.familyId, now2);
        return Failure(ReuseDetected);
      }
      if row.dpopJkt.Some? {
        if jkt != row.dpopJkt {
          return Failure(BindingMismatch);
        }
      }
      if row.expiresAt <= now {
        return Failure(InvalidToken);
      }
      r := RotateActiveRefreshTokenRow(row, now, jkt, newPlain, dbNow);
    }

    method RevokeRefreshToken(token: string, now: int) returns (r: Result<(), TokenError>)
      requires Keyed(rows)
      modifies this
      ensures rows == RevokeWhere(old(rows), ByToken(Sha256(token)), now)
      ensures r.Success? <==> Sha256(token) in old(rows) && old(rows)[Sha256(token)].revokedAt.None?
      ensures r.Failure? ==> r.error == InvalidToken
    {
      var d := Sha256(token);
      if d !in rows || rows[d].revokedAt.Some? {
        return Failure(InvalidToken);
      }
      rows := rows[d := rows[d].(revokedAt := Some(now))];
      r := Success(());
    }

    method RevokeAllForClient(clientId: string, userId: string, now: int)
      modifies this
      ensures rows == RevokeWhere(old(rows), ByClientUser(clientId, userId), now)
    {
      rows := map d | d in rows ::
        if rows[d].clientId == clientId && rows[d].userId == userId && rows[d].revokedAt.None?
        then rows[d].(revokedAt := Some(now)) else rows[d];
    }
  }
}
