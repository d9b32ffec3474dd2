/**
 Refresh-token families under concurrency.

 Any number of rotation requests run at once. Each one starts, reads the presented row, perhaps
 reads that row's successor, and then either commits its transaction or kills the family. Between
 any two of those steps every other request may step, new families may be created, and rows may
 be revoked; so each step after a read works from a snapshot that may be stale. Clock readings are
 arbitrary integers: no ordering between requests or between servers is assumed.
 */
module RefreshFamilies {
  import opened Common
  import opened RefreshTokens

  datatype Via = Active | Grace

  /** Where a request stands; the last two stages are final. */
  datatype Stage =
    | Started
    | Looking(familyId: string, child: Digest)
    | Ready(current: Row, via: Via)
    | Killing(familyId: string)
    | Rotated(issued: string, rotated: Digest, via: Via)
    | Failed(error: TokenError)

  datatype Request = Request(token: string, grace: int, jkt: Option<string>, now: int, stage: Stage)

  datatype System = System(rows: Table, requests: map<nat, Request>)

  datatype Event =
    | Create(plain: string, params: CreateParams, now: int, dbNow: int)
    | Revoke(sel: Selector, now: int)
    | Start(rid: nat, token: string, grace: int, jkt: Option<string>, now: int)
    | ReadRow(rid: nat)
    | ReadChild(rid: nat)
    | Commit(rid: nat, newPlain: string, dbNow: int)
    | Kill(rid: nat, now: int)

  const INIT := System(map[], map[])

  ghost predicate FamilyInUse(t: Table, f: string) {
    exists d :: d in t && t[d].familyId == f
  }

  function AfterVerdict(v: Verdict, via: Via): Stage {
    match v
    case Rotate(row) => Ready(row, via)
    case LookForChild(f, d) => Looking(f, d)
    case KillFamily(f) => Killing(f)
    case Refuse(e) => Failed(e)
  }

  function SetStage(s: System, rid: nat, stage: Stage): System
    requires rid in s.requests
  {
    s.(requests := s.requests[rid := s.requests[rid].(stage := stage)])
  }

  /**
   One step. An event that is not enabled changes nothing. A family is created only under a fresh
   UUID, as the only caller of createRefreshToken (issueTokenBundle) does.
   */
  ghost function Step(s: System, e: Event): System {
    match e
    case Create(plain, p, now, dbNow) =>
      if FamilyInUse(s.rows, p.familyId) then s
      else
        (match Insert(s.rows, NewRow(plain, p, now, dbNow))
         case Success(t) => s.(rows := t)
         case Failure(_) => s)
    case Revoke(sel, now) => s.(rows := RevokeWhere(s.rows, sel, now))
    case Start(rid, token, grace, jkt, now) =>
      if rid in s.requests then s
      else s.(requests := s.requests[rid := Request(token, grace, jkt, now, Started)])
    case ReadRow(rid) =>
      if rid !in s.requests || !s.requests[rid].stage.Started? then s
      else
        var q := s.requests[rid];
        SetStage(s, rid, AfterVerdict(Examine(s.rows, q.token, q.grace, q.now, q.jkt), Active))
    case ReadChild(rid) =>
      if rid !in s.requests || !s.requests[rid].stage.Looking? then s
      else
        var q := s.requests[rid];
        SetStage(s, rid, AfterVerdict(ExamineChild(s.rows, q.stage.familyId, q.stage.child, q.now, q.jkt), Grace))
    case Commit(rid, newPlain, dbNow) =>
      if rid !in s.requests || !s.requests[rid].stage.Ready? then s
      else
        var q := s.requests[rid];
        (match CommitRotation(s.rows, q.stage.current, q.now, newPlain, dbNow)
         case Success(t) => SetStage(s.(rows := t), rid, Rotated(newPlain, q.stage.current.token, q.stage.via))
         case Failure(err) => SetStage(s, rid, Failed(err)))
    case Kill(rid, now) =>
      if rid !in s.requests || !s.requests[rid].stage.Killing? then s
      else
        SetStage(s.(rows := RevokeWhere(s.rows, ByFamily(s.requests[rid].stage.familyId), now)), rid,
                 Failed(ReuseDetected))
  }

  ghost function Run(s: System, es: seq<Event>): System
    decreases |es|
  {
    if es == [] then s else Run(Step(s, es[0]), es[1..])
  }

  // ---------------------------------------------------------------------------------------------
  // Families are chains
  // ---------------------------------------------------------------------------------------------

  ghost predicate InFamily(t: Table, f: string, d: Digest) {
    d in t && t[d].familyId == f
  }

  /** The listing c holds each row of the family once. */
  ghost predicate Lists(t: Table, f: string, c: seq<Digest>) {
    && c != []
    && (forall i | 0 <= i < |c| :: InFamily(t, f, c[i]))
    && (forall d | InFamily(t, f, d) :: d in c)
    && (forall i, j | 0 <= i < j < |c| :: c[i] != c[j])
  }

  /** Every row but the last is revoked and names its successor; the last names none. */
  ghost predicate Linked(t: Table, c: seq<Digest>)
    requires c != [] && forall i | 0 <= i < |c| :: c[i] in t
  {
    && (forall i | 0 <= i < |c| - 1 :: t[c[i]].revokedAt.Some? && t[c[i]].rotationGrace == Some(c[i + 1]))
    && t[c[|c| - 1]].rotationGrace.None?
  }

  ghost predicate SameGrant(a: Row, b: Row) {
    a.clientId == b.clientId && a.userId == b.userId && a.scope == b.scope && a.dpopJkt == b.dpopJkt
  }

  /** A successor carries the same grant and lives max(predecessor's lifetime, one minute) from the rotation. */
  ghost predicate Renews(a: Row, b: Row) {
    && SameGrant(a, b)
    && a.revokedAt.Some?
    && a.revokedAt.value < a.expiresAt
    && b.expiresAt == a.revokedAt.value + TtlMs(a)
  }

  ghost predicate IsChain(t: Table, f: string, c: seq<Digest>) {
    && Lists(t, f, c)
    && Linked(t, c)
    && (forall i | 0 <= i < |c| - 1 :: Renews(t[c[i]], t[c[i + 1]]))
  }

  ghost predicate Chained(t: Table) {
    forall f | FamilyInUse(t, f) :: exists c :: IsChain(t, f, c)
  }

  // ---------------------------------------------------------------------------------------------
  // Rows only age, and requests stay tied to the table
  // ---------------------------------------------------------------------------------------------

  /** What may happen to a stored row: revokedAt and rotationGrace are written once, by one update. */
  ghost predicate Ages(a: Row, b: Row) {
    || b == a
    || (a.revokedAt.None? && a.rotationGrace.None? && b.revokedAt.Some?
        && b == a.(revokedAt := b.revokedAt, rotationGrace := b.rotationGrace))
  }

  ghost predicate TableAges(t: Table, t': Table) {
    forall d | d in t :: d in t' && Ages(t[d], t'[d])
  }

  ghost predicate Dead(t: Table, f: string) {
    FamilyInUse(t, f) && forall d | InFamily(t, f, d) :: t[d].revokedAt.Some?
  }

  /** The presented row was retired by a rotation to d, and the request began inside its grace window. */
  ghost predicate InGrace(t: Table, q: Request, d: Digest) {
    var p := Sha256(q.token);
    && p in t
    && t[p].revokedAt.Some?
    && t[p].rotationGrace == Some(d)
    && q.now < t[p].revokedAt.value + q.grace * 1000
  }

  ghost predicate ReachedVia(t: Table, q: Request, d: Digest, via: Via) {
    match via
    case Active => d == Sha256(q.token)
    case Grace => InGrace(t, q, d)
  }

  ghost predicate StageInv(t: Table, q: Request) {
    match q.stage
    case Started => true
    case Looking(f, d) => InGrace(t, q, d) && t[Sha256(q.token)].familyId == f
    case Ready(cur, via) =>
      && cur.token in t && cur.revokedAt.None? && cur.rotationGrace.None? && Ages(cur, t[cur.token])
      && ReachedVia(t, q, cur.token, via)
      && (cur.dpopJkt.Some? ==> q.jkt == cur.dpopJkt)
    case Killing(f) => InFamily(t, f, Sha256(q.token))
    case Rotated(issued, d, via) =>
      && d in t
      && t[d].revokedAt == Some(q.now)
      && t[d].rotationGrace == Some(Sha256(issued))
      && Sha256(issued) in t
      && ReachedVia(t, q, d, via)
      && (t[d].dpopJkt.Some? ==> q.jkt == t[d].dpopJkt)
    case Failed(e) => e.ReuseDetected? ==> Sha256(q.token) in t && Dead(t, t[Sha256(q.token)].familyId)
  }

  /** No row is retired by two requests. */
  ghost predicate RotatedOnce(s: System) {
    forall a, b | a in s.requests && b in s.requests
                  && s.requests[a].stage.Rotated? && s.requests[b].stage.Rotated?
                  && s.requests[a].stage.rotated == s.requests[b].stage.rotated :: a == b
  }

  ghost predicate WriteOnce(t: Table) {
    forall d | d in t && t[d].revokedAt.None? :: t[d].rotationGrace.None?
  }

  ghost predicate Inv(s: System) {
    && Keyed(s.rows)
    && WriteOnce(s.rows)
    && Chained(s.rows)
    && (forall rid | rid in s.requests :: StageInv(s.rows, s.requests[rid]))
    && RotatedOnce(s)
  }

  // ---------------------------------------------------------------------------------------------
  // Each table step keeps the families chained
  // ---------------------------------------------------------------------------------------------

  /** What every table step guarantees to the requests that do not take it. */
  ghost predicate Progress(t: Table, t': Table) {
    && Keyed(t') && WriteOnce(t') && Chained(t')
    && TableAges(t, t')
    && (forall f | Dead(t, f) :: Dead(t', f))
  }

  ghost predicate GoodTable(t: Table) {
    Keyed(t) && WriteOnce(t) && Chained(t)
  }

  lemma ChainSurvives(t: Table, t': Table, f: string, c: seq<Digest>)
    requires IsChain(t, f, c)
    requires forall d :: InFamily(t, f, d) <==> InFamily(t', f, d)
    requires forall d | InFamily(t, f, d) && d in t' ::
      t'[d] == t[d] || (t[d].revokedAt.None? && t'[d] == t[d].(revokedAt := t'[d].revokedAt))
    ensures IsChain(t', f, c)
  {
    assert Lists(t', f, c);
    forall i | 0 <= i < |c| - 1
      ensures t'[c[i]] == t[c[i]] && Renews(t'[c[i]], t'[c[i + 1]])
    {
      assert InFamily(t, f, c[i]) && InFamily(t, f, c[i + 1]);
      assert Renews(t[c[i]], t[c[i + 1]]);
    }
    assert InFamily(t, f, c[|c| - 1]);
  }

  lemma RevokeProgresses(t: Table, sel: Selector, now: int)
    requires GoodTable(t)
    ensures Progress(t, RevokeWhere(t, sel, now))
  {
    var t' := RevokeWhere(t, sel, now);
    assert forall d :: d in t' <==> d in t;
    assert forall f, d :: InFamily(t, f, d) <==> InFamily(t', f, d);
    forall f | FamilyInUse(t', f)
      ensures exists c :: IsChain(t', f, c)
    {
      var d :| d in t' && t'[d].familyId == f;
      assert InFamily(t, f, d);
      assert FamilyInUse(t, f);
      var c :| IsChain(t, f, c);
      ChainSurvives(t, t', f, c);
    }
    forall f | Dead(t, f)
      ensures Dead(t', f)
    {
      var d :| d in t && t[d].familyId == f;
      assert d in t' && t'[d].familyId == f;
    }
  }

  lemma CreateProgresses(t: Table, row: Row)
    requires GoodTable(t)
    requires !FamilyInUse(t, row.familyId) && row.token !in t
    requires row.revokedAt.None? && row.rotationGrace.None?
    ensures Progress(t, t[row.token := row])
  {
    var t' := t[row.token := row];
    assert forall f, d | f != row.familyId :: InFamily(t, f, d) <==> InFamily(t', f, d);
    forall f | FamilyInUse(t', f)
      ensures exists c :: IsChain(t', f, c)
    {
      if f == row.familyId {
        assert forall d :: InFamily(t', f, d) ==> d == row.token;
        assert IsChain(t', f, [row.token]);
      } else {
        var d :| d in t' && t'[d].familyId == f;
        assert FamilyInUse(t, f);
        var c :| IsChain(t, f, c);
        ChainSurvives(t, t', f, c);
      }
    }
    forall f | Dead(t, f)
      ensures Dead(t', f)
    {
      var d :| d in t && t[d].familyId == f;
      assert d in t' && t'[d].familyId == f;
    }
  }

  /** In a chain the one row without a successor is the last, so an unrevoked row is the last. */
  lemma UnrevokedIsTail(t: Table, f: string, c: seq<Digest>, d: Digest)
    requires IsChain(t, f, c) && InFamily(t, f, d)
    requires t[d].revokedAt.None? || t[d].rotationGrace.None?
    ensures d == c[|c| - 1]
  {
    forall i | 0 <= i < |c| - 1
      ensures c[i] != d
    {
      assert Linked(t, c);
      assert t[c[i]].revokedAt.Some?;
      assert t[c[i]].rotationGrace == Some(c[i + 1]);
    }
    assert d in c;
  }

  lemma CommitExtendsChain(t: Table, t': Table, current: Row, now: int, newPlain: string, dbNow: int, c: seq<Digest>)
    requires GoodTable(t)
    requires CommitRotation(t, current, now, newPlain, dbNow) == Success(t')
    requires Ages(current, t[current.token])
    requires IsChain(t, current.familyId, c)
    ensures IsChain(t', current.familyId, c + [Sha256(newPlain)])
  {
    var f, h, cur := current.familyId, Sha256(newPlain), t[current.token];
    assert InFamily(t, f, cur.token);
    UnrevokedIsTail(t, f, c, cur.token);
    var c' := c + [h];
    assert forall d :: InFamily(t', f, d) <==> InFamily(t, f, d) || d == h;
    assert Lists(t', f, c') by {
      assert forall i | 0 <= i < |c| :: c'[i] == c[i] && InFamily(t, f, c[i]);
      assert forall d | InFamily(t, f, d) :: d in c;
    }
    forall i | 0 <= i < |c'| - 1
      ensures t'[c'[i]].revokedAt.Some? && t'[c'[i]].rotationGrace == Some(c'[i + 1])
      ensures Renews(t'[c'[i]], t'[c'[i + 1]])
    {
      assert InFamily(t, f, c[i]);
      if i < |c| - 1 {
        assert c[i] != c[|c| - 1];
        assert InFamily(t, f, c[i + 1]);
        assert Renews(t[c[i]], t[c[i + 1]]);
        assert t'[c[i]] == t[c[i]];
      }
    }
  }

  lemma CommitProgresses(t: Table, t': Table, current: Row, now: int, newPlain: string, dbNow: int)
    requires GoodTable(t)
    requires CommitRotation(t, current, now, newPlain, dbNow) == Success(t')
    requires Ages(current, t[current.token])
    ensures Progress(t, t')
  {
    var f0 := current.familyId;
    assert FamilyInUse(t, f0);
    assert forall f, d | f != f0 :: InFamily(t, f, d) <==> InFamily(t', f, d);
    forall f | FamilyInUse(t', f)
      ensures exists c :: IsChain(t', f, c)
    {
      if f == f0 {
        var c :| IsChain(t, f0, c);
        CommitExtendsChain(t, t', current, now, newPlain, dbNow, c);
      } else {
        var d :| d in t' && t'[d].familyId == f;
        assert FamilyInUse(t, f);
        var c :| IsChain(t, f, c);
        ChainSurvives(t, t', f, c);
      }
    }
    CommitKeepsDead(t, t', current, now, newPlain, dbNow);
  }

  lemma CommitKeepsDead(t: Table, t': Table, current: Row, now: int, newPlain: string, dbNow: int)
    requires CommitRotation(t, current, now, newPlain, dbNow) == Success(t')
    requires Keyed(t) && Ages(current, t[current.token])
    ensures forall f | Dead(t, f) :: Dead(t', f)
  {
    forall f | Dead(t, f)
      ensures Dead(t', f)
    {
      assert InFamily(t, current.familyId, current.token);
      var d :| d in t && t[d].familyId == f;
      assert d in t' && t'[d].familyId == f;
    }
  }

  // ---------------------------------------------------------------------------------------------
  // Every step keeps the invariant
  // ---------------------------------------------------------------------------------------------

  lemma StageSurvives(t: Table, t': Table, q: Request)
    requires StageInv(t, q) && Progress(t, t')
    ensures StageInv(t', q)
  {
  }

  /** Once the table has progressed and the moving request is accounted for, the invariant holds. */
  lemma Settle(s: System, s': System, rid: nat)
    requires Inv(s) && Progress(s.rows, s'.rows)
    requires s'.requests.Keys == s.requests.Keys + (if rid in s'.requests then {rid} else {})
    requires forall r | r in s.requests && r != rid :: s'.requests[r] == s.requests[r]
    requires rid in s'.requests ==> StageInv(s'.rows, s'.requests[rid])
    requires rid in s'.requests && s'.requests[rid].stage.Rotated? ==>
               forall r | r in s.requests && s.requests[r].stage.Rotated? ::
                 r != rid ==> s.requests[r].stage.rotated != s'.requests[rid].stage.rotated
    ensures Inv(s')
  {
    forall r | r in s'.requests
      ensures StageInv(s'.rows, s'.requests[r])
    {
      if r != rid {
        StageSurvives(s.rows, s'.rows, s.requests[r]);
      }
    }
  }

  lemma TableStepKeepsInv(s: System, t': Table)
    requires Inv(s) && Progress(s.rows, t')
    ensures Inv(s.(rows := t'))
  {
    forall r | r in s.requests
      ensures StageInv(t', s.requests[r])
    {
      StageSurvives(s.rows, t', s.requests[r]);
    }
  }

  lemma NoChangeProgresses(t: Table)
    requires GoodTable(t)
    ensures Progress(t, t)
  {
  }

  lemma ReadKeepsInv(s: System, rid: nat)
    requires Inv(s)
    ensures Inv(Step(s, ReadRow(rid))) && Step(s, ReadRow(rid)).rows == s.rows
  {
    NoChangeProgresses(s.rows);
    if rid in s.requests {
      assert StageInv(s.rows, s.requests[rid]);
      Settle(s, Step(s, ReadRow(rid)), rid);
    }
  }

  lemma ReadChildKeepsInv(s: System, rid: nat)
    requires Inv(s)
    ensures Inv(Step(s, ReadChild(rid))) && Step(s, ReadChild(rid)).rows == s.rows
  {
    NoChangeProgresses(s.rows);
    if rid in s.requests {
      assert StageInv(s.rows, s.requests[rid]);
      Settle(s, Step(s, ReadChild(rid)), rid);
    }
  }

  lemma CommitKeepsInv(s: System, rid: nat, newPlain: string, dbNow: int)
    requires Inv(s)
    ensures Inv(Step(s, Commit(rid, newPlain, dbNow)))
    ensures Progress(s.rows, Step(s, Commit(rid, newPlain, dbNow)).rows)
  {
    var s' := Step(s, Commit(rid, newPlain, dbNow));
    NoChangeProgresses(s.rows);
    if rid in s.requests && s.requests[rid].stage.Ready? {
      var q := s.requests[rid];
      assert StageInv(s.rows, q);
      var cur := q.stage.current;
      if CommitRotation(s.rows, cur, q.now, newPlain, dbNow).Success? {
        CommitProgresses(s.rows, s'.rows, cur, q.now, newPlain, dbNow);
        forall r | r in s.requests && s.requests[r].stage.Rotated?
          ensures s.requests[r].stage.rotated != cur.token
        {
          assert StageInv(s.rows, s.requests[r]);
        }
        StageSurvives(s.rows, s'.rows, q);
      }
      Settle(s, s', rid);
    }
  }

  lemma KillKeepsInv(s: System, rid: nat, now: int)
    requires Inv(s)
    ensures Inv(Step(s, Kill(rid, now)))
    ensures Progress(s.rows, Step(s, Kill(rid, now)).rows)
  {
    var s' := Step(s, Kill(rid, now));
    NoChangeProgresses(s.rows);
    if rid in s.requests && s.requests[rid].stage.Killing? {
      var q := s.requests[rid];
      assert StageInv(s.rows, q);
      RevokeProgresses(s.rows, ByFamily(q.stage.familyId), now);
      assert Sha256(q.token) in s'.rows && s'.rows[Sha256(q.token)].familyId == q.stage.familyId;
      Settle(s, s', rid);
    }
  }

  lemma {:induction false} StepKeepsInv(s: System, e: Event)
    requires Inv(s)
    ensures Inv(Step(s, e))
    ensures Progress(s.rows, Step(s, e).rows)
  {
    NoChangeProgresses(s.rows);
    match e
    case Create(plain, p, now, dbNow) =>
      var s' := Step(s, e);
      if s'.rows != s.rows {
        CreateProgresses(s.rows, NewRow(plain, p, now, dbNow));
      }
      TableStepKeepsInv(s, s'.rows);
    case Revoke(sel, now) =>
      RevokeProgresses(s.rows, sel, now);
      TableStepKeepsInv(s, Step(s, e).rows);
    case Start(rid, token, grace, jkt, now) =>
      if rid !in s.requests {
        Settle(s, Step(s, e), rid);
      }
    case ReadRow(rid) => ReadKeepsInv(s, rid);
    case ReadChild(rid) => ReadChildKeepsInv(s, rid);
    case Commit(rid, newPlain, dbNow) => CommitKeepsInv(s, rid, newPlain, dbNow);
    case Kill(rid, now) => KillKeepsInv(s, rid, now);
  }

  lemma {:induction false} RunKeepsInv(s: System, es: seq<Event>)
    requires Inv(s)
    ensures Inv(Run(s, es))
    decreases |es|
  {
    if es != [] {
      StepKeepsInv(s, es[0]);
      RunKeepsInv(Step(s, es[0]), es[1..]);
    }
  }

  ghost predicate Reachable(s: System) {
    exists es :: s == Run(INIT, es)
  }

  lemma ReachableInv(s: System)
    requires Reachable(s)
    ensures Inv(s)
  {
    var es :| s == Run(INIT, es);
    RunKeepsInv(INIT, es);
  }

  // ---------------------------------------------------------------------------------------------
  // What every reachable state guarantees
  // ---------------------------------------------------------------------------------------------

  /** Every family is one chain, its tail is the one row without a successor, and only the tail can be unrevoked. */
  lemma FamiliesAreChains(s: System, f: string) returns (c: seq<Digest>)
    requires Reachable(s) && FamilyInUse(s.rows, f)
    ensures IsChain(s.rows, f, c)
    ensures forall d | InFamily(s.rows, f, d) :: s.rows[d].rotationGrace.None? <==> d == c[|c| - 1]
    ensures forall d | InFamily(s.rows, f, d) && s.rows[d].revokedAt.None? :: d == c[|c| - 1]
  {
    ReachableInv(s);
    c :| IsChain(s.rows, f, c);
    forall d | InFamily(s.rows, f, d) && (s.rows[d].revokedAt.None? || s.rows[d].rotationGrace.None?)
      ensures d == c[|c| - 1]
    {
      UnrevokedIsTail(s.rows, f, c, d);
    }
    assert InFamily(s.rows, f, c[|c| - 1]);
  }

  ghost function Successes(s: System, token: string): set<nat> {
    set rid | rid in s.requests && s.requests[rid].token == token && s.requests[rid].stage.Rotated?
  }

  ghost function SuccessesVia(s: System, token: string, via: Via): set<nat> {
    set rid | rid in Successes(s, token) && s.requests[rid].stage.via == via
  }

  /** Two successes of one plaintext by the same route would retire the same row. */
  lemma SameRouteSameRequest(s: System, token: string, via: Via, a: nat, b: nat)
    requires Inv(s)
    requires a in SuccessesVia(s, token, via) && b in SuccessesVia(s, token, via)
    ensures a == b
  {
    assert StageInv(s.rows, s.requests[a]) && StageInv(s.rows, s.requests[b]);
  }

  lemma AtMostOne<T>(xs: set<T>)
    requires forall a, b | a in xs && b in xs :: a == b
    ensures |xs| <= 1
  {
    if xs != {} {
      var x :| x in xs;
      assert xs == {x};
    }
  }

  /** No plaintext rotates more than twice: once while its row is active, once in its grace window. */
  lemma AtMostTwoRotations(s: System, token: string)
    requires Reachable(s)
    ensures |SuccessesVia(s, token, Active)| <= 1
    ensures |SuccessesVia(s, token, Grace)| <= 1
    ensures |Successes(s, token)| <= 2
    ensures forall rid | rid in SuccessesVia(s, token, Grace) ::
              && Sha256(token) in s.rows
              && s.rows[Sha256(token)].revokedAt.Some?
              && s.requests[rid].now < s.rows[Sha256(token)].revokedAt.value + s.requests[rid].grace * 1000
              && s.rows[Sha256(token)].rotationGrace == Some(s.requests[rid].stage.rotated)
  {
    ReachableInv(s);
    var a, g := SuccessesVia(s, token, Active), SuccessesVia(s, token, Grace);
    forall via, x, y | x in SuccessesVia(s, token, via) && y in SuccessesVia(s, token, via)
      ensures x == y
    {
      SameRouteSameRequest(s, token, via, x, y);
    }
    AtMostOne(a);
    AtMostOne(g);
    assert Successes(s, token) == a + g;
    forall rid | rid in g
      ensures InGrace(s.rows, s.requests[rid], s.requests[rid].stage.rotated)
    {
      assert StageInv(s.rows, s.requests[rid]);
    }
  }

  /** A bound family is rotated only by holders of its key. */
  lemma BoundRotationsPresentTheKey(s: System, rid: nat)
    requires Reachable(s) && rid in s.requests && s.requests[rid].stage.Rotated?
    ensures s.requests[rid].stage.rotated in s.rows
    ensures s.rows[s.requests[rid].stage.rotated].dpopJkt.Some? ==>
              s.requests[rid].jkt == s.rows[s.requests[rid].stage.rotated].dpopJkt
    ensures Sha256(s.requests[rid].token) in s.rows
    ensures s.rows[Sha256(s.requests[rid].token)].familyId == s.rows[s.requests[rid].stage.rotated].familyId
  {
    ReachableInv(s);
    var q := s.requests[rid];
    assert StageInv(s.rows, q);
    if q.stage.via.Grace? {
      var p := Sha256(q.token);
      GraceStaysInFamily(s.rows, p);
    }
  }

  lemma GraceStaysInFamily(t: Table, p: Digest)
    requires Chained(t) && p in t && t[p].rotationGrace.Some?
    ensures t[p].rotationGrace.value in t && t[t[p].rotationGrace.value].familyId == t[p].familyId
  {
    var f := t[p].familyId;
    assert FamilyInUse(t, f);
    var c :| IsChain(t, f, c);
    assert InFamily(t, f, p);
    var i :| 0 <= i < |c| && c[i] == p;
    assert t[c[|c| - 1]].rotationGrace.None?;
    assert t[c[i]].rotationGrace == Some(c[i + 1]);
    assert InFamily(t, f, c[i + 1]);
  }

  // ---------------------------------------------------------------------------------------------
  // A dead family stays dead
  // ---------------------------------------------------------------------------------------------

  ghost predicate RotatesIn(s: System, f: string, rid: nat) {
    && rid in s.requests && s.requests[rid].stage.Rotated?
    && InFamily(s.rows, f, s.requests[rid].stage.rotated)
  }

  lemma DeadStep(s: System, e: Event, f: string)
    requires Inv(s) && Dead(s.rows, f)
    ensures Dead(Step(s, e).rows, f)
    ensures forall rid | RotatesIn(Step(s, e), f, rid) :: RotatesIn(s, f, rid)
  {
    StepKeepsInv(s, e);
    forall rid | RotatesIn(Step(s, e), f, rid)
      ensures RotatesIn(s, f, rid)
    {
      RotationWasAlive(s, e, rid);
      var d := Step(s, e).requests[rid].stage.rotated;
      assert d in s.rows && InFamily(s.rows, f, d) ==> s.rows[d].revokedAt.Some?;
    }
  }

  /** A rotation that a step completes retires a row that was unrevoked before; earlier rotations are untouched. */
  lemma RotationWasAlive(s: System, e: Event, rid: nat)
    requires Inv(s) && rid in Step(s, e).requests && Step(s, e).requests[rid].stage.Rotated?
    ensures var d := Step(s, e).requests[rid].stage.rotated;
            d in s.rows && (s.rows[d].revokedAt.None?
                            || (rid in s.requests && s.requests[rid] == Step(s, e).requests[rid]))
    ensures var d := Step(s, e).requests[rid].stage.rotated;
            d in Step(s, e).rows ==> Step(s, e).rows[d].familyId == s.rows[d].familyId
  {
    if rid in s.requests {
      assert StageInv(s.rows, s.requests[rid]);
    }
  }

  /**
   Once every row of a family is revoked, no continuation revives it and no further rotation
   succeeds in it, whatever snapshots were read before.
   */
  lemma {:induction false} DeadForever(s: System, es: seq<Event>, f: string)
    requires Inv(s) && Dead(s.rows, f)
    ensures Dead(Run(s, es).rows, f)
    ensures forall rid | RotatesIn(Run(s, es), f, rid) :: RotatesIn(s, f, rid)
    decreases |es|
  {
    if es != [] {
      StepKeepsInv(s, es[0]);
      DeadStep(s, es[0], f);
      DeadForever(Step(s, es[0]), es[1..], f);
    }
  }

  /** A retired token presented outside its grace window sends its request to kill the family, and the kill is total. */
  lemma ReuseKillsFamily(s: System, rid: nat, now: int)
    requires Reachable(s) && rid in s.requests && s.requests[rid].stage.Started?
    requires Sha256(s.requests[rid].token) in s.rows
    requires s.rows[Sha256(s.requests[rid].token)].revokedAt.Some?
    requires s.requests[rid].now >= s.rows[Sha256(s.requests[rid].token)].revokedAt.value + s.requests[rid].grace * 1000
    ensures var f := s.rows[Sha256(s.requests[rid].token)].familyId;
            var s' := Step(Step(s, ReadRow(rid)), Kill(rid, now));
            s'.requests[rid].stage == Failed(ReuseDetected) && Dead(s'.rows, f)
  {
    ReachableInv(s);
    ReadKeepsInv(s, rid);
    KillKeepsInv(Step(s, ReadRow(rid)), rid, now);
    assert StageInv(Step(Step(s, ReadRow(rid)), Kill(rid, now)).rows,
                    Step(Step(s, ReadRow(rid)), Kill(rid, now)).requests[rid]);
  }

  /** Whenever reuse has been reported for a token, its family is dead. */
  lemma ReportedReuseMeansDead(s: System, rid: nat)
    requires Reachable(s) && rid in s.requests && s.requests[rid].stage == Failed(ReuseDetected)
    ensures Sha256(s.requests[rid].token) in s.rows
    ensures Dead(s.rows, s.rows[Sha256(s.requests[rid].token)].familyId)
  {
    ReachableInv(s);
    assert StageInv(s.rows, s.requests[rid]);
  }

  /** revokeAllForClient kills every family of that client and user. */
  lemma ClientRevocationKills(s: System, clientId: string, userId: string, now: int, d: Digest)
    requires Reachable(s) && d in s.rows && s.rows[d].clientId == clientId && s.rows[d].userId == userId
    ensures Dead(Step(s, Revoke(ByClientUser(clientId, userId), now)).rows, s.rows[d].familyId)
  {
    ReachableInv(s);
    var f := s.rows[d].familyId;
    var s' := Step(s, Revoke(ByClientUser(clientId, userId), now));
    assert d in s'.rows && s'.rows[d].familyId == f;
    forall e | InFamily(s'.rows, f, e)
      ensures s'.rows[e].revokedAt.Some?
    {
      assert InFamily(s.rows, f, d) && InFamily(s.rows, f, e);
      FamilySharesGrant(s.rows, f, d, e);
    }
  }

  // ---------------------------------------------------------------------------------------------
  // Grants and lifetimes
  // ---------------------------------------------------------------------------------------------

  lemma {:induction false} ChainSharesGrant(t: Table, f: string, c: seq<Digest>, i: nat)
    requires IsChain(t, f, c) && i < |c|
    ensures SameGrant(t[c[0]], t[c[i]])
  {
    if i > 0 {
      ChainSharesGrant(t, f, c, i - 1);
      assert Renews(t[c[i - 1]], t[c[i - 1 + 1]]);
    }
  }

  lemma FamilySharesGrant(t: Table, f: string, d: Digest, e: Digest)
    requires Chained(t) && InFamily(t, f, d) && InFamily(t, f, e)
    ensures SameGrant(t[d], t[e])
  {
    assert FamilyInUse(t, f);
    var c :| IsChain(t, f, c);
    var i :| 0 <= i < |c| && c[i] == d;
    var j :| 0 <= j < |c| && c[j] == e;
    ChainSharesGrant(t, f, c, i);
    ChainSharesGrant(t, f, c, j);
  }

  /** Client, user, scope and key binding are one per family, in every state and across every continuation. */
  lemma GrantIsForEver(s: System, es: seq<Event>, f: string, d: Digest, e: Digest)
    requires Reachable(s) && InFamily(s.rows, f, d) && InFamily(Run(s, es).rows, f, e)
    ensures SameGrant(s.rows[d], Run(s, es).rows[e])
  {
    ReachableInv(s);
    RunKeepsInv(s, es);
    RunAges(s, es);
    FamilySharesGrant(Run(s, es).rows, f, d, e);
  }

  lemma {:induction false} RunAges(s: System, es: seq<Event>)
    requires Inv(s)
    ensures TableAges(s.rows, Run(s, es).rows)
    decreases |es|
  {
    if es != [] {
      StepKeepsInv(s, es[0]);
      RunAges(Step(s, es[0]), es[1..]);
      AgesTransitive(s.rows, Step(s, es[0]).rows, Run(s, es).rows);
    }
  }

  lemma AgesTransitive(t0: Table, t1: Table, t2: Table)
    requires TableAges(t0, t1) && TableAges(t1, t2)
    ensures TableAges(t0, t2)
  {
    forall d | d in t0
      ensures d in t2 && Ages(t0[d], t2[d])
    {
      assert Ages(t0[d], t1[d]) && Ages(t1[d], t2[d]);
    }
  }

  function Lifetime(row: Row): int {
    row.expiresAt - row.createdAt
  }

  /**
   A successor lives at least a minute from its rotation, and its recorded lifetime grows only if its
   createdAt lags.
   */
  lemma SuccessorLifetime(t: Table, f: string, c: seq<Digest>, i: nat)
    requires IsChain(t, f, c) && i + 1 < |c|
    ensures t[c[i]].revokedAt.Some?
    ensures t[c[i + 1]].expiresAt >= t[c[i]].revokedAt.value + 60_000
    ensures (Lifetime(t[c[i + 1]]) <= Max(Lifetime(t[c[i]]), 60_000)) <==>
            (t[c[i + 1]].createdAt >= t[c[i]].revokedAt.value)
  {
    assert Renews(t[c[i]], t[c[i + 1]]);
  }

  ghost predicate DbClockNotBehind(t: Table, c: seq<Digest>)
    requires forall i | 0 <= i < |c| :: c[i] in t
  {
    forall i | 0 <= i < |c| - 1 :: t[c[i]].revokedAt.Some? ==> t[c[i + 1]].createdAt >= t[c[i]].revokedAt.value
  }

  /** With a database clock not behind the service's, no token of a family outlives max(first lifetime, one minute). */
  lemma {:induction false} LifetimesNeverGrow(t: Table, f: string, c: seq<Digest>, i: nat)
    requires IsChain(t, f, c) && i < |c| && DbClockNotBehind(t, c)
    ensures Lifetime(t[c[i]]) <= Max(Lifetime(t[c[0]]), 60_000)
  {
    if i > 0 {
      LifetimesNeverGrow(t, f, c, i - 1);
      SuccessorLifetime(t, f, c, i - 1);
      assert t[c[i - 1 + 1]].createdAt >= t[c[i - 1]].revokedAt.value;
    }
  }

  // ---------------------------------------------------------------------------------------------
  // A request that nobody interrupts
  // ---------------------------------------------------------------------------------------------

  /** The steps of a lone request, in order; steps that do not apply change nothing. */
  function LoneRequest(rid: nat, token: string, grace: int, jkt: Option<string>, now: int, now2: int,
                       newPlain: string, dbNow: int): seq<Event>
  {
    [Start(rid, token, grace, jkt, now), ReadRow(rid), ReadChild(rid), Commit(rid, newPlain, dbNow), Kill(rid, now2)]
  }

  function With(s: System, t: Table, rid: nat, q: Request): System {
    System(t, s.requests[rid := q])
  }

  lemma SetStageWith(s: System, t: Table, rid: nat, q: Request, t': Table, stage: Stage)
    ensures SetStage(With(s, t, rid, q).(rows := t'), rid, stage) == With(s, t', rid, q.(stage := stage))
  {
    assert s.requests[rid := q][rid := q.(stage := stage)] == s.requests[rid := q.(stage := stage)];
  }

  /** What the stage reached after the reads does next, alone. */
  function Finish(t: Table, q: Request, now2: int, newPlain: string, dbNow: int): (Table, Stage) {
    match q.stage
    case Ready(cur, via) =>
      (match CommitRotation(t, cur, q.now, newPlain, dbNow)
       case Success(t') => (t', Rotated(newPlain, cur.token, via))
       case Failure(e) => (t, Failed(e)))
    case Killing(f) => (RevokeWhere(t, ByFamily(f), now2), Failed(ReuseDetected))
    case _ => (t, q.stage)
  }

  lemma FinishSteps(s: System, t: Table, rid: nat, q: Request, now2: int, newPlain: string, dbNow: int)
    ensures var (t', stage) := Finish(t, q, now2, newPlain, dbNow);
            Step(Step(With(s, t, rid, q), Commit(rid, newPlain, dbNow)), Kill(rid, now2))
              == With(s, t', rid, q.(stage := stage))
  {
    var (t', stage) := Finish(t, q, now2, newPlain, dbNow);
    SetStageWith(s, t, rid, q, t', stage);
  }

  function AfterReads(t: Table, q: Request): Stage {
    var v := Examine(t, q.token, q.grace, q.now, q.jkt);
    if v.LookForChild? then AfterVerdict(ExamineChild(t, v.familyId, v.child, q.now, q.jkt), Grace)
    else AfterVerdict(v, Active)
  }

  lemma ReadSteps(s: System, rid: nat, q: Request)
    requires q.stage.Started?
    ensures Step(Step(With(s, s.rows, rid, q), ReadRow(rid)), ReadChild(rid))
      == With(s, s.rows, rid, q.(stage := AfterReads(s.rows, q)))
  {
    var v := Examine(s.rows, q.token, q.grace, q.now, q.jkt);
    SetStageWith(s, s.rows, rid, q, s.rows, AfterVerdict(v, Active));
    SetStageWith(s, s.rows, rid, q.(stage := AfterVerdict(v, Active)), s.rows, AfterReads(s.rows, q));
  }

  /** The service's serial rotation is the protocol run without interruption. */
  lemma SerialRotationIsAnUninterruptedRun(s: System, rid: nat, token: string, grace: int, jkt: Option<string>,
                                           now: int, now2: int, newPlain: string, dbNow: int)
    returns (stage: Stage)
    requires rid !in s.requests
    ensures var (r, t) := RotateSerially(s.rows, token, grace, now, now2, jkt, newPlain, dbNow);
            && Run(s, LoneRequest(rid, token, grace, jkt, now, now2, newPlain, dbNow))
               == With(s, t, rid, Request(token, grace, jkt, now, stage))
            && (match r
                case Success(plain) => stage.Rotated? && stage.issued == plain
                case Failure(e) => stage == Failed(e))
  {
    var es := LoneRequest(rid, token, grace, jkt, now, now2, newPlain, dbNow);
    var q := Request(token, grace, jkt, now, Started);
    assert Step(s, es[0]) == With(s, s.rows, rid, q);
    ReadSteps(s, rid, q);
    var q' := q.(stage := AfterReads(s.rows, q));
    FinishSteps(s, s.rows, rid, q', now2, newPlain, dbNow);
    var (t', last) := Finish(s.rows, q', now2, newPlain, dbNow);
    stage := last;
    RunIsSteps(s, es, With(s, t', rid, q.(stage := stage)));
  }

  lemma RunIsSteps(s: System, es: seq<Event>, s5: System)
    requires |es| == 5
    requires s5 == Step(Step(Step(Step(Step(s, es[0]), es[1]), es[2]), es[3]), es[4])
    ensures Run(s, es) == s5
  {
    var s1 := Step(s, es[0]);
    var s2 := Step(s1, es[1]);
    var s3 := Step(s2, es[2]);
    assert Run(s3, es[3..]) == s5 by {
      assert es[3..][1..] == es[4..] && es[4..][1..] == [];
      assert Run(Step(s3, es[3]), es[4..]) == s5;
    }
    assert es[2..][1..] == es[3..] && es[1..][1..] == es[2..];
    assert Run(s2, es[2..]) == s5;
    assert Run(s1, es[1..]) == s5;
  }

  lemma {:induction false} RunAppends(s: System, es: seq<Event>, fs: seq<Event>)
    ensures Run(s, es + fs) == Run(Run(s, es), fs)
    decreases |es|
  {
    if es == [] {
      assert es + fs == fs;
    } else {
      assert (es + fs)[1..] == es[1..] + fs;
      RunAppends(Step(s, es[0]), es[1..], fs);
    }
  }

  lemma RunStays(s: System, es: seq<Event>)
    requires Reachable(s)
    ensures Reachable(Run(s, es))
  {
    var before :| s == Run(INIT, before);
    RunAppends(INIT, before, es);
  }

  lemma ReachableStep(s: System, e: Event)
    requires Reachable(s)
    ensures Reachable(Step(s, e))
  {
    RunStays(s, [e]);
    assert [e][1..] == [];
    assert Run(s, [e]) == Run(Step(s, e), []) == Step(s, e);
  }

  lemma RetryCountsTwice(s: System, token: string, b: string, c: string)
    requires Reachable(s) && s.requests == map[]
    requires Sha256(token) in s.rows && s.rows[Sha256(token)].revokedAt.None? && s.rows[Sha256(token)].dpopJkt.None?
    requires s.rows[Sha256(token)].expiresAt > 0
    requires Sha256(b) !in s.rows && Sha256(c) !in s.rows && b != c
    ensures exists s' :: Reachable(s') && |Successes(s', token)| == 2
  {
    ReachableInv(s);
    RetryInsideGraceSucceeds(s.rows, token, 10, None, 0, b, 1, c, 0, 1);
    var q1 := LoneRequest(1, token, 10, None, 0, 0, b, 0);
    var q2 := LoneRequest(2, token, 10, None, 1, 1, c, 1);
    var stage1 := SerialRotationIsAnUninterruptedRun(s, 1, token, 10, None, 0, 0, b, 0);
    var s1 := Run(s, q1);
    var stage2 := SerialRotationIsAnUninterruptedRun(s1, 2, token, 10, None, 1, 1, c, 1);
    var s2 := Run(s1, q2);
    RunStays(s, q1);
    RunStays(s1, q2);
    assert Successes(s2, token) == {1, 2};
  }

  /** The bound of two is reached. */
  lemma TwoRotationsAreReachable()
    ensures exists s, token :: Reachable(s) && |Successes(s, token)| == 2
  {
    var create := [Create("a", CreateParams("client", "user", "openid", 600, "family", None), 0, 0)];
    var s := Run(INIT, create);
    assert s == Run(Step(INIT, create[0]), []) == Step(INIT, create[0]);
    RetryCountsTwice(s, "a", "b", "c");
  }

  /**
   A reachable family whose recorded lifetime grows: the database's clock stands still while the
   service's advances by 100 s between creation and rotation.
   */
  lemma LifetimeCanGrow() returns (s: System, f: string, c: seq<Digest>)
    ensures Reachable(s) && IsChain(s.rows, f, c) && |c| == 2
    ensures Lifetime(s.rows[c[0]]) == 600_000 && Lifetime(s.rows[c[1]]) == 700_000
  {
    f, c := "family", [Sha256("a"), Sha256("b")];
    var create := [Create("a", CreateParams("client", "user", "openid", 600, f, None), 0, 0)];
    var s0 := Run(INIT, create);
    assert create[1..] == [];
    assert s0 == Run(Step(INIT, create[0]), create[1..]) == Step(INIT, create[0]);
    var request := LoneRequest(1, "a", 10, None, 100_000, 100_000, "b", 0);
    var stage := SerialRotationIsAnUninterruptedRun(s0, 1, "a", 10, None, 100_000, 100_000, "b", 0);
    s := Run(s0, request);
    RunStays(s0, request);
    CreatedTokenRotates(map[], "a", create[0].params, 0, 0, 10, 100_000, 100_000, None, "b", 0);
    assert s.rows.Keys == {Sha256("a"), Sha256("b")};
    assert IsChain(s.rows, f, c) by {
      assert Renews(s.rows[c[0]], s.rows[c[1]]);
    }
  }
}
