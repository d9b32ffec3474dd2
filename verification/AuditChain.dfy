/**
 The audit log as a hash chain: how rows are appended, and what a one-pass check of the chain accepts
 (apps/server/src/modules/audit/audit.service.ts:89-118, 206-262).
 */
module AuditChain {
  import opened Common
  import opened AuditText
  import opened Permutations
  import opened Redaction

  datatype AuditRow = AuditRow(
    id: Uuid,
    actorId: Option<Uuid>,
    action: string,
    resourceType: string,
    resourceId: Option<Uuid>,
    details: Json,
    ipAddress: Option<string>,
    createdAt: Timestamp,
    prevHash: Option<Digest>)

  datatype AuditInput = AuditInput(
    actorId: Option<Uuid>,
    action: string,
    resourceType: string,
    resourceId: Option<Uuid>,
    details: Entries,
    ipAddress: Option<string>)

  /** The audit_logs table, in the order of insertion. */
  type Log = seq<AuditRow>

  function HashOf(r: AuditRow): Digest {
    ComputeHash(r.id, r.action, r.createdAt)
  }

  /** r's place comes no later than q's in ORDER BY created_at. */
  predicate NoLater(r: AuditRow, q: AuditRow) {
    Ordinal(r.createdAt) <= Ordinal(q.createdAt)
  }

  ghost predicate Sorted(rows: seq<AuditRow>) {
    forall i, j | 0 <= i < j < |rows| :: NoLater(rows[i], rows[j])
  }

  ghost predicate Increasing(rows: seq<AuditRow>) {
    forall i, j | 0 <= i < j < |rows| :: !NoLater(rows[j], rows[i])
  }

  /** view is an answer to ORDER BY created_at ASC: rows with equal timestamps come in any order. */
  ghost predicate Orders(rows: seq<AuditRow>, view: seq<AuditRow>) {
    multiset(view) == multiset(rows) && Sorted(view)
  }

  /** ORDER BY created_at DESC LIMIT 1 may answer row i: no row is later. */
  predicate IsLatest(log: Log, i: nat) {
    i < |log| && forall k | 0 <= k < |log| :: NoLater(log[k], log[i])
  }

  function Taken(log: Log, id: Uuid): bool {
    exists i :: 0 <= i < |log| && log[i].id == id
  }

  /** The hash of the row that the query for the latest row answered, if the log has rows. */
  function PrevHashFor(log: Log, last: nat): Option<Digest> {
    if last < |log| then Some(HashOf(log[last])) else None
  }

  /**
   createAuditLog: the new row carries the hash of the latest row, which the database answers as row
   last; an answer that the query cannot give changes nothing. The id column is a primary key.
   */
  function Append(log: Log, input: AuditInput, id: Uuid, createdAt: Timestamp, last: nat): Log {
    if Taken(log, id) || !(log == [] || IsLatest(log, last)) then log
    else log + [AuditRow(id, input.actorId, input.action, input.resourceType, input.resourceId,
                         Obj(RedactEntries(input.details)), input.ipAddress, createdAt, PrevHashFor(log, last))]
  }

  function AnonymizeRow(r: AuditRow, actorId: Uuid): AuditRow {
    if r.actorId == Some(actorId) then r.(actorId := None) else r
  }

  /** anonymizeActorInAuditLogs. */
  function Anonymize(log: Log, actorId: Uuid): (r: Log)
    ensures |r| == |log| && forall i | 0 <= i < |r| :: r[i] == AnonymizeRow(log[i], actorId)
  {
    seq(|log|, i requires 0 <= i < |log| => AnonymizeRow(log[i], actorId))
  }

  datatype Op = Record(input: AuditInput, id: Uuid, createdAt: Timestamp, last: nat) | Forget(actorId: Uuid)

  function Apply(log: Log, op: Op): Log {
    match op
    case Record(input, id, at, last) => Append(log, input, id, at, last)
    case Forget(actorId) => Anonymize(log, actorId)
  }

  function Build(ops: seq<Op>): Log {
    if ops == [] then [] else Apply(Build(ops[..|ops| - 1]), ops[|ops| - 1])
  }

  /** What createAuditLog stores: what it was given, the redacted details, and the hash of the latest row. */
  lemma AppendExactly(log: Log, input: AuditInput, id: Uuid, createdAt: Timestamp, last: nat)
    requires log == [] || IsLatest(log, last)
    ensures var log' := Append(log, input, id, createdAt, last);
            if exists r :: r in log && r.id == id then log' == log
            else && |log'| == |log| + 1 && log'[..|log|] == log
                 && var r := log'[|log|];
                 && r.id == id && r.createdAt == createdAt && r.actorId == input.actorId && r.action == input.action
                 && r.resourceType == input.resourceType && r.resourceId == input.resourceId
                 && r.ipAddress == input.ipAddress && r.details == Redact(Obj(input.details))
                 && r.prevHash == (if log == [] then None
                                   else Some(ComputeHash(log[last].id, log[last].action, log[last].createdAt)))
  {
    if r :| r in log && r.id == id {
      var i :| 0 <= i < |log| && log[i] == r;
    }
  }

  /** Anonymising clears the actor of that actor's rows, and touches nothing else. */
  lemma AnonymizeExactly(log: Log, actorId: Uuid, i: nat)
    requires i < |log|
    ensures |Anonymize(log, actorId)| == |log|
    ensures Anonymize(log, actorId)[i]
            == if log[i].actorId == Some(actorId) then log[i].(actorId := None) else log[i]
  {
  }

  // ---------------------------------------------------------------------------------------------
  // Orders
  // ---------------------------------------------------------------------------------------------

  ghost predicate UniqueIds(rows: seq<AuditRow>) {
    forall i, j | 0 <= i < j < |rows| :: rows[i].id != rows[j].id
  }

  /** No two different rows share a timestamp. */
  ghost predicate TieFree(rows: seq<AuditRow>) {
    forall r, q | r in rows && q in rows && NoLater(r, q) && NoLater(q, r) :: r == q
  }

  /** Puts r behind every row that is not later than it. */
  function Place(sorted: seq<AuditRow>, r: AuditRow): seq<AuditRow> {
    if sorted == [] then [r]
    else if NoLater(sorted[|sorted| - 1], r) then sorted + [r]
    else Place(sorted[..|sorted| - 1], r) + [sorted[|sorted| - 1]]
  }

  /** One of the orders: rows with equal timestamps keep their order. */
  function ByTime(log: Log): seq<AuditRow> {
    if log == [] then [] else Place(ByTime(log[..|log| - 1]), log[|log| - 1])
  }

  lemma {:induction false} PlaceKeepsRows(sorted: seq<AuditRow>, r: AuditRow)
    ensures multiset(Place(sorted, r)) == multiset(sorted) + multiset{r}
    ensures forall x | x in Place(sorted, r) :: x == r || x in sorted
  {
    if sorted != [] {
      var init, last := sorted[..|sorted| - 1], sorted[|sorted| - 1];
      assert sorted == init + [last];
      if !NoLater(last, r) {
        PlaceKeepsRows(init, r);
      }
    }
  }

  lemma {:induction false} PlaceKeepsSorted(sorted: seq<AuditRow>, r: AuditRow)
    requires Sorted(sorted)
    ensures Sorted(Place(sorted, r))
  {
    if sorted != [] {
      var init, last := sorted[..|sorted| - 1], sorted[|sorted| - 1];
      if NoLater(last, r) {
        assert forall i | 0 <= i < |sorted| :: NoLater(sorted[i], last);
      } else {
        PlaceKeepsSorted(init, r);
        PlaceKeepsRows(init, r);
        assert forall x | x in Place(init, r) :: NoLater(x, last);
      }
    }
  }

  lemma {:induction false} ByTimeOrders(log: Log)
    ensures Orders(log, ByTime(log))
  {
    if log != [] {
      var init, last := log[..|log| - 1], log[|log| - 1];
      assert log == init + [last];
      ByTimeOrders(init);
      PlaceKeepsRows(ByTime(init), last);
      PlaceKeepsSorted(ByTime(init), last);
    }
  }

  lemma {:induction false} SortedIsFixed(log: Log)
    requires Sorted(log)
    ensures ByTime(log) == log
  {
    if log != [] {
      SortedIsFixed(log[..|log| - 1]);
    }
  }

  /** Without ties there is one order. */
  lemma TieFreeOrder(rows: seq<AuditRow>, view: seq<AuditRow>, other: seq<AuditRow>)
    requires TieFree(rows) && Orders(rows, view) && Orders(rows, other)
    ensures view == other
  {
    SameElements(rows, view);
    TieFreeSorts(view, other);
  }

  lemma {:induction false} TieFreeSorts(view: seq<AuditRow>, other: seq<AuditRow>)
    requires TieFree(view) && Orders(view, other) && Sorted(view)
    ensures view == other
    decreases |view|
  {
    SameElements(view, other);
    if view != [] {
      var n := |view| - 1;
      LastsAgree(view, other);
      TakeFromBoth(view, n, other, n);
      assert Without(view, n) == view[..n] && Without(other, n) == other[..n];
      HeadKeepsTieFree(view);
      TieFreeSorts(view[..n], other[..n]);
    }
  }

  lemma LastsAgree(view: seq<AuditRow>, other: seq<AuditRow>)
    requires TieFree(view) && Sorted(view) && Orders(view, other) && view != []
    ensures |other| == |view| && view[|view| - 1] == other[|view| - 1]
  {
    SameElements(view, other);
    LastIsLatest(view, other[|view| - 1]);
    LastIsLatest(other, view[|view| - 1]);
  }

  lemma HeadKeepsTieFree(view: seq<AuditRow>)
    requires TieFree(view) && view != []
    ensures TieFree(view[..|view| - 1])
  {
    assert forall r | r in view[..|view| - 1] :: r in view;
  }

  lemma LastIsLatest(view: seq<AuditRow>, r: AuditRow)
    requires Sorted(view) && r in view
    ensures NoLater(r, view[|view| - 1])
  {
  }

  // ---------------------------------------------------------------------------------------------
  // The one-pass check
  // ---------------------------------------------------------------------------------------------

  /** The answer of verifyAuditChain. */
  datatype Report = Report(
    valid: bool,
    totalEntries: nat,
    checkedEntries: nat,
    firstInvalidEntryId: Option<Uuid>,
    lastCheckedId: Option<Uuid>,
    lastHash: Option<Digest>)

  /** What the verifier carries from row to row. */
  datatype Cursor = Cursor(isFirst: bool, previousHash: Option<Digest>, checked: nat, lastId: Option<Uuid>)

  function Expected(c: Cursor): Option<Digest> {
    if c.isFirst then None else c.previousHash
  }

  function Advance(c: Cursor, r: AuditRow): Cursor {
    Cursor(false, Some(HashOf(r)), c.checked + 1, Some(r.id))
  }

  /** The recursive check of a sequence of rows, one after the other. */
  function Scan(rows: seq<AuditRow>, c: Cursor): Report {
    if rows == [] then Report(true, c.checked, c.checked, None, c.lastId, c.previousHash)
    else if rows[0].prevHash != Expected(c) then
      Report(false, c.checked + 1, c.checked + 1, Some(rows[0].id), Some(rows[0].id), Expected(c))
    else Scan(rows[1..], Advance(c, rows[0]))
  }

  /** Row i carries the hash of the one before it. */
  ghost predicate Follows(rows: seq<AuditRow>, i: nat) {
    0 < i < |rows| && rows[i].prevHash == Some(HashOf(rows[i - 1]))
  }

  /** Every row carries the hash of the one before it, the first one what is expected of it. */
  ghost predicate Linked(rows: seq<AuditRow>, expected: Option<Digest>) {
    && (rows != [] ==> rows[0].prevHash == expected)
    && (forall i | 0 < i < |rows| :: Follows(rows, i))
  }

  /** The first k rows are linked and row k is not. */
  ghost predicate BreaksAt(rows: seq<AuditRow>, expected: Option<Digest>, k: nat) {
    && k < |rows|
    && Linked(rows[..k], expected)
    && rows[k].prevHash != (if k == 0 then expected else Some(HashOf(rows[k - 1])))
  }

  /** The check accepts exactly the linked sequences, having checked all of them. */
  lemma ScanAccepts(rows: seq<AuditRow>, c: Cursor)
    ensures Scan(rows, c).valid <==> Linked(rows, Expected(c))
    ensures Scan(rows, c).valid ==>
              Scan(rows, c) == Report(true, c.checked + |rows|, c.checked + |rows|, None,
                                      if rows == [] then c.lastId else Some(rows[|rows| - 1].id),
                                      if rows == [] then c.previousHash else Some(HashOf(rows[|rows| - 1])))
  {
    ScanIsLinked(rows, c);
    if Scan(rows, c).valid {
      ScanReportsEnd(rows, c);
    }
  }

  lemma {:induction false} ScanIsLinked(rows: seq<AuditRow>, c: Cursor)
    ensures Scan(rows, c).valid <==> Linked(rows, Expected(c))
    decreases |rows|
  {
    if rows != [] {
      LinkedCons(rows, Expected(c));
      if rows[0].prevHash == Expected(c) {
        ScanIsLinked(rows[1..], Advance(c, rows[0]));
      }
    }
  }

  lemma {:induction false} ScanReportsEnd(rows: seq<AuditRow>, c: Cursor)
    requires Scan(rows, c).valid
    ensures Scan(rows, c) == Report(true, c.checked + |rows|, c.checked + |rows|, None,
                                    if rows == [] then c.lastId else Some(rows[|rows| - 1].id),
                                    if rows == [] then c.previousHash else Some(HashOf(rows[|rows| - 1])))
    decreases |rows|
  {
    if rows != [] {
      ScanReportsEnd(rows[1..], Advance(c, rows[0]));
    }
  }

  /** Otherwise it reports the first break. */
  lemma {:induction false} ScanRejects(rows: seq<AuditRow>, c: Cursor) returns (k: nat)
    requires !Scan(rows, c).valid
    ensures BreaksAt(rows, Expected(c), k)
    ensures Scan(rows, c) == Report(false, c.checked + k + 1, c.checked + k + 1, Some(rows[k].id), Some(rows[k].id),
                                    if k == 0 then Expected(c) else Some(HashOf(rows[k - 1])))
    decreases |rows|
  {
    if rows[0].prevHash != Expected(c) {
      k := 0;
    } else {
      var rest := ScanRejects(rows[1..], Advance(c, rows[0]));
      k := rest + 1;
      assert rows[..k][1..] == rows[1..][..rest];
      LinkedCons(rows[..k], Expected(c));
    }
  }

  lemma LinkedAt(rows: seq<AuditRow>, expected: Option<Digest>, k: nat)
    requires Linked(rows, expected) && k < |rows|
    ensures rows[k].prevHash == if k == 0 then expected else Some(HashOf(rows[k - 1]))
  {
    assert k > 0 ==> Follows(rows, k);
  }

  lemma LinkedCons(rows: seq<AuditRow>, expected: Option<Digest>)
    requires rows != []
    ensures Linked(rows, expected) <==> rows[0].prevHash == expected && Linked(rows[1..], Some(HashOf(rows[0])))
  {
    var tail := rows[1..];
    if rows[0].prevHash == expected && Linked(tail, Some(HashOf(rows[0]))) {
      forall i | 0 < i < |rows|
        ensures Follows(rows, i)
      {
        LinkedAt(tail, Some(HashOf(rows[0])), i - 1);
      }
    }
    if Linked(rows, expected) {
      LinkedAt(rows, expected, 0);
      forall i | 0 <= i < |tail|
        ensures tail[i].prevHash == Some(HashOf(rows[i]))
      {
        LinkedAt(rows, expected, i + 1);
      }
    }
  }

  /** The cursor after accepting rows. */
  function After(rows: seq<AuditRow>, c: Cursor): Cursor
  {
    if rows == [] then c else After(rows[1..], Advance(c, rows[0]))
  }

  lemma {:induction false} ScanSplits(a: seq<AuditRow>, b: seq<AuditRow>, c: Cursor)
    ensures Scan(a + b, c) == if Scan(a, c).valid then Scan(b, After(a, c)) else Scan(a, c)
    decreases |a|
  {
    if a == [] {
      assert a + b == b;
    } else {
      assert (a + b)[1..] == a[1..] + b;
      if a[0].prevHash == Expected(c) {
        ScanSplits(a[1..], b, Advance(c, a[0]));
      }
    }
  }

  lemma {:induction false} AfterAccepted(rows: seq<AuditRow>, c: Cursor)
    ensures rows != [] ==>
              After(rows, c)
              == Cursor(false, Some(HashOf(rows[|rows| - 1])), c.checked + |rows|, Some(rows[|rows| - 1].id))
    decreases |rows|
  {
    if rows != [] {
      AfterAccepted(rows[1..], Advance(c, rows[0]));
    }
  }

  const FRESH := Cursor(true, None, 0, None)

  /** The whole chain is accepted from the beginning. */
  ghost predicate Accepted(rows: seq<AuditRow>) {
    Linked(rows, None)
  }

  // ---------------------------------------------------------------------------------------------
  // What every built log satisfies
  // ---------------------------------------------------------------------------------------------

  /** Row i carries the hash of a row that was the latest when it was stored. */
  ghost predicate FollowsLatest(log: Log, i: nat)
    requires i < |log|
  {
    if i == 0 then log[0].prevHash.None?
    else exists m: nat :: IsLatest(log[..i], m) && log[i].prevHash == Some(HashOf(log[m]))
  }

  ghost predicate WellBuilt(log: Log) {
    UniqueIds(log) && forall i | 0 <= i < |log| :: FollowsLatest(log, i)
  }

  /** Whatever rows the database answers as the latest, every stored row follows a row that was the latest. */
  lemma {:induction false} BuiltIsWellBuilt(ops: seq<Op>)
    ensures WellBuilt(Build(ops))
  {
    if ops != [] {
      var before, op := Build(ops[..|ops| - 1]), ops[|ops| - 1];
      BuiltIsWellBuilt(ops[..|ops| - 1]);
      match op
      case Record(input, id, at, last) => AppendKeepsWellBuilt(before, input, id, at, last);
      case Forget(actorId) => AnonymizeKeepsWellBuilt(before, actorId);
    }
  }

  /** However the log was built, no stored details show anything but the marker under a matching key, at any depth. */
  lemma {:induction false} StoredDetailsAreRedacted(ops: seq<Op>, i: nat, p: Path)
    requires i < |Build(ops)| && EndsInPii(Build(ops)[i].details, p)
    ensures At(Build(ops)[i].details, p) == Some(REDACTED)
    decreases |ops|
  {
    if ops != [] {
      var before, op := Build(ops[..|ops| - 1]), ops[|ops| - 1];
      if i < |before| {
        assert Build(ops)[i].details == before[i].details;
        StoredDetailsAreRedacted(ops[..|ops| - 1], i, p);
      } else {
        OnlyMarkersUnderPii(Obj(op.input.details), p);
      }
    }
  }

  lemma AppendKeepsWellBuilt(log: Log, input: AuditInput, id: Uuid, at: Timestamp, last: nat)
    requires WellBuilt(log)
    ensures WellBuilt(Append(log, input, id, at, last))
  {
    var log' := Append(log, input, id, at, last);
    if log' != log {
      forall i | 0 <= i < |log'|
        ensures FollowsLatest(log', i)
      {
        assert log'[..i] == log[..i];
        if i < |log| {
          assert FollowsLatest(log, i);
        } else if i > 0 {
          assert log[..i] == log;
          assert IsLatest(log'[..i], last);
        }
      }
    }
  }

  lemma AnonymizeKeepsWellBuilt(log: Log, actorId: Uuid)
    requires WellBuilt(log)
    ensures WellBuilt(Anonymize(log, actorId))
  {
    forall i | 0 <= i < |log|
      ensures FollowsLatest(Anonymize(log, actorId), i)
    {
      AnonymizeKeepsPredecessor(log, actorId, i);
    }
  }

  lemma AnonymizeKeepsLatest(log: Log, actorId: Uuid, m: nat)
    requires IsLatest(log, m)
    ensures IsLatest(Anonymize(log, actorId), m)
  {
    forall k | 0 <= k < |log|
      ensures NoLater(Anonymize(log, actorId)[k], Anonymize(log, actorId)[m])
    {
      assert NoLater(log[k], log[m]);
    }
  }

  lemma AnonymizeKeepsPredecessor(log: Log, actorId: Uuid, i: nat)
    requires i < |log| && FollowsLatest(log, i)
    ensures FollowsLatest(Anonymize(log, actorId), i)
  {
    var log' := Anonymize(log, actorId);
    if i > 0 {
      var m: nat :| IsLatest(log[..i], m) && log[i].prevHash == Some(HashOf(log[m]));
      assert log'[..i] == Anonymize(log[..i], actorId);
      AnonymizeKeepsLatest(log[..i], actorId, m);
      assert HashOf(log'[m]) == HashOf(log[m]);
    }
  }

  lemma SameHashSameRow(log: Log, r: AuditRow, q: AuditRow)
    requires UniqueIds(log) && r in log && q in log
    requires HashOf(r) == HashOf(q)
    ensures r == q
  {
    HashDetermines(r.id, r.action, r.createdAt, q.id, q.action, q.createdAt);
  }

  lemma SamePlace(log: Log, i: nat, j: nat)
    requires UniqueIds(log) && i < |log| && j < |log| && log[i] == log[j]
    ensures i == j
  {
  }

  // ---------------------------------------------------------------------------------------------
  // Which readings of a log are accepted
  // ---------------------------------------------------------------------------------------------

  lemma {:induction false} IncreasingFromBelow(idx: seq<nat>, k: nat)
    requires k < |idx| && forall i | 0 < i < |idx| :: idx[i - 1] < idx[i]
    ensures idx[k] >= k
  {
    if k > 0 {
      IncreasingFromBelow(idx, k - 1);
    }
  }

  lemma {:induction false} IncreasingFromAbove(idx: seq<nat>, k: nat)
    requires k < |idx| && forall i | 0 < i < |idx| :: idx[i - 1] < idx[i]
    requires forall i | 0 <= i < |idx| :: idx[i] < |idx|
    ensures idx[k] <= k
    decreases |idx| - k
  {
    if k + 1 < |idx| {
      IncreasingFromAbove(idx, k + 1);
      assert idx[k + 1 - 1] < idx[k + 1];
    }
  }

  ghost predicate Locates(log: Log, read: seq<AuditRow>, idx: seq<nat>) {
    |idx| == |read| && forall k | 0 <= k < |idx| :: idx[k] < |log| && log[idx[k]] == read[k]
  }

  lemma Positions(log: Log, read: seq<AuditRow>) returns (idx: seq<nat>)
    requires forall k | 0 <= k < |read| :: read[k] in log
    ensures Locates(log, read, idx)
  {
    idx := [];
    for n := 0 to |read|
      invariant |idx| == n && forall k | 0 <= k < n :: idx[k] < |log| && log[idx[k]] == read[k]
    {
      var j :| 0 <= j < |log| && log[j] == read[n];
      idx := idx + [j];
    }
  }

  /** The row whose hash a stored row carries was stored earlier, and was the latest at that time. */
  lemma AcceptedStepGoesForward(log: Log, read: seq<AuditRow>, idx: seq<nat>, k: nat)
    requires WellBuilt(log) && Accepted(read) && Locates(log, read, idx)
    requires 0 < k < |read|
    ensures idx[k - 1] < idx[k] && IsLatest(log[..idx[k]], idx[k - 1])
  {
    LinkedAt(read, None, k);
    assert FollowsLatest(log, idx[k]);
    var m: nat :| IsLatest(log[..idx[k]], m) && log[idx[k]].prevHash == Some(HashOf(log[m]));
    SameHashSameRow(log, log[m], read[k - 1]);
    SamePlace(log, m, idx[k - 1]);
  }

  lemma AcceptedStartsAtTheStart(log: Log, read: seq<AuditRow>, idx: seq<nat>)
    requires WellBuilt(log) && Accepted(read) && read != [] && Locates(log, read, idx)
    ensures idx[0] == 0
  {
    LinkedAt(read, None, 0);
    assert FollowsLatest(log, idx[0]);
  }

  /** An accepted reading as long as a built log is the log itself, in the order of storing. */
  lemma AcceptedReadingIsTheLog(log: Log, read: seq<AuditRow>)
    requires WellBuilt(log) && Accepted(read)
    requires |read| == |log| && forall k | 0 <= k < |read| :: read[k] in log
    ensures read == log
  {
    var idx := Positions(log, read);
    forall k | 0 < k < |idx|
      ensures idx[k - 1] < idx[k]
    {
      AcceptedStepGoesForward(log, read, idx, k);
    }
    forall k | 0 <= k < |log|
      ensures read[k] == log[k]
    {
      IncreasingFromBelow(idx, k);
      IncreasingFromAbove(idx, k);
    }
  }

  lemma LatestOfIncreasing(log: Log, i: nat)
    requires Increasing(log) && 0 < i < |log| && FollowsLatest(log, i)
    ensures log[i].prevHash == Some(HashOf(log[i - 1]))
  {
    var m: nat :| IsLatest(log[..i], m) && log[i].prevHash == Some(HashOf(log[m]));
    assert NoLater(log[..i][i - 1], log[..i][m]);
  }

  /** Strictly increasing timestamps leave the database no choice: every row follows the one before it. */
  lemma IncreasingIsAccepted(log: Log)
    requires WellBuilt(log) && Increasing(log)
    ensures Accepted(log)
  {
    forall i | 0 < i < |log|
      ensures Follows(log, i)
    {
      LatestOfIncreasing(log, i);
    }
    assert log != [] ==> FollowsLatest(log, 0);
  }

  /**
   Out of the rows of an accepted log, in any order and with any omissions or repetitions, exactly
   the prefixes are accepted: a deletion or a reordering shows, unless it cuts the end off.
   */
  lemma {:induction false} OnlyPrefixesAreAccepted(log: Log, rows: seq<AuditRow>)
    requires UniqueIds(log) && Accepted(log)
    requires forall k | 0 <= k < |rows| :: rows[k] in log
    ensures Scan(rows, FRESH).valid <==> rows <= log
  {
    ScanAccepts(rows, FRESH);
    if Accepted(rows) {
      forall k: nat | k < |rows|
        ensures k < |log| && rows[k] == log[k]
      {
        AcceptedRowsAreInPlace(log, rows, k);
      }
      if rows != [] {
        AcceptedRowsAreInPlace(log, rows, |rows| - 1);
      }
    }
    if rows <= log {
      forall i | 0 < i < |rows|
        ensures Follows(rows, i)
      {
        LinkedAt(log, None, i);
      }
    }
  }

  lemma {:induction false} AcceptedRowsAreInPlace(log: Log, rows: seq<AuditRow>, k: nat)
    requires UniqueIds(log) && Accepted(log) && Accepted(rows)
    requires forall i | 0 <= i < |rows| :: rows[i] in log
    requires k < |rows|
    ensures k < |log| && rows[k] == log[k]
  {
    var j :| 0 <= j < |log| && log[j] == rows[k];
    LinkedAt(log, None, j);
    LinkedAt(rows, None, k);
    if k > 0 {
      AcceptedRowsAreInPlace(log, rows, k - 1);
      SameHashSameRow(log, log[j - 1], log[k - 1]);
      SamePlace(log, j - 1, k - 1);
    }
  }
}
