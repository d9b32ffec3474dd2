/**
 Resuming a verification from the checkpoint that an earlier one reported
 (apps/server/src/modules/audit/audit.service.ts:159-193).
 */
module AuditResumption {
  import opened AuditChain
  import opened AuditServices
  import opened AuditText
  import opened AuditVerdicts
  import opened Common
  import opened Permutations
  import opened Redaction

  // ---------------------------------------------------------------------------------------------
  // What a resumption selects
  // ---------------------------------------------------------------------------------------------

  lemma {:induction false} FindByIdFinds(log: Log, r: AuditRow)
    requires UniqueIds(log) && r in log
    ensures FindById(log, r.id) == Some(r)
  {
    if log[0] != r {
      var j :| 0 <= j < |log| && log[j] == r;
      assert r in log[1..] by {
        assert log[1..][j - 1] == r;
      }
      FindByIdFinds(log[1..], r);
    }
  }

  lemma {:induction false} LaterThanSuffix(rows: seq<AuditRow>, k: nat, t: Timestamp)
    requires Sorted(rows) && k <= |rows|
    requires forall i | 0 <= i < k :: Ordinal(rows[i].createdAt) <= Ordinal(t)
    requires k < |rows| ==> Ordinal(rows[k].createdAt) > Ordinal(t)
    ensures LaterThan(rows, t) == rows[k..]
    decreases |rows|
  {
    if rows != [] {
      if k > 0 {
        LaterThanSuffix(rows[1..], k - 1, t);
      } else {
        forall i | 0 <= i < |rows[1..]|
          ensures Ordinal(rows[1..][i].createdAt) > Ordinal(t)
        {
          assert NoLater(rows[0], rows[i + 1]);
        }
        LaterThanSuffix(rows[1..], 0, t);
      }
    }
  }

  /** How often a row is selected depends on how often it is stored, not on the order. */
  lemma {:induction false} LaterThanCounts(rows: seq<AuditRow>, t: Timestamp, r: AuditRow)
    ensures multiset(LaterThan(rows, t))[r] == if Ordinal(r.createdAt) > Ordinal(t) then multiset(rows)[r] else 0
  {
    if rows != [] {
      assert rows == [rows[0]] + rows[1..];
      LaterThanCounts(rows[1..], t, r);
    }
  }

  /** How many rows are not later than the checkpoint. */
  lemma CountNotLater(rows: seq<AuditRow>, t: Timestamp) returns (k: nat)
    requires Sorted(rows)
    ensures k <= |rows|
    ensures forall i | 0 <= i < k :: Ordinal(rows[i].createdAt) <= Ordinal(t)
    ensures forall i | k <= i < |rows| :: Ordinal(rows[i].createdAt) > Ordinal(t)
  {
    k := |rows|;
    while k > 0 && Ordinal(rows[k - 1].createdAt) > Ordinal(t)
      invariant k <= |rows|
      invariant forall i | k <= i < |rows| :: Ordinal(rows[i].createdAt) > Ordinal(t)
    {
      k := k - 1;
    }
    if k > 0 {
      forall i | 0 <= i < k
        ensures Ordinal(rows[i].createdAt) <= Ordinal(t)
      {
        assert i < k - 1 ==> NoLater(rows[i], rows[k - 1]);
      }
    }
  }

  /** The k-th row of the view is strictly earlier than the next one, or is the last. */
  ghost predicate CleanCut(view: seq<AuditRow>, k: nat) {
    0 < k <= |view| && (k < |view| ==> !NoLater(view[k], view[k - 1]))
  }

  /** After a clean cut, the rest of a view is an order of what the resumption selects. */
  lemma ResumedOrder(log: Log, view: seq<AuditRow>, k: nat)
    requires UniqueIds(log) && Orders(log, view) && CleanCut(view, k)
    ensures Orders(Selected(log, Some(view[k - 1].id)), view[k..])
  {
    SameElements(log, view);
    var checkpoint := view[k - 1];
    assert checkpoint in view;
    FindByIdFinds(log, checkpoint);
    var t := checkpoint.createdAt;
    CleanCutIsSuffix(view, k);
    assert multiset(LaterThan(log, t)) == multiset(LaterThan(view, t)) by {
      forall r
        ensures multiset(LaterThan(log, t))[r] == multiset(LaterThan(view, t))[r]
      {
        LaterThanCounts(log, t, r);
        LaterThanCounts(view, t, r);
      }
    }
  }

  lemma CleanCutIsSuffix(view: seq<AuditRow>, k: nat)
    requires Sorted(view) && CleanCut(view, k)
    ensures LaterThan(view, view[k - 1].createdAt) == view[k..]
  {
    forall i | 0 <= i < k
      ensures Ordinal(view[i].createdAt) <= Ordinal(view[k - 1].createdAt)
    {
      assert i < k - 1 ==> NoLater(view[i], view[k - 1]);
    }
    LaterThanSuffix(view, k, view[k - 1].createdAt);
  }

  // ---------------------------------------------------------------------------------------------
  // A run in two pieces
  // ---------------------------------------------------------------------------------------------

  /** Cursors that agree on what they expect differ only in what they count. */
  lemma {:induction false} ScanShifts(rows: seq<AuditRow>, c: Cursor, d: Cursor)
    requires !c.isFirst && !d.isFirst && c.previousHash == d.previousHash && c.checked >= d.checked
    ensures Scan(rows, c).valid == Scan(rows, d).valid
    ensures Scan(rows, c).firstInvalidEntryId == Scan(rows, d).firstInvalidEntryId
    ensures Scan(rows, c).lastHash == Scan(rows, d).lastHash
    ensures Scan(rows, c).checkedEntries - c.checked == Scan(rows, d).checkedEntries - d.checked
    decreases |rows|
  {
    if rows != [] {
      ScanShifts(rows[1..], Advance(c, rows[0]), Advance(d, rows[0]));
    }
  }

  /** The second report continues the first as the single one does: same verdict, culprit and closing hash. */
  ghost predicate Continues(first: Report, second: Report, single: Report) {
    && second.valid == single.valid
    && second.firstInvalidEntryId == single.firstInvalidEntryId
    && second.lastHash == single.lastHash
    && single.checkedEntries == first.checkedEntries + second.checkedEntries
  }

  /** Splitting a pass over a sequence at an accepted, nonempty head. */
  lemma ScanResumes(head: seq<AuditRow>, rest: seq<AuditRow>)
    requires head != [] && Scan(head, FRESH).valid
    ensures var first := Scan(head, FRESH);
            && first.lastCheckedId == Some(head[|head| - 1].id)
            && Continues(first, Scan(rest, StartCursor(first.lastCheckedId, first.lastHash)), Scan(head + rest, FRESH))
  {
    ScanAccepts(head, FRESH);
    AfterAccepted(head, FRESH);
    ScanSplits(head, rest, FRESH);
    ScanShifts(rest, After(head, FRESH), StartCursor(Some(head[|head| - 1].id), Scan(head, FRESH).lastHash));
  }

  lemma PassesInPieces(view: seq<AuditRow>, k: nat, m: nat)
    requires 0 < k <= |view| && Scan(Take(view, k), FRESH).valid
    ensures var first := Scan(Take(view, k), FRESH);
            && first.lastCheckedId == Some(view[k - 1].id)
            && Continues(first, Scan(Take(view[k..], m), StartCursor(first.lastCheckedId, first.lastHash)),
                         Scan(Take(view, k + m), FRESH))
  {
    TakesInPieces(view, k, m);
    ScanResumes(Take(view, k), Take(view[k..], m));
  }

  lemma TakesInPieces(view: seq<AuditRow>, k: nat, m: nat)
    requires k <= |view|
    ensures Take(view, k + m) == Take(view, k) + Take(view[k..], m)
  {
  }

  /**
   With a database that keeps one order: a run over the first k rows that ends valid at a clean cut,
   resumed from its report over the rest of that order, continues as a single run does.
   */
  lemma ResumeKeepsOrder(log: Log, view: seq<AuditRow>, k: nat, m: nat, first: Report)
    requires UniqueIds(log) && Orders(log, view) && CleanCut(view, k)
    requires first == Scan(Take(view, k), FRESH) && first.valid
    ensures Orders(Selected(log, first.lastCheckedId), view[k..])
    ensures Continues(first, Scan(Take(view[k..], m), StartCursor(first.lastCheckedId, first.lastHash)),
                      Scan(Take(view, k + m), FRESH))
  {
    ResumedOrder(log, view, k);
    PassesInPieces(view, k, m);
  }

  lemma TieFreeCutsAreClean(view: seq<AuditRow>, k: nat)
    requires TieFree(view) && UniqueIds(view) && Sorted(view) && 0 < k <= |view|
    ensures CleanCut(view, k)
  {
    if k < |view| {
      assert view[k] in view && view[k - 1] in view;
      assert NoLater(view[k - 1], view[k]);
    }
  }

  /**
   In a log without ties, whatever rows it holds: a valid run over k rows, resumed from what it
   reports, gives the verdict, the culprit and the closing hash of a single run over n = k + m rows.
   */
  lemma ResumeContinues(log: Log, k: nat, m: nat, n: nat, first: Report, second: Report, single: Report)
    requires UniqueIds(log) && TieFree(log) && 0 < k <= |log| && n == k + m
    requires MayAnswer(log, k, None, None, first) && first.valid
    requires MayAnswer(log, m, first.lastCheckedId, first.lastHash, second)
    requires MayAnswer(log, n, None, None, single)
    ensures Continues(first, second, single)
  {
    FromTheStart(log, k, first);
    ResumedFromFirst(log, k, m, n, first, second, single);
  }

  lemma ResumedFromFirst(log: Log, k: nat, m: nat, n: nat, first: Report, second: Report, single: Report)
    requires UniqueIds(log) && TieFree(log) && 0 < k <= |log| && n == k + m
    requires first == Scan(Take(ByTime(log), k), FRESH) && first.valid
    requires MayAnswer(log, m, first.lastCheckedId, first.lastHash, second)
    requires MayAnswer(log, n, None, None, single)
    ensures Continues(first, second, single)
  {
    FromTheStart(log, n, single);
    ResumedOnTime(log, k, m, first, second, single);
  }

  lemma ResumedOnTime(log: Log, k: nat, m: nat, first: Report, second: Report, single: Report)
    requires UniqueIds(log) && TieFree(log) && 0 < k <= |log|
    requires first == Scan(Take(ByTime(log), k), FRESH) && first.valid
    requires single == Scan(Take(ByTime(log), k + m), FRESH)
    requires MayAnswer(log, m, first.lastCheckedId, first.lastHash, second)
    ensures Continues(first, second, single)
  {
    TieFreeView(log, k);
    ResumedOnView(log, ByTime(log), k, m, first, second, single);
  }

  lemma FromTheStart(log: Log, m: int, report: Report)
    requires TieFree(log) && MayAnswer(log, m, None, None, report)
    ensures report == Scan(Take(ByTime(log), m), FRESH)
  {
    AnswerIsOnePass(log, m, None, None, report);
  }

  lemma TieFreeView(log: Log, k: nat)
    requires UniqueIds(log) && TieFree(log) && 0 < k <= |log|
    ensures Orders(log, ByTime(log)) && TieFree(ByTime(log)) && CleanCut(ByTime(log), k)
  {
    ByTimeOrders(log);
    SameElements(log, ByTime(log));
    OrderKeepsUniqueIds(log, ByTime(log));
    TieFreeCutsAreClean(ByTime(log), k);
  }

  lemma ResumedOnView(log: Log, view: seq<AuditRow>, k: nat, m: nat, first: Report, second: Report, single: Report)
    requires UniqueIds(log) && Orders(log, view) && TieFree(view) && CleanCut(view, k)
    requires first == Scan(Take(view, k), FRESH) && first.valid && single == Scan(Take(view, k + m), FRESH)
    requires MayAnswer(log, m, first.lastCheckedId, first.lastHash, second)
    ensures Continues(first, second, single)
  {
    PassesInPieces(view, k, m);
    ResumedOrder(log, view, k);
    ResumedAnswer(log, view, k, m, first, second);
  }

  lemma ResumedAnswer(log: Log, view: seq<AuditRow>, k: nat, m: nat, first: Report, second: Report)
    requires TieFree(view) && first.lastCheckedId.Some? && k <= |view|
    requires Orders(Selected(log, first.lastCheckedId), view[k..])
    requires MayAnswer(log, m, first.lastCheckedId, first.lastHash, second)
    ensures second == Scan(Take(view[k..], m), StartCursor(first.lastCheckedId, first.lastHash))
  {
    var rows := Selected(log, first.lastCheckedId);
    SameElements(rows, view[k..]);
    assert forall r | r in rows :: r in view;
    assert TieFree(rows);
    AnswerIsOnePass(log, m, first.lastCheckedId, first.lastHash, second);
    ByTimeOrders(rows);
    TieFreeOrder(rows, ByTime(rows), view[k..]);
  }

  lemma OrderKeepsUniqueIds(log: Log, view: seq<AuditRow>)
    requires UniqueIds(log) && Orders(log, view)
    ensures UniqueIds(view)
  {
    SameElements(log, view);
    forall i, j | 0 <= i < j < |view|
      ensures view[i].id != view[j].id
    {
      assert view[i] in log && view[j] in log;
      if view[i].id == view[j].id {
        TwiceInSeq(view, i, j);
        OnceInUnique(log, view[i]);
        assert false;
      }
    }
  }

  lemma TwiceInSeq(rows: seq<AuditRow>, i: nat, j: nat)
    requires i < j < |rows| && rows[i] == rows[j]
    ensures multiset(rows)[rows[i]] >= 2
  {
    assert rows == rows[..i] + [rows[i]] + rows[i + 1..j] + [rows[j]] + rows[j + 1..];
  }

  lemma {:induction false} OnceInUnique(log: Log, r: AuditRow)
    requires UniqueIds(log)
    ensures multiset(log)[r] <= 1
  {
    if log != [] {
      assert log == [log[0]] + log[1..];
      OnceInUnique(log[1..], r);
      if log[0] == r {
        assert r !in log[1..];
      }
    }
  }

  // ---------------------------------------------------------------------------------------------
  // Resuming in a sound log
  // ---------------------------------------------------------------------------------------------

  /** No row is later than the k-th. */
  ghost predicate NothingLater(log: Log, k: nat)
    requires 0 < k <= |log|
  {
    NoLater(log[|log| - 1], log[k - 1])
  }

  /** Where a resumption after row k picks up: behind every row that is not later than row k. */
  lemma ResumptionPoint(log: Log, k: nat) returns (n: nat)
    requires UniqueIds(log) && Sorted(log) && 0 < k <= |log|
    ensures k <= n <= |log|
    ensures Selected(log, Some(log[k - 1].id)) == log[n..]
    ensures n == k <==> CleanCut(log, k)
    ensures n == |log| <==> NothingLater(log, k)
  {
    var t := log[k - 1].createdAt;
    FindByIdFinds(log, log[k - 1]);
    n := CountNotLater(log, t);
    LaterThanSuffix(log, n, t);
    assert n >= k;
    if n < |log| {
      assert Ordinal(log[|log| - 1].createdAt) > Ordinal(t);
    } else {
      assert Ordinal(log[|log| - 1].createdAt) <= Ordinal(t);
    }
    if k < n {
      assert Ordinal(log[k].createdAt) <= Ordinal(t);
    }
  }

  /** The row of an accepted log that carries the hash of row q stands behind it. */
  lemma FollowerOf(log: Log, q: nat, r: AuditRow)
    requires UniqueIds(log) && Accepted(log) && q < |log| && r in log && r.prevHash == Some(HashOf(log[q]))
    ensures q + 1 < |log| && r == log[q + 1]
  {
    var p: nat :| p < |log| && log[p] == r;
    LinkedAt(log, None, p);
    SameHashSameRow(log, log[p - 1], log[q]);
    SamePlace(log, p - 1, q);
  }

  /** Rows of an accepted log that are linked behind row k are the rows behind row k, in their order. */
  lemma {:induction false} LinkedPieceIsInPlace(log: Log, read: seq<AuditRow>, k: nat, j: nat)
    requires UniqueIds(log) && Accepted(log) && 0 < k <= |log| && j < |read|
    requires Linked(read, Some(HashOf(log[k - 1]))) && forall i | 0 <= i < |read| :: read[i] in log
    ensures k + j < |log| && read[j] == log[k + j]
  {
    LinkedAt(read, Some(HashOf(log[k - 1])), j);
    if j > 0 {
      LinkedPieceIsInPlace(log, read, k, j - 1);
    }
    FollowerOf(log, k + j - 1, read[j]);
  }

  lemma PieceIsLinked(log: Log, k: nat, read: seq<AuditRow>)
    requires Accepted(log) && 0 < k && k + |read| <= |log| && read == log[k..k + |read|]
    ensures Linked(read, Some(HashOf(log[k - 1])))
  {
    forall i | 0 <= i < |read|
      ensures read[i].prevHash == Some(HashOf(log[k + i - 1]))
    {
      LinkedAt(log, None, k + i);
    }
  }

  /**
   Resuming behind row k of a sound log, from that row's id and hash. If no row is later, nothing is
   read and the answer is "valid". If the next row shares row k's timestamp and later rows exist, the
   tied row is skipped and every answer is "invalid". At a clean cut a valid answer has checked the
   rows that follow, in their order, and without further ties every answer is valid.
   */
  lemma ResumeOfSoundLog(log: Log, k: nat, m: nat, report: Report)
    requires UniqueIds(log) && Accepted(log) && Sorted(log) && 0 < k <= |log| && m > 0
    requires MayAnswer(log, m, Some(log[k - 1].id), Some(HashOf(log[k - 1])), report)
    ensures NothingLater(log, k) ==> report.valid && report.checkedEntries == 0
    ensures !NothingLater(log, k) && !CleanCut(log, k) ==> !report.valid
    ensures report.valid && !NothingLater(log, k) ==>
              && report.checkedEntries == Min(m, |log| - k) > 0
              && report.lastCheckedId == Some(log[k + report.checkedEntries - 1].id)
              && report.lastHash == Some(HashOf(log[k + report.checkedEntries - 1]))
    ensures CleanCut(log, k) && Increasing(log[k..]) ==> report.valid
  {
    var n := ResumptionPoint(log, k);
    var start := StartCursor(Some(log[k - 1].id), Some(HashOf(log[k - 1])));
    var orders, read :| Reports(log[n..], m, start, orders, read, report);
    ReadRowsAreSelected(log[n..], orders, read);
    ResumedReading(log, k, n, m, read, report);
    if k == n && Increasing(log[k..]) {
      CleanResumption(log, k, orders, read);
      ScanAccepts(read, start);
    }
  }

  lemma ResumedReading(log: Log, k: nat, n: nat, m: nat, read: seq<AuditRow>, report: Report)
    requires UniqueIds(log) && Accepted(log) && 0 < k <= n <= |log| && m > 0
    requires forall j | 0 <= j < |read| :: read[j] in log[n..]
    requires report == Scan(read, StartCursor(Some(log[k - 1].id), Some(HashOf(log[k - 1]))))
    requires |read| <= Min(m, |log| - n) && (report.valid ==> |read| == Min(m, |log| - n))
    ensures n == |log| ==> report.valid && report.checkedEntries == 0
    ensures report.valid && n < |log| ==>
              && n == k && report.checkedEntries == Min(m, |log| - k) > 0
              && report.lastCheckedId == Some(log[k + report.checkedEntries - 1].id)
              && report.lastHash == Some(HashOf(log[k + report.checkedEntries - 1]))
  {
    ResumedReport(read, log[k - 1].id, HashOf(log[k - 1]), report);
    if n < |log| && report.valid {
      ValidResumption(log, k, n, m, read);
    }
  }

  lemma ResumedReport(read: seq<AuditRow>, id: Uuid, hash: Digest, report: Report)
    requires report == Scan(read, StartCursor(Some(id), Some(hash)))
    ensures report.valid <==> Linked(read, Some(hash))
    ensures report.valid ==> report.checkedEntries == |read|
    ensures report.valid && read != [] ==>
              && report.lastCheckedId == Some(read[|read| - 1].id)
              && report.lastHash == Some(HashOf(read[|read| - 1]))
  {
    ScanAccepts(read, StartCursor(Some(id), Some(hash)));
  }

  lemma ValidResumption(log: Log, k: nat, n: nat, m: nat, read: seq<AuditRow>)
    requires UniqueIds(log) && Accepted(log) && 0 < k <= n < |log|
    requires Linked(read, Some(HashOf(log[k - 1]))) && forall j | 0 <= j < |read| :: read[j] in log[n..]
    requires |read| == Min(m, |log| - n) > 0
    ensures n == k && read[|read| - 1] == log[k + |read| - 1]
  {
    assert forall j | 0 <= j < |read| :: read[j] in log;
    LinkedPieceIsInPlace(log, read, k, |read| - 1);
    LinkedPieceIsInPlace(log, read, k, 0);
    FirstOfRest(log, n, read[0], k);
  }

  lemma CleanResumption(log: Log, k: nat, orders: seq<seq<AuditRow>>, read: seq<AuditRow>)
    requires Accepted(log) && 0 < k <= |log| && Increasing(log[k..]) && MayRead(log[k..], orders, read)
    ensures Linked(read, Some(HashOf(log[k - 1])))
  {
    IncreasingIsTieFree(log[k..]);
    ReadsThePrefix(log[k..], orders, read);
    SortedIsFixed(log[k..]);
    assert read == log[k..k + |read|];
    PieceIsLinked(log, k, read);
  }

  lemma FirstOfRest(log: Log, n: nat, r: AuditRow, k: nat)
    requires UniqueIds(log) && n < |log| && r in log[n..] && k < |log| && r == log[k]
    ensures n <= k
  {
    var j :| 0 <= j < |log[n..]| && log[n..][j] == r;
    SamePlace(log, n + j, k);
  }

  /** A genuine log of three rows, of which the first two share a timestamp, each following the one before it. */
  function TwinLog(input: AuditInput, a: Uuid, b: Uuid, c: Uuid, t: Timestamp, u: Timestamp): Log {
    Build([Record(input, a, t, 0), Record(input, b, t, 0), Record(input, c, u, 1)])
  }

  function Stored(input: AuditInput, id: Uuid, at: Timestamp, prevHash: Option<Digest>): AuditRow {
    AuditRow(id, input.actorId, input.action, input.resourceType, input.resourceId, Obj(RedactEntries(input.details)),
             input.ipAddress, at, prevHash)
  }

  lemma AppendStores(log: Log, input: AuditInput, id: Uuid, at: Timestamp, last: nat)
    requires !Taken(log, id) && (log == [] || IsLatest(log, last))
    ensures Append(log, input, id, at, last) == log + [Stored(input, id, at, PrevHashFor(log, last))]
  {
  }

  lemma TwinLogRows(input: AuditInput, a: Uuid, b: Uuid, c: Uuid, t: Timestamp, u: Timestamp)
    requires a != b && b != c && a != c && Ordinal(t) < Ordinal(u)
    ensures var first := Stored(input, a, t, None);
            var second := Stored(input, b, t, Some(HashOf(first)));
            TwinLog(input, a, b, c, t, u) == [first, second, Stored(input, c, u, Some(HashOf(second)))]
  {
    var first := Stored(input, a, t, None);
    var second := Stored(input, b, t, Some(HashOf(first)));
    BuildThree(Record(input, a, t, 0), Record(input, b, t, 0), Record(input, c, u, 1));
    assert Append([], input, a, t, 0) == [first];
    AppendSecond(first, input, b, t);
    AppendThird(first, second, input, c, u);
  }

  lemma AppendSecond(first: AuditRow, input: AuditInput, id: Uuid, at: Timestamp)
    requires id != first.id
    ensures Append([first], input, id, at, 0) == [first, Stored(input, id, at, Some(HashOf(first)))]
  {
    AppendStores([first], input, id, at, 0);
  }

  lemma AppendThird(first: AuditRow, second: AuditRow, input: AuditInput, id: Uuid, at: Timestamp)
    requires id != first.id && id != second.id && NoLater(first, second)
    ensures Append([first, second], input, id, at, 1) == [first, second, Stored(input, id, at, Some(HashOf(second)))]
  {
    AppendStores([first, second], input, id, at, 1);
  }

  lemma TwinLogIsSound(log: Log)
    requires |log| == 3 && log[0].id != log[1].id && log[0].id != log[2].id && log[1].id != log[2].id
    requires log[0].createdAt == log[1].createdAt && !NoLater(log[2], log[0])
    requires log[0].prevHash.None? && Follows(log, 1) && Follows(log, 2)
    ensures UniqueIds(log) && Accepted(log) && Sorted(log) && !NothingLater(log, 1) && !CleanCut(log, 1)
  {
  }

  /** Such a log is accepted, and resumed behind its first row it is always rejected. */
  lemma SkippedTwinIsRejected(input: AuditInput, a: Uuid, b: Uuid, c: Uuid, t: Timestamp, u: Timestamp, m: nat,
                              report: Report)
    requires a != b && b != c && a != c && Ordinal(t) < Ordinal(u) && m > 0
    requires MayAnswer(TwinLog(input, a, b, c, t, u), m, Some(a), Some(ComputeHash(a, input.action, t)), report)
    ensures Scan(TwinLog(input, a, b, c, t, u), FRESH).valid && !report.valid
  {
    TwinLogRows(input, a, b, c, t, u);
    TwinLogIsSound(TwinLog(input, a, b, c, t, u));
    ScanAccepts(TwinLog(input, a, b, c, t, u), FRESH);
    ResumeOfSoundLog(TwinLog(input, a, b, c, t, u), 1, m, report);
  }

  /** A resumption behind a row that is not stored reads nothing and is always answered "valid". */
  lemma UnknownCheckpointIsValid(log: Log, id: Uuid, m: int, expected: Option<Digest>, report: Report)
    requires forall r | r in log :: r.id != id
    requires MayAnswer(log, m, Some(id), expected, report)
    ensures report == Report(true, 0, 0, None, None, expected)
  {
    FindsNothing(log, id);
    var orders, read :| Reports([], m, StartCursor(Some(id), expected), orders, read, report);
    assert read == [];
  }

  lemma {:induction false} FindsNothing(log: Log, id: Uuid)
    requires forall r | r in log :: r.id != id
    ensures FindById(log, id).None?
  {
    if log != [] {
      assert log[0] in log;
      assert forall r | r in log[1..] :: r in log;
      FindsNothing(log[1..], id);
    }
  }
}
