/**
 What the answers of verifyAuditChain mean (apps/server/src/modules/audit/audit.service.ts:89-262),
 whatever order the database gives to rows with equal timestamps, in each of its queries.
 */
module AuditVerdicts {
  import opened AuditChain
  import opened AuditServices
  import opened AuditText
  import opened Common
  import opened Permutations
  import opened Redaction

  // ---------------------------------------------------------------------------------------------
  // Readings
  // ---------------------------------------------------------------------------------------------

  lemma ReadRowsAreSelected(rows: seq<AuditRow>, orders: seq<seq<AuditRow>>, read: seq<AuditRow>)
    requires MayRead(rows, orders, read)
    ensures forall j | 0 <= j < |read| :: read[j] in rows
  {
    forall j | 0 <= j < |read|
      ensures read[j] in rows
    {
      SameElements(rows, orders[j / BATCH_SIZE]);
    }
  }

  /** A database that keeps one order for all pages lets the verifier read a prefix of it. */
  lemma SteadyOrder(log: Log, m: int, afterId: Option<Uuid>, expected: Option<Digest>, view: seq<AuditRow>)
    requires Orders(Selected(log, afterId), view)
    ensures MayAnswer(log, m, afterId, expected, Scan(Take(view, m), StartCursor(afterId, expected)))
  {
    SameElements(Selected(log, afterId), view);
    var orders := seq(|view| / BATCH_SIZE + 1, _ => view);
    assert Reports(Selected(log, afterId), m, StartCursor(afterId, expected), orders, Take(view, m),
                   Scan(Take(view, m), StartCursor(afterId, expected)));
  }

  /** What one recursive pass over the first maxEntries rows reports. */
  function OnePass(log: Log, maxEntries: int, afterId: Option<Uuid>, expected: Option<Digest>): Report {
    Scan(Take(ByTime(Selected(log, afterId)), maxEntries), StartCursor(afterId, expected))
  }

  /** Without ties among the selected rows the paged verifier has one answer, that of a single recursive pass. */
  lemma AnswerIsOnePass(log: Log, m: int, afterId: Option<Uuid>, expected: Option<Digest>, report: Report)
    requires TieFree(Selected(log, afterId))
    ensures MayAnswer(log, m, afterId, expected, report) <==> report == OnePass(log, m, afterId, expected)
  {
    var rows := Selected(log, afterId);
    var start := StartCursor(afterId, expected);
    ByTimeOrders(rows);
    SteadyOrder(log, m, afterId, expected, ByTime(rows));
    if MayAnswer(log, m, afterId, expected, report) {
      var orders, read :| Reports(rows, m, start, orders, read, report);
      ReadsThePrefix(rows, orders, read);
      var all := Take(ByTime(rows), m);
      SameElements(rows, ByTime(rows));
      assert all == read + all[|read|..];
      ScanSplits(read, all[|read|..], start);
      assert report.valid ==> read == all;
    }
  }

  lemma ReadsThePrefix(rows: seq<AuditRow>, orders: seq<seq<AuditRow>>, read: seq<AuditRow>)
    requires TieFree(rows) && MayRead(rows, orders, read)
    ensures read <= ByTime(rows)
  {
    ByTimeOrders(rows);
    var view := ByTime(rows);
    ReadingsFit(rows, orders, read);
    SameElements(rows, view);
    forall j | 0 <= j < |read|
      ensures read[j] == view[j]
    {
      TieFreeOrder(rows, orders[j / BATCH_SIZE], view);
    }
    assert read == view[..|read|];
  }

  lemma ReadingsFit(rows: seq<AuditRow>, orders: seq<seq<AuditRow>>, read: seq<AuditRow>)
    requires MayRead(rows, orders, read)
    ensures |read| <= |rows|
  {
    if read != [] {
      var j := |read| - 1;
      SameElements(rows, orders[j / BATCH_SIZE]);
    }
  }

  // ---------------------------------------------------------------------------------------------
  // Whole logs
  // ---------------------------------------------------------------------------------------------

  function Time(r: AuditRow): int {
    Ordinal(r.createdAt)
  }

  /** All orders of the same rows show the same timestamps in the same places. */
  lemma SameTimes(rows: seq<AuditRow>, view: seq<AuditRow>, other: seq<AuditRow>)
    requires Orders(rows, view) && Orders(rows, other)
    ensures |view| == |other| && forall j | 0 <= j < |view| :: Time(view[j]) == Time(other[j])
  {
    SameElements(view, other);
    MapKeepsMultiset(Time, view, other);
    assert forall i, j | 0 <= i < j < |view| :: NoLater(view[i], view[j]);
    assert forall i, j | 0 <= i < j < |other| :: NoLater(other[i], other[j]);
    AscendingIsUnique(MapSeq(Time, view), MapSeq(Time, other));
    assert forall j | 0 <= j < |view| :: MapSeq(Time, view)[j] == MapSeq(Time, other)[j];
  }

  lemma ReadingsAreSorted(rows: seq<AuditRow>, orders: seq<seq<AuditRow>>, read: seq<AuditRow>)
    requires MayRead(rows, orders, read)
    ensures Sorted(read)
  {
    forall i, j | 0 <= i < j < |read|
      ensures NoLater(read[i], read[j])
    {
      SameTimes(rows, orders[i / BATCH_SIZE], orders[j / BATCH_SIZE]);
      assert NoLater(orders[j / BATCH_SIZE][i], orders[j / BATCH_SIZE][j]);
    }
  }

  /** A valid answer about a whole built log comes of reading it in the order of storing, which is then sorted. */
  lemma ValidAnswerReadsTheLog(log: Log, m: int, report: Report)
    requires WellBuilt(log) && m >= |log| && MayAnswer(log, m, None, None, report) && report.valid
    ensures Sorted(log) && Accepted(log) && report == Scan(log, FRESH)
  {
    var orders, read :| Reports(log, m, FRESH, orders, read, report);
    ReadRowsAreSelected(log, orders, read);
    ReadingsAreSorted(log, orders, read);
    ScanAccepts(read, FRESH);
    AcceptedReadingIsTheLog(log, read);
  }

  function Swap(log: Log, i: nat): Log
    requires i + 1 < |log|
  {
    log[i := log[i + 1]][i + 1 := log[i]]
  }

  lemma SwappedTieIsAnOrder(log: Log, i: nat)
    requires Sorted(log) && i + 1 < |log| && NoLater(log[i + 1], log[i])
    ensures Orders(log, Swap(log, i))
  {
    SwapKeepsElements(log, i);
    var swapped := Swap(log, i);
    forall j, k | 0 <= j < k < |log|
      ensures NoLater(swapped[j], swapped[k])
    {
      if j == i && k == i + 1 {
        assert swapped[j] == log[i + 1] && swapped[k] == log[i];
      } else {
        var p := if j == i then i + 1 else if j == i + 1 then i else j;
        var q := if k == i then i + 1 else if k == i + 1 then i else k;
        assert p < q && swapped[j] == log[p] && swapped[k] == log[q];
      }
    }
  }

  lemma SwapKeepsElements(log: Log, i: nat)
    requires i + 1 < |log|
    ensures multiset(Swap(log, i)) == multiset(log)
  {
    var front, back := log[..i], log[i + 2..];
    assert log == front + [log[i], log[i + 1]] + back;
    assert Swap(log, i) == front + [log[i + 1], log[i]] + back;
  }

  lemma {:induction false} SortedWithoutTiesInARow(log: Log, i: nat, j: nat)
    requires Sorted(log) && i < j < |log|
    requires forall k | 0 <= k < |log| - 1 :: !NoLater(log[k + 1], log[k])
    ensures !NoLater(log[j], log[i])
  {
    if i + 1 < j {
      SortedWithoutTiesInARow(log, i, j - 1);
      assert NoLater(log[j - 1], log[j]);
    } else {
      assert !NoLater(log[i + 1], log[i]);
    }
  }

  /** A log that is not strictly increasing has an order other than that of its storing. */
  lemma AnotherOrder(log: Log) returns (view: seq<AuditRow>)
    requires UniqueIds(log) && !Increasing(log)
    ensures Orders(log, view) && view != log
  {
    ByTimeOrders(log);
    view := ByTime(log);
    if Sorted(log) {
      if forall k | 0 <= k < |log| - 1 :: !NoLater(log[k + 1], log[k]) {
        forall i, j | 0 <= i < j < |log|
          ensures !NoLater(log[j], log[i])
        {
          SortedWithoutTiesInARow(log, i, j);
        }
        assert false;
      }
      var k :| 0 <= k < |log| - 1 && NoLater(log[k + 1], log[k]);
      SwappedTieIsAnOrder(log, k);
      view := Swap(log, k);
      assert view[k].id == log[k + 1].id;
    }
  }

  /** A sorted, accepted log has a valid answer. */
  lemma AcceptedInOrder(log: Log, m: int)
    requires Sorted(log) && Accepted(log) && m >= |log|
    ensures MayAnswer(log, m, None, None, Scan(log, FRESH)) && Scan(log, FRESH).valid
  {
    SteadyOrder(log, m, None, None, log);
    assert Take(log, m) == log;
    ScanAccepts(log, FRESH);
  }

  /** An increasing, accepted log has valid answers only. */
  lemma AcceptedAlways(log: Log, m: int, report: Report)
    requires Increasing(log) && Accepted(log) && m >= |log| && MayAnswer(log, m, None, None, report)
    ensures report.valid
  {
    IncreasingIsTieFree(log);
    AnswerIsOnePass(log, m, None, None, report);
    SortedIsFixed(log);
    assert Take(log, m) == log;
    ScanAccepts(log, FRESH);
  }

  /**
   The verdict on a log written by createAuditLog calls, with any anonymisations in between, checked to
   its end. If its timestamps strictly increase, every check accepts it; otherwise some order of the
   rows makes a check reject it. If a timestamp went back, every check rejects it. In between, with
   ties, some check accepts it exactly if every row happened to follow the one stored before it.
   */
  lemma VerdictOfBuiltLog(ops: seq<Op>, m: int)
    requires m >= |Build(ops)|
    ensures var log := Build(ops);
            && ((forall report | MayAnswer(log, m, None, None, report) :: report.valid) <==> Increasing(log))
            && ((exists report :: MayAnswer(log, m, None, None, report) && report.valid)
                <==> Sorted(log) && Accepted(log))
            && (Increasing(log) ==> Sorted(log) && Accepted(log))
  {
    var log := Build(ops);
    BuiltIsWellBuilt(ops);
    if Increasing(log) {
      IncreasingIsAccepted(log);
      IncreasingIsTieFree(log);
      forall report | MayAnswer(log, m, None, None, report)
        ensures report.valid
      {
        AcceptedAlways(log, m, report);
      }
    } else {
      var report := SomeCheckRejects(log, m);
    }
    if Sorted(log) && Accepted(log) {
      AcceptedInOrder(log, m);
    }
    if report :| MayAnswer(log, m, None, None, report) && report.valid {
      ValidAnswerReadsTheLog(log, m, report);
    }
  }

  lemma SomeCheckRejects(log: Log, m: int) returns (report: Report)
    requires WellBuilt(log) && !Increasing(log) && m >= |log|
    ensures MayAnswer(log, m, None, None, report) && !report.valid
  {
    var view := AnotherOrder(log);
    SteadyOrder(log, m, None, None, view);
    SameElements(log, view);
    assert Take(view, m) == view;
    report := Scan(view, FRESH);
    ScanAccepts(view, FRESH);
    if Accepted(view) {
      AcceptedReadingIsTheLog(log, view);
    }
  }

  lemma IncreasingIsTieFree(log: Log)
    requires Increasing(log)
    ensures TieFree(log) && Sorted(log)
  {
    forall r, q | r in log && q in log && NoLater(r, q) && NoLater(q, r)
      ensures r == q
    {
      var i :| 0 <= i < |log| && log[i] == r;
      var j :| 0 <= j < |log| && log[j] == q;
      assert i == j;
    }
  }

  // ---------------------------------------------------------------------------------------------
  // Logs that the check fails, or may fail
  // ---------------------------------------------------------------------------------------------

  lemma BuildOne(op: Op)
    ensures Build([op]) == Apply([], op)
  {
    assert [op][..0] == [];
  }

  lemma BuildTwo(first: Op, second: Op)
    ensures Build([first, second]) == Apply(Apply([], first), second)
  {
    assert [first, second][..1] == [first];
    BuildOne(first);
  }

  lemma BuildThree(first: Op, second: Op, third: Op)
    ensures Build([first, second, third]) == Apply(Apply(Apply([], first), second), third)
  {
    assert [first, second, third][..2] == [first, second];
    BuildTwo(first, second);
  }

  /** A genuine log of two rows, the second stamped by a clock that was set back: no check accepts it. */
  lemma ClockSetBackIsRejected(input: AuditInput, a: Uuid, b: Uuid, t: Timestamp, u: Timestamp, report: Report)
    requires a != b && Ordinal(u) < Ordinal(t)
    requires MayAnswer(Build([Record(input, a, t, 0), Record(input, b, u, 0)]), 10_000, None, None, report)
    ensures !report.valid
  {
    var ops := [Record(input, a, t, 0), Record(input, b, u, 0)];
    BuildTwo(ops[0], ops[1]);
    VerdictOfBuiltLog(ops, 10_000);
    assert !NoLater(Build(ops)[0], Build(ops)[1]);
  }

  /** A genuine log of two rows with one timestamp: some check accepts it and some check rejects it. */
  lemma TwinTimestampsGoEitherWay(input: AuditInput, a: Uuid, b: Uuid, t: Timestamp) returns (yes: Report, no: Report)
    requires a != b
    ensures var log := Build([Record(input, a, t, 0), Record(input, b, t, 0)]);
            MayAnswer(log, 10_000, None, None, yes) && yes.valid && MayAnswer(log, 10_000, None, None, no) && !no.valid
  {
    var ops := [Record(input, a, t, 0), Record(input, b, t, 0)];
    BuildTwo(ops[0], ops[1]);
    BuiltIsWellBuilt(ops);
    var log := Build(ops);
    AcceptedInOrder(log, 10_000);
    yes := Scan(log, FRESH);
    assert NoLater(log[1], log[0]);
    no := SomeCheckRejects(log, 10_000);
  }

  /** If a third row happens to follow the first of two twins, the genuine log is lost: no check accepts it. */
  lemma TieCanLoseTheChain(input: AuditInput, a: Uuid, b: Uuid, c: Uuid, t: Timestamp, u: Timestamp, report: Report)
    requires a != b && b != c && a != c && Ordinal(t) < Ordinal(u)
    requires MayAnswer(Build([Record(input, a, t, 0), Record(input, b, t, 0), Record(input, c, u, 0)]), 10_000,
                       None, None, report)
    ensures !report.valid
  {
    var ops := [Record(input, a, t, 0), Record(input, b, t, 0), Record(input, c, u, 0)];
    LostLogSkips(input, a, b, c, t, u);
    BuiltIsWellBuilt(ops);
    ThirdSkipsSecond(Build(ops));
    VerdictOfBuiltLog(ops, 10_000);
  }

  lemma LostLogSkips(input: AuditInput, a: Uuid, b: Uuid, c: Uuid, t: Timestamp, u: Timestamp)
    requires a != b && b != c && a != c && Ordinal(t) < Ordinal(u)
    ensures var log := Build([Record(input, a, t, 0), Record(input, b, t, 0), Record(input, c, u, 0)]);
            |log| == 3 && log[2].prevHash == Some(HashOf(log[0]))
  {
    BuildThree(Record(input, a, t, 0), Record(input, b, t, 0), Record(input, c, u, 0));
  }

  lemma ThirdSkipsSecond(log: Log)
    requires UniqueIds(log) && |log| == 3 && log[2].prevHash == Some(HashOf(log[0]))
    ensures !Accepted(log)
  {
    if Accepted(log) {
      LinkedAt(log, None, 2);
      SameHashSameRow(log, log[0], log[1]);
    }
  }

  // ---------------------------------------------------------------------------------------------
  // What a cap leaves unread
  // ---------------------------------------------------------------------------------------------

  lemma PrefixIsWellBuilt(log: Log, m: nat)
    requires WellBuilt(log) && m <= |log|
    ensures WellBuilt(log[..m])
  {
    forall i | 0 <= i < m
      ensures FollowsLatest(log[..m], i)
    {
      assert FollowsLatest(log, i);
      assert log[..m][..i] == log[..i];
    }
  }

  lemma SortedTieFreeIsIncreasing(rows: seq<AuditRow>)
    requires Sorted(rows) && TieFree(rows) && UniqueIds(rows)
    ensures Increasing(rows)
  {
    forall i, j | 0 <= i < j < |rows|
      ensures !NoLater(rows[j], rows[i])
    {
      assert rows[i] in rows && rows[j] in rows;
      assert NoLater(rows[i], rows[j]);
    }
  }

  /** In an accepted head of the view of a tie-free log each row is the one stored at its place. */
  lemma {:induction false} AcceptedHeadIsInPlace(log: Log, view: seq<AuditRow>, m: nat, idx: seq<nat>, k: nat)
    requires WellBuilt(log) && TieFree(log) && Orders(log, view)
    requires m <= |view| && Accepted(view[..m]) && Locates(log, view[..m], idx) && k < m
    ensures forall j | 0 <= j <= k :: j < |log| && view[j] == log[j]
  {
    if k == 0 {
      AcceptedStartsAtTheStart(log, view[..m], idx);
    } else {
      AcceptedHeadIsInPlace(log, view, m, idx, k - 1);
      SamePlace(log, idx[k - 1], k - 1);
      AcceptedStepGoesForward(log, view[..m], idx, k);
      NoRowIsSkipped(log, view, idx[k], k);
    }
  }

  /** If the view agrees with the log below k, and row k - 1 is the latest below j, then j is k. */
  lemma NoRowIsSkipped(log: Log, view: seq<AuditRow>, j: nat, k: nat)
    requires UniqueIds(log) && TieFree(log) && Orders(log, view)
    requires 0 < k <= j < |log| && IsLatest(log[..j], k - 1)
    requires forall i | 0 <= i < k :: i < |view| && view[i] == log[i]
    ensures j == k
  {
    if k < j {
      assert NoLater(log[..j][k], log[..j][k - 1]);
      SameElements(log, view);
      assert log[k] in log && log[k - 1] in log;
      var p := PlaceIn(log, view, k);
    }
  }

  /**
   A capped check of a built log without ties is valid exactly if the rows that come first in time,
   as many as the cap, are those that were stored first, in that order. The rest is not judged.
   */
  lemma CappedVerdict(ops: seq<Op>, m: nat, report: Report)
    requires TieFree(Build(ops)) && m <= |Build(ops)| && MayAnswer(Build(ops), m, None, None, report)
    ensures report.valid <==> Take(ByTime(Build(ops)), m) == Build(ops)[..m]
    ensures report.valid ==> report.checkedEntries == m
  {
    var log := Build(ops);
    BuiltIsWellBuilt(ops);
    AnswerIsOnePass(log, m, None, None, report);
    ByTimeOrders(log);
    SameElements(log, ByTime(log));
    var read := ByTime(log)[..m];
    assert Take(ByTime(log), m) == read;
    ScanAccepts(read, FRESH);
    if report.valid {
      forall k: nat | k < m
        ensures read[k] == log[k]
      {
        var idx := Positions(log, read);
        AcceptedHeadIsInPlace(log, ByTime(log), m, idx, k);
      }
    }
    if read == log[..m] {
      PrefixIsWellBuilt(log, m);
      assert Sorted(read) && TieFree(read);
      SortedTieFreeIsIncreasing(read);
      IncreasingIsAccepted(read);
    }
  }

  lemma {:induction false} PlaceKeepsHead(sorted: seq<AuditRow>, r: AuditRow, m: nat)
    requires m <= |sorted| && (m > 0 ==> NoLater(sorted[m - 1], r))
    ensures m <= |Place(sorted, r)| && Place(sorted, r)[..m] == sorted[..m]
  {
    if sorted != [] && !NoLater(sorted[|sorted| - 1], r) {
      PlaceKeepsHead(sorted[..|sorted| - 1], r, m);
    }
  }

  /** Rows that are not earlier than a sorted head stay behind it. */
  lemma {:induction false} ByTimeKeepsHead(log: Log, m: nat)
    requires m <= |log| && Sorted(log[..m])
    requires forall k | m <= k < |log| :: m > 0 ==> NoLater(log[m - 1], log[k])
    ensures m <= |ByTime(log)| && ByTime(log)[..m] == log[..m]
    decreases |log|
  {
    if m == |log| {
      assert log[..m] == log;
      SortedIsFixed(log);
    } else {
      var init := log[..|log| - 1];
      assert init[..m] == log[..m];
      ByTimeKeepsHead(init, m);
      assert m > 0 ==> ByTime(init)[m - 1] == ByTime(init)[..m][m - 1] == log[m - 1];
      PlaceKeepsHead(ByTime(init), log[|log| - 1], m);
    }
  }

  /** Whatever is done to a row behind the cap, short of moving it before it, no answer changes. */
  lemma CapLeavesRestUnread(log: Log, i: nat, r: AuditRow, m: nat, report: Report)
    requires Increasing(log) && m <= i < |log| && TieFree(log[i := r])
    requires m > 0 ==> !NoLater(r, log[m - 1])
    ensures MayAnswer(log[i := r], m, None, None, report) <==> MayAnswer(log, m, None, None, report)
  {
    var edited := log[i := r];
    IncreasingIsTieFree(log);
    AnswerIsOnePass(log, m, None, None, report);
    AnswerIsOnePass(edited, m, None, None, report);
    assert edited[..m] == log[..m];
    ByTimeKeepsHead(log, m);
    ByTimeKeepsHead(edited, m);
    assert Take(ByTime(edited), m) == log[..m] == Take(ByTime(log), m);
  }

  // ---------------------------------------------------------------------------------------------
  // Edits and deletions
  // ---------------------------------------------------------------------------------------------

  lemma {:induction false} NoRepeats(rows: seq<AuditRow>, read: seq<AuditRow>, p: nat, q: nat)
    requires UniqueIds(rows) && Accepted(read) && p < q < |read|
    requires forall k | 0 <= k < |read| :: read[k] in rows
    ensures read[p] != read[q]
  {
    LinkedAt(read, None, p);
    LinkedAt(read, None, q);
    if p > 0 && read[p] == read[q] {
      SameHashSameRow(rows, read[p - 1], read[q - 1]);
      NoRepeats(rows, read, p - 1, q - 1);
    }
  }

  /** A reading without repeats that is as long as the table leaves no row out. */
  lemma CoversAll(rows: seq<AuditRow>, read: seq<AuditRow>, r: AuditRow)
    requires |read| == |rows| && (forall k | 0 <= k < |read| :: read[k] in rows)
    requires forall p, q | 0 <= p < q < |read| :: read[p] != read[q]
    requires r in rows
    ensures r in read
  {
    var some, all := set x | x in read, set x | x in rows;
    DistinctCount(read);
    CountAtMost(rows);
    assert some <= all;
    if r !in read {
      assert some <= all - {r};
      SmallerSet(some, all - {r});
    }
  }

  lemma SmallerSet(a: set<AuditRow>, b: set<AuditRow>)
    requires a <= b
    ensures |a| <= |b|
  {
    assert b == a + (b - a);
  }

  lemma {:induction false} DistinctCount(rows: seq<AuditRow>)
    requires forall p, q | 0 <= p < q < |rows| :: rows[p] != rows[q]
    ensures |set x | x in rows| == |rows|
  {
    if rows != [] {
      var n := |rows| - 1;
      DistinctCount(rows[..n]);
      assert (set x | x in rows) == (set x | x in rows[..n]) + {rows[n]};
    }
  }

  lemma {:induction false} CountAtMost(rows: seq<AuditRow>)
    ensures |set x | x in rows| <= |rows|
  {
    if rows != [] {
      var n := |rows| - 1;
      CountAtMost(rows[..n]);
      assert (set x | x in rows) == (set x | x in rows[..n]) + {rows[n]};
    }
  }

  ghost predicate Edits(log: Log, i: nat, r: AuditRow) {
    UniqueIds(log) && Accepted(log) && i < |log| && UniqueIds(log[i := r])
  }

  /** The row before log[k] in an accepted reading of the edited log stands at place k - 1 there. */
  lemma PredecessorInPlace(log: Log, i: nat, r: AuditRow, k: nat, x: AuditRow)
    requires Edits(log, i, r) && 0 < k < |log| && k != i
    requires x in log[i := r] && log[k].prevHash == Some(HashOf(x))
    ensures x == log[i := r][k - 1] && HashOf(x) == HashOf(log[k - 1])
  {
    LinkedAt(log, None, k);
    HashDetermines(x.id, x.action, x.createdAt, log[k - 1].id, log[k - 1].action, log[k - 1].createdAt);
    var edited := log[i := r];
    var p :| 0 <= p < |edited| && edited[p] == x;
    assert x.id == log[k - 1].id;
    assert p != i ==> log[p].id == log[k - 1].id;
    assert k - 1 != i ==> edited[k - 1].id == edited[p].id;
  }

  ghost predicate WholeReading(rows: seq<AuditRow>, read: seq<AuditRow>) {
    |read| == |rows| && forall k | 0 <= k < |read| :: read[k] in rows
  }

  lemma PlaceIn(rows: seq<AuditRow>, read: seq<AuditRow>, k: nat) returns (p: nat)
    requires k < |rows| && forall x | x in rows :: x in read
    ensures p < |read| && read[p] == rows[k]
  {
    assert rows[k] in rows;
    assert rows[k] in read;
    p :| 0 <= p < |read| && read[p] == rows[k];
  }

  lemma FirstInPlace(log: Log, i: nat, r: AuditRow, read: seq<AuditRow>)
    requires Edits(log, i, r) && Accepted(read) && WholeReading(log[i := r], read)
    requires forall x | x in log[i := r] :: x in read
    ensures read[0] == log[i := r][0]
  {
    var edited := log[i := r];
    LinkedAt(log, None, 0);
    if i == 0 {
      LinkedAt(read, None, 0);
      var q :| 0 <= q < |edited| && edited[q] == read[0];
      LinkedAt(log, None, q);
    } else {
      var p := PlaceIn(edited, read, 0);
      LinkedAt(read, None, p);
    }
  }

  lemma NextInPlace(log: Log, i: nat, r: AuditRow, read: seq<AuditRow>, k: nat)
    requires Edits(log, i, r) && Accepted(read) && WholeReading(log[i := r], read) && 0 < k < |read|
    requires forall x | x in log[i := r] :: x in read
    requires forall j | 0 <= j < k :: read[j] == log[i := r][j]
    ensures read[k] == log[i := r][k]
  {
    if k == i {
      EditedRowInPlace(log, i, r, read);
    } else {
      var p := PlaceIn(log[i := r], read, k);
      LaterPlace(log[i := r], read, k, p);
      LinkedAt(read, None, p);
      PredecessorInPlace(log, i, r, k, read[p - 1]);
      if p > k {
        NoRepeats(log[i := r], read, k - 1, p - 1);
      }
    }
  }

  /** A row that the edited log holds at k or behind cannot be read before place k if the reading agrees up to there. */
  lemma LaterPlace(rows: seq<AuditRow>, read: seq<AuditRow>, k: nat, p: nat)
    requires UniqueIds(rows) && k < |rows| && p < |read| && read[p] == rows[k]
    requires forall j | 0 <= j < k :: j < |read| && read[j] == rows[j]
    ensures p >= k
  {
  }

  /** If everything before it is in place, the edited row is too: any other row would follow another one. */
  lemma EditedRowInPlace(log: Log, i: nat, r: AuditRow, read: seq<AuditRow>)
    requires Edits(log, i, r) && Accepted(read) && WholeReading(log[i := r], read) && 0 < i < |read|
    requires forall j | 0 <= j < i :: read[j] == log[i := r][j]
    ensures read[i] == r
  {
    var edited := log[i := r];
    LinkedAt(read, None, i);
    assert read[i] in edited;
    var q: nat :| q < |edited| && edited[q] == read[i];
    if q < i {
      NoRepeats(edited, read, q, i);
    } else if q > i {
      PredecessorInPlace(log, i, r, q, read[i - 1]);
    }
  }

  lemma {:induction false} EditedInPlace(log: Log, i: nat, r: AuditRow, read: seq<AuditRow>, k: nat)
    requires Edits(log, i, r) && Accepted(read) && WholeReading(log[i := r], read) && k <= |read|
    requires forall x | x in log[i := r] :: x in read
    ensures forall j | 0 <= j < k :: read[j] == log[i := r][j]
  {
    if k == 1 {
      FirstInPlace(log, i, r, read);
    } else if k > 1 {
      EditedInPlace(log, i, r, read, k - 1);
      NextInPlace(log, i, r, read, k - 1);
    }
  }

  /** What the chain pins down about a row: its prevHash, and what its own hash covers unless it is the last row. */
  ghost predicate LinksKept(log: Log, i: nat, r: AuditRow)
    requires i < |log|
  {
    && r.prevHash == log[i].prevHash
    && (i == |log| - 1
        || (r.id == log[i].id && r.action == log[i].action && SameMillisecond(r.createdAt, log[i].createdAt)))
  }

  /** A whole reading of an edited log is accepted exactly if it is in the order of storing and the links are kept. */
  lemma EditAcceptedExactly(log: Log, i: nat, r: AuditRow, read: seq<AuditRow>)
    requires Edits(log, i, r) && WholeReading(log[i := r], read)
    ensures Accepted(read) <==> read == log[i := r] && LinksKept(log, i, r)
  {
    if Accepted(read) {
      AcceptedEditIsInPlace(log, i, r, read);
      AcceptedEditKeepsLinks(log, i, r);
    }
    if read == log[i := r] && LinksKept(log, i, r) {
      KeptLinksAreAccepted(log, i, r);
    }
  }

  lemma AcceptedEditIsInPlace(log: Log, i: nat, r: AuditRow, read: seq<AuditRow>)
    requires Edits(log, i, r) && WholeReading(log[i := r], read) && Accepted(read)
    ensures read == log[i := r]
  {
    var edited := log[i := r];
    forall p, q | 0 <= p < q < |read|
      ensures read[p] != read[q]
    {
      NoRepeats(edited, read, p, q);
    }
    forall x | x in edited
      ensures x in read
    {
      CoversAll(edited, read, x);
    }
    EditedInPlace(log, i, r, read, |read|);
  }

  lemma AcceptedEditKeepsLinks(log: Log, i: nat, r: AuditRow)
    requires Edits(log, i, r) && Accepted(log[i := r])
    ensures LinksKept(log, i, r)
  {
    HashDetermines(r.id, r.action, r.createdAt, log[i].id, log[i].action, log[i].createdAt);
    LinkedAt(log[i := r], None, i);
    LinkedAt(log, None, i);
    if i < |log| - 1 {
      LinkedAt(log[i := r], None, i + 1);
      LinkedAt(log, None, i + 1);
    }
  }

  lemma KeptLinksAreAccepted(log: Log, i: nat, r: AuditRow)
    requires Edits(log, i, r) && LinksKept(log, i, r)
    ensures Accepted(log[i := r])
  {
    HashDetermines(r.id, r.action, r.createdAt, log[i].id, log[i].action, log[i].createdAt);
    var edited := log[i := r];
    forall k | 0 < k < |edited|
      ensures Follows(edited, k)
    {
      LinkedAt(log, None, k);
    }
    LinkedAt(log, None, 0);
  }

  /**
   Replacing one row of a sound log. Some check of the whole log misses it exactly if the links are
   kept and the row still fits between its neighbours in time; every check misses it exactly if the
   links are kept and no timestamp is shared. So an edit of actor, resource, details or address is
   never noticed by these checks, and one of a timestamp is if it changes the row's place.
   */
  lemma EditVerdict(log: Log, i: nat, r: AuditRow, m: int)
    requires Edits(log, i, r) && Sorted(log) && m >= |log|
    ensures (exists report :: MayAnswer(log[i := r], m, None, None, report) && report.valid) <==>
            && LinksKept(log, i, r)
            && (i > 0 ==> NoLater(log[i - 1], r)) && (i + 1 < |log| ==> NoLater(r, log[i + 1]))
    ensures (forall report | MayAnswer(log[i := r], m, None, None, report) :: report.valid) <==>
            LinksKept(log, i, r) && Increasing(log[i := r])
  {
    if report :| MayAnswer(log[i := r], m, None, None, report) && report.valid {
      ValidAnswerOnEdit(log, i, r, m, report);
      SortedEdit(log, i, r);
    }
    if LinksKept(log, i, r) && (i > 0 ==> NoLater(log[i - 1], r)) && (i + 1 < |log| ==> NoLater(r, log[i + 1])) {
      SortedEdit(log, i, r);
      EditAcceptedExactly(log, i, r, log[i := r]);
      AcceptedInOrder(log[i := r], m);
    }
    EveryCheckMisses(log, i, r, m);
  }

  lemma SortedEdit(log: Log, i: nat, r: AuditRow)
    requires Sorted(log) && i < |log|
    ensures Sorted(log[i := r]) <==>
            (i > 0 ==> NoLater(log[i - 1], r)) && (i + 1 < |log| ==> NoLater(r, log[i + 1]))
  {
    var edited := log[i := r];
    if Sorted(edited) {
      assert i > 0 ==> NoLater(edited[i - 1], edited[i]);
      assert i + 1 < |log| ==> NoLater(edited[i], edited[i + 1]);
    }
  }

  lemma ValidAnswerOnEdit(log: Log, i: nat, r: AuditRow, m: int, report: Report)
    requires Edits(log, i, r) && m >= |log|
    requires MayAnswer(log[i := r], m, None, None, report) && report.valid
    ensures LinksKept(log, i, r) && Sorted(log[i := r])
  {
    var edited := log[i := r];
    var orders, read :| Reports(edited, m, FRESH, orders, read, report);
    ReadRowsAreSelected(edited, orders, read);
    ReadingsAreSorted(edited, orders, read);
    ScanAccepts(read, FRESH);
    EditAcceptedExactly(log, i, r, read);
  }

  lemma EveryCheckMisses(log: Log, i: nat, r: AuditRow, m: int)
    requires Edits(log, i, r) && m >= |log|
    ensures (forall report | MayAnswer(log[i := r], m, None, None, report) :: report.valid) <==>
            LinksKept(log, i, r) && Increasing(log[i := r])
  {
    if LinksKept(log, i, r) && Increasing(log[i := r]) {
      EditAcceptedExactly(log, i, r, log[i := r]);
      forall report | MayAnswer(log[i := r], m, None, None, report)
        ensures report.valid
      {
        AcceptedAlways(log[i := r], m, report);
      }
    } else {
      var report := SomeCheckNotices(log, i, r, m);
    }
  }

  lemma SomeCheckNotices(log: Log, i: nat, r: AuditRow, m: int) returns (report: Report)
    requires Edits(log, i, r) && m >= |log|
    requires !LinksKept(log, i, r) || !Increasing(log[i := r])
    ensures MayAnswer(log[i := r], m, None, None, report) && !report.valid
  {
    var edited := log[i := r];
    ByTimeOrders(edited);
    var view := ByTime(edited);
    if !Increasing(edited) {
      view := AnotherOrder(edited);
    }
    SameElements(edited, view);
    SteadyOrder(edited, m, None, None, view);
    assert Take(view, m) == view;
    report := Scan(view, FRESH);
    ScanAccepts(view, FRESH);
    EditAcceptedExactly(log, i, r, view);
  }

  /**
   A table that holds some rows of an accepted log, without ties, is answered "valid" exactly if what
   the cap lets through, in the order of time, is a prefix of that log: any other deletion shows.
   */
  lemma DeletionVerdict(log: Log, rest: Log, m: int, report: Report)
    requires UniqueIds(log) && Accepted(log) && TieFree(rest) && (forall r | r in rest :: r in log)
    requires MayAnswer(rest, m, None, None, report)
    ensures report.valid <==> Take(ByTime(rest), m) <= log
  {
    AnswerIsOnePass(rest, m, None, None, report);
    ByTimeOrders(rest);
    SameElements(rest, ByTime(rest));
    OnlyPrefixesAreAccepted(log, Take(ByTime(rest), m));
  }

  // ---------------------------------------------------------------------------------------------
  // Anonymisation
  // ---------------------------------------------------------------------------------------------

  /** The fields that the chain and its check depend on. */
  ghost predicate SameLink(r: AuditRow, q: AuditRow) {
    r.id == q.id && r.action == q.action && r.createdAt == q.createdAt && r.prevHash == q.prevHash
  }

  lemma {:induction false} ScanSameLinks(a: seq<AuditRow>, b: seq<AuditRow>, c: Cursor)
    requires |a| == |b| && forall i | 0 <= i < |a| :: SameLink(a[i], b[i])
    ensures Scan(a, c) == Scan(b, c)
    decreases |a|
  {
    if a != [] {
      assert SameLink(a[0], b[0]);
      ScanSameLinks(a[1..], b[1..], Advance(c, a[0]));
    }
  }

  lemma {:induction false} FindByIdAnonymized(log: Log, actorId: Uuid, id: Uuid)
    ensures FindById(log, id).None? ==> FindById(Anonymize(log, actorId), id).None?
    ensures FindById(log, id).Some? ==>
              FindById(Anonymize(log, actorId), id) == Some(AnonymizeRow(FindById(log, id).value, actorId))
  {
    if log != [] {
      assert Anonymize(log, actorId)[1..] == Anonymize(log[1..], actorId);
      FindByIdAnonymized(log[1..], actorId, id);
    }
  }

  lemma {:induction false} LaterThanAnonymized(log: Log, actorId: Uuid, t: Timestamp)
    ensures LaterThan(Anonymize(log, actorId), t) == Anonymize(LaterThan(log, t), actorId)
  {
    if log != [] {
      assert Anonymize(log, actorId)[1..] == Anonymize(log[1..], actorId);
      LaterThanAnonymized(log[1..], actorId, t);
    }
  }

  lemma SelectedAnonymized(log: Log, actorId: Uuid, afterId: Option<Uuid>)
    ensures Selected(Anonymize(log, actorId), afterId) == Anonymize(Selected(log, afterId), actorId)
  {
    if afterId.Some? {
      FindByIdAnonymized(log, actorId, afterId.value);
      var found := FindById(log, afterId.value);
      if found.Some? {
        LaterThanAnonymized(log, actorId, found.value.createdAt);
      } else {
        assert Anonymize([], actorId) == [];
      }
    }
  }

  lemma OrdersAnonymized(rows: seq<AuditRow>, view: seq<AuditRow>, actorId: Uuid)
    requires Orders(rows, view)
    ensures Orders(Anonymize(rows, actorId), Anonymize(view, actorId))
  {
    var f := (r: AuditRow) => AnonymizeRow(r, actorId);
    MapKeepsMultiset(f, rows, view);
    assert Anonymize(rows, actorId) == MapSeq(f, rows) && Anonymize(view, actorId) == MapSeq(f, view);
    assert forall i, j | 0 <= i < j < |view| :: NoLater(view[i], view[j]);
  }

  lemma OrderOfAnonymized(rows: seq<AuditRow>, view': seq<AuditRow>, actorId: Uuid) returns (view: seq<AuditRow>)
    requires Orders(Anonymize(rows, actorId), view')
    ensures Orders(rows, view) && view' == Anonymize(view, actorId)
  {
    var f := (r: AuditRow) => AnonymizeRow(r, actorId);
    assert Anonymize(rows, actorId) == MapSeq(f, rows);
    view := RearrangeBeforeMap(f, rows, view');
    assert view' == Anonymize(view, actorId);
    assert forall i, j | 0 <= i < j < |view| :: NoLater(view'[i], view'[j]);
  }

  lemma {:induction false} OrdersOfAnonymized(rows: seq<AuditRow>, orders': seq<seq<AuditRow>>, actorId: Uuid)
    returns (orders: seq<seq<AuditRow>>)
    requires AreOrders(Anonymize(rows, actorId), orders')
    ensures AreOrders(rows, orders) && |orders| == |orders'|
    ensures forall p | 0 <= p < |orders| :: orders'[p] == Anonymize(orders[p], actorId)
  {
    orders := [];
    for n := 0 to |orders'|
      invariant |orders| == n && AreOrders(rows, orders)
      invariant forall p | 0 <= p < n :: orders'[p] == Anonymize(orders[p], actorId)
    {
      var view := OrderOfAnonymized(rows, orders'[n], actorId);
      orders := orders + [view];
    }
  }

  lemma ReportAnonymized(rows: seq<AuditRow>, m: int, start: Cursor, orders: seq<seq<AuditRow>>, read: seq<AuditRow>,
                         report: Report, actorId: Uuid) returns (orders': seq<seq<AuditRow>>)
    requires Reports(rows, m, start, orders, read, report)
    ensures Reports(Anonymize(rows, actorId), m, start, orders', Anonymize(read, actorId), report)
  {
    orders' := seq(|orders|, p requires 0 <= p < |orders| => Anonymize(orders[p], actorId));
    forall p | 0 <= p < |orders'|
      ensures Orders(Anonymize(rows, actorId), orders'[p])
    {
      OrdersAnonymized(rows, orders[p], actorId);
    }
    ScanSameLinks(read, Anonymize(read, actorId), start);
  }

  lemma ReportOfAnonymized(rows: seq<AuditRow>, m: int, start: Cursor, orders': seq<seq<AuditRow>>,
                           read': seq<AuditRow>, report: Report, actorId: Uuid)
    returns (orders: seq<seq<AuditRow>>, read: seq<AuditRow>)
    requires Reports(Anonymize(rows, actorId), m, start, orders', read', report)
    ensures Reports(rows, m, start, orders, read, report)
  {
    orders := OrdersOfAnonymized(rows, orders', actorId);
    read := seq(|read'|, j requires 0 <= j < |read'| => orders[j / BATCH_SIZE][j]);
    assert read' == Anonymize(read, actorId);
    ScanSameLinks(read, read', start);
  }

  /** Anonymising an actor clears it everywhere and leaves the possible answers of every verification as they were. */
  lemma AnonymizeKeepsAnswers(log: Log, actorId: Uuid, m: int, afterId: Option<Uuid>, expected: Option<Digest>,
                              report: Report)
    ensures MayAnswer(Anonymize(log, actorId), m, afterId, expected, report)
            <==> MayAnswer(log, m, afterId, expected, report)
    ensures forall i | 0 <= i < |log| :: Anonymize(log, actorId)[i].actorId != Some(actorId)
  {
    SelectedAnonymized(log, actorId, afterId);
    var rows, start := Selected(log, afterId), StartCursor(afterId, expected);
    if MayAnswer(log, m, afterId, expected, report) {
      var orders, read :| Reports(rows, m, start, orders, read, report);
      var orders' := ReportAnonymized(rows, m, start, orders, read, report, actorId);
    }
    if MayAnswer(Anonymize(log, actorId), m, afterId, expected, report) {
      var orders', read' :| Reports(Anonymize(rows, actorId), m, start, orders', read', report);
      var orders, read := ReportOfAnonymized(rows, m, start, orders', read', report, actorId);
    }
  }
}
