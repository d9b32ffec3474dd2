/**
 The audit service over its table: appends, anonymisation, and the verifier that reads the chain in
 pages (apps/server/src/modules/audit/audit.service.ts:89-118, 155-262).

 The two queries that order by created_at are methods of their own. Their contracts leave the order of
 rows with equal timestamps open, so every page of one verification may order them differently.
 AuditVerdicts.dfy says what the answers then mean.
 */
module AuditServices {
  import opened Common
  import opened AuditChain
  import opened AuditText
  import opened Permutations
  import opened Redaction

  const DEFAULT_MAX_VERIFY_ENTRIES := 10_000
  const BATCH_SIZE := 1000

  function Min(a: int, b: int): int {
    if a < b then a else b
  }

  /** How many of n rows a cap of m lets through; none for a negative cap. */
  function Cap(m: int, n: nat): nat {
    if m < 0 then 0 else Min(m, n)
  }

  /** LIMIT limit OFFSET offset. */
  function Page(rows: seq<AuditRow>, limit: nat, offset: nat): seq<AuditRow> {
    rows[Min(offset, |rows|)..Min(offset + limit, |rows|)]
  }

  function Take(rows: seq<AuditRow>, m: int): seq<AuditRow> {
    rows[..Cap(m, |rows|)]
  }

  function FindById(log: Log, id: Uuid): Option<AuditRow> {
    if log == [] then None
    else if log[0].id == id then Some(log[0])
    else FindById(log[1..], id)
  }

  /** WHERE created_at > t. */
  function LaterThan(rows: seq<AuditRow>, t: Timestamp): seq<AuditRow> {
    if rows == [] then []
    else (if Ordinal(rows[0].createdAt) > Ordinal(t) then [rows[0]] else []) + LaterThan(rows[1..], t)
  }

  /** The rows the verifier selects. An unknown afterId makes the comparison NULL, which selects no row. */
  function Selected(log: Log, afterId: Option<Uuid>): seq<AuditRow> {
    match afterId
    case None => log
    case Some(id) =>
      match FindById(log, id)
      case None => []
      case Some(r) => LaterThan(log, r.createdAt)
  }

  function StartCursor(afterId: Option<Uuid>, expectedPrevHash: Option<Digest>): Cursor {
    Cursor(afterId.None?, expectedPrevHash, 0, None)
  }

  // ---------------------------------------------------------------------------------------------
  // What a verification may read and answer
  // ---------------------------------------------------------------------------------------------

  ghost predicate AreOrders(rows: seq<AuditRow>, orders: seq<seq<AuditRow>>) {
    forall p | 0 <= p < |orders| :: Orders(rows, orders[p])
  }

  /** Row j of a reading is row j of the order in which the database answered its page. */
  ghost predicate ReadFrom(orders: seq<seq<AuditRow>>, read: seq<AuditRow>) {
    forall j | 0 <= j < |read| ::
      j / BATCH_SIZE < |orders| && j < |orders[j / BATCH_SIZE]| && read[j] == orders[j / BATCH_SIZE][j]
  }

  ghost predicate MayRead(rows: seq<AuditRow>, orders: seq<seq<AuditRow>>, read: seq<AuditRow>) {
    AreOrders(rows, orders) && ReadFrom(orders, read)
  }

  /** The report is that of a recursive check of the rows that were read; only a break ends the reading early. */
  ghost predicate Reports(rows: seq<AuditRow>, maxEntries: int, start: Cursor, orders: seq<seq<AuditRow>>,
                          read: seq<AuditRow>, report: Report)
  {
    && MayRead(rows, orders, read)
    && |read| <= Cap(maxEntries, |rows|)
    && report == Scan(read, start)
    && (report.valid ==> |read| == Cap(maxEntries, |rows|))
  }

  /** The answers that verifyAuditChain may give, over all orders of rows with equal timestamps. */
  ghost predicate MayAnswer(log: Log, maxEntries: int, afterId: Option<Uuid>, expectedPrevHash: Option<Digest>,
                            report: Report)
  {
    exists orders, read ::
      Reports(Selected(log, afterId), maxEntries, StartCursor(afterId, expectedPrevHash), orders, read, report)
  }

  // ---------------------------------------------------------------------------------------------
  // The queries
  // ---------------------------------------------------------------------------------------------

  /** SELECT ... ORDER BY created_at ASC LIMIT limit OFFSET offset. */
  method QueryPage(rows: seq<AuditRow>, limit: nat, offset: nat) returns (batch: seq<AuditRow>)
    ensures exists order :: Orders(rows, order) && batch == Page(order, limit, offset)
  {
    ByTimeOrders(rows);
    batch := Page(ByTime(rows), limit, offset);
  }

  /** SELECT ... ORDER BY created_at DESC LIMIT 1, as the position of the row that is answered. */
  method QueryLatest(log: Log) returns (last: nat)
    ensures log != [] ==> IsLatest(log, last)
  {
    last := 0;
    for i := 0 to |log|
      invariant log != [] ==> last < |log|
      invariant forall k | 0 <= k < i :: NoLater(log[k], log[last])
    {
      if NoLater(log[last], log[i]) {
        last := i;
      }
    }
  }

  // ---------------------------------------------------------------------------------------------
  // The batched loop
  // ---------------------------------------------------------------------------------------------

  /** The loop over one batch (lines 212-242): either the report of a break, or the cursor behind the batch. */
  method CheckBatch(batch: seq<AuditRow>, start: Cursor) returns (broken: Option<Report>, next: Cursor)
    ensures Scan(batch, start).valid ==> broken.None? && next == After(batch, start)
    ensures !Scan(batch, start).valid ==> broken == Some(Scan(batch, start))
  {
    var isFirstEntry, previousHash, checkedEntries, lastCheckedId :=
      start.isFirst, start.previousHash, start.checked, start.lastId;
    for i := 0 to |batch|
      invariant Scan(batch, start)
                == Scan(batch[i..], Cursor(isFirstEntry, previousHash, checkedEntries, lastCheckedId))
      invariant After(batch, start)
                == After(batch[i..], Cursor(isFirstEntry, previousHash, checkedEntries, lastCheckedId))
    {
      var entry := batch[i];
      assert batch[i..][0] == entry && batch[i..][1..] == batch[i + 1..];
      checkedEntries := checkedEntries + 1;
      if isFirstEntry {
        if entry.prevHash != None {
          return Some(Report(false, checkedEntries, checkedEntries, Some(entry.id), Some(entry.id), None)), start;
        }
        isFirstEntry := false;
      } else {
        if entry.prevHash != previousHash {
          return
            Some(Report(false, checkedEntries, checkedEntries, Some(entry.id), Some(entry.id), previousHash)), start;
        }
      }
      previousHash := Some(ComputeHash(entry.id, entry.action, entry.createdAt));
      lastCheckedId := Some(entry.id);
    }
    broken, next := None, Cursor(isFirstEntry, previousHash, checkedEntries, lastCheckedId);
  }

  /** What has been read after a number of full pages, and found to hold. */
  ghost predicate SoFar(rows: seq<AuditRow>, maxEntries: int, start: Cursor, orders: seq<seq<AuditRow>>,
                        read: seq<AuditRow>, cursor: Cursor)
  {
    && MayRead(rows, orders, read)
    && |read| <= Cap(maxEntries, |rows|)
    && Scan(read, start).valid && cursor == After(read, start)
  }

  /** All pages so far were full pages, unless the cap has been reached. */
  ghost predicate Looping(rows: seq<AuditRow>, maxEntries: int, start: Cursor, orders: seq<seq<AuditRow>>,
                          read: seq<AuditRow>, cursor: Cursor, offset: nat)
  {
    && SoFar(rows, maxEntries, start, orders, read, cursor)
    && offset == |read| == cursor.checked
    && (offset < maxEntries ==> offset == BATCH_SIZE * |orders|)
  }

  lemma NextPageIsRead(rows: seq<AuditRow>, orders: seq<seq<AuditRow>>, read: seq<AuditRow>, order: seq<AuditRow>,
                       batch: seq<AuditRow>)
    requires MayRead(rows, orders, read) && |read| == BATCH_SIZE * |orders| && |batch| <= BATCH_SIZE
    requires Orders(rows, order) && |read| + |batch| <= |order| && batch == order[|read|..|read| + |batch|]
    ensures MayRead(rows, orders + [order], read + batch)
  {
  }

  /** A page under the cap is the next piece of its order; a short page ends what is to be read. */
  lemma PageIsNextPiece(order: seq<AuditRow>, maxEntries: int, limit: nat, offset: nat)
    requires offset <= Cap(maxEntries, |order|) && offset + limit <= maxEntries
    ensures var batch := Page(order, limit, offset);
            && offset + |batch| <= Cap(maxEntries, |order|)
            && batch == order[offset..offset + |batch|]
            && |batch| <= limit
            && (|batch| < limit ==> offset + |batch| == Cap(maxEntries, |order|))
  {
  }

  lemma ConsumeBatch(start: Cursor, read: seq<AuditRow>, batch: seq<AuditRow>)
    requires Scan(read, start).valid && start.checked == 0
    ensures Scan(read + batch, start) == Scan(batch, After(read, start))
    ensures Scan(batch, After(read, start)).valid ==> After(read + batch, start) == After(batch, After(read, start))
    ensures After(read, start).checked == |read|
  {
    ScanSplits(read, batch, start);
    AfterSplits(read, batch, start);
    AfterAccepted(read, start);
  }

  lemma {:induction false} AfterSplits(a: seq<AuditRow>, b: seq<AuditRow>, c: Cursor)
    ensures After(a + b, c) == After(b, After(a, c))
    decreases |a|
  {
    if a == [] {
      assert a + b == b;
    } else {
      assert (a + b)[1..] == a[1..] + b;
      AfterSplits(a[1..], b, Advance(c, a[0]));
    }
  }

  /** One page moves the reading on, or ends it with the report of a break. */
  lemma PageConsumed(rows: seq<AuditRow>, maxEntries: int, start: Cursor, orders: seq<seq<AuditRow>>,
                     read: seq<AuditRow>, cursor: Cursor, order: seq<AuditRow>, offset: nat, limit: nat)
    requires start.checked == 0 && Looping(rows, maxEntries, start, orders, read, cursor, offset)
    requires offset < maxEntries && limit == Min(BATCH_SIZE, maxEntries - offset) && Orders(rows, order)
    ensures var batch := Page(order, limit, offset);
            && |batch| <= limit
            && (|batch| < limit ==> offset + |batch| == Cap(maxEntries, |rows|))
            && (Scan(batch, cursor).valid ==>
                  SoFar(rows, maxEntries, start, orders + [order], read + batch, After(batch, cursor)))
            && (Scan(batch, cursor).valid && |batch| == limit ==>
                  Looping(rows, maxEntries, start, orders + [order], read + batch, After(batch, cursor),
                          offset + limit))
            && (!Scan(batch, cursor).valid ==>
                  Reports(rows, maxEntries, start, orders + [order], read + batch, Scan(batch, cursor)))
  {
    SameElements(rows, order);
    PageIsNextPiece(order, maxEntries, limit, offset);
    var batch := Page(order, limit, offset);
    NextPageIsRead(rows, orders, read, order, batch);
    ConsumeBatch(start, read, batch);
    AfterAccepted(batch, cursor);
    assert After(batch, cursor).checked == cursor.checked + |batch|;
  }

  lemma ReadingEnds(rows: seq<AuditRow>, maxEntries: int, start: Cursor, orders: seq<seq<AuditRow>>,
                    read: seq<AuditRow>, cursor: Cursor)
    requires SoFar(rows, maxEntries, start, orders, read, cursor) && |read| == Cap(maxEntries, |rows|)
    ensures Reports(rows, maxEntries, start, orders, read,
                    Report(true, cursor.checked, cursor.checked, None, cursor.lastId, cursor.previousHash))
  {
    assert read + [] == read;
    ScanSplits(read, [], start);
  }

  /** One turn of the loop (lines 196-242): how many rows the page held, and what checking them gave. */
  method CheckPage(rows: seq<AuditRow>, maxEntries: int, ghost start: Cursor, ghost orders: seq<seq<AuditRow>>,
                   ghost read: seq<AuditRow>, cursor: Cursor, offset: nat)
    returns (size: nat, broken: Option<Report>, next: Cursor, ghost orders': seq<seq<AuditRow>>,
             ghost read': seq<AuditRow>)
    requires start.checked == 0 && Looping(rows, maxEntries, start, orders, read, cursor, offset)
    requires offset < maxEntries
    ensures size <= Min(BATCH_SIZE, maxEntries - offset)
    ensures broken.Some? ==> Reports(rows, maxEntries, start, orders', read', broken.value)
    ensures broken.None? && size == Min(BATCH_SIZE, maxEntries - offset) ==>
              Looping(rows, maxEntries, start, orders', read', next, offset + size)
    ensures broken.None? && size < Min(BATCH_SIZE, maxEntries - offset) ==>
              SoFar(rows, maxEntries, start, orders', read', next) && |read'| == Cap(maxEntries, |rows|)
  {
    var batchLimit := Min(BATCH_SIZE, maxEntries - offset);
    var batch := QueryPage(rows, batchLimit, offset);
    ghost var order :| Orders(rows, order) && batch == Page(order, batchLimit, offset);
    PageConsumed(rows, maxEntries, start, orders, read, cursor, order, offset, batchLimit);
    size, orders', read' := |batch|, orders + [order], read + batch;
    broken, next := CheckBatch(batch, cursor);
  }

  class AuditService {
    var log: Log

    constructor ()
      ensures log == []
    {
      log := [];
    }

    method CreateAuditLog(input: AuditInput, id: Uuid, createdAt: Timestamp)
      returns (row: Option<AuditRow>, ghost last: nat)
      modifies this
      ensures old(log) == [] || IsLatest(old(log), last)
      ensures log == Append(old(log), input, id, createdAt, last)
      ensures row.Some? <==> !Taken(old(log), id)
      ensures row.Some? ==> log == old(log) + [row.value]
    {
      var latest := QueryLatest(log);
      last := latest;
      var prevHash: Option<Digest> := None;
      if |log| > 0 {
        var lastEntry := log[latest];
        prevHash := Some(ComputeHash(lastEntry.id, lastEntry.action, lastEntry.createdAt));
      }
      var details := RedactPii(input.details);
      if Taken(log, id) {
        return None, last;
      }
      var r := AuditRow(id, input.actorId, input.action, input.resourceType, input.resourceId,
                        Obj(details), input.ipAddress, createdAt, prevHash);
      log := log + [r];
      row := Some(r);
    }

    method AnonymizeActorInAuditLogs(actorId: Uuid)
      modifies this
      ensures log == Anonymize(old(log), actorId)
    {
      log := seq(|log|, i requires 0 <= i < |log| reads this =>
        if log[i].actorId == Some(actorId) then log[i].(actorId := None) else log[i]);
    }

    /** The paged verifier gives the report of a recursive check of the rows that its pages answered. */
    method VerifyAuditChain(maxEntriesOption: Option<int>, afterId: Option<Uuid>, expectedPrevHash: Option<Digest>)
      returns (report: Report)
      ensures MayAnswer(log, if maxEntriesOption.Some? then maxEntriesOption.value else 10_000,
                        afterId, expectedPrevHash, report)
    {
      var maxEntries := if maxEntriesOption.Some? then maxEntriesOption.value else DEFAULT_MAX_VERIFY_ENTRIES;
      var offset: nat := 0;
      var start := StartCursor(afterId, expectedPrevHash);
      var cursor := start;
      var rows := Selected(log, afterId);
      ghost var orders: seq<seq<AuditRow>>, read: seq<AuditRow> := [], [];

      while cursor.checked < maxEntries
        invariant Looping(rows, maxEntries, start, orders, read, cursor, offset)
        decreases maxEntries - cursor.checked
      {
        var batchLimit := Min(BATCH_SIZE, maxEntries - cursor.checked);
        var size, broken;
        size, broken, cursor, orders, read := CheckPage(rows, maxEntries, start, orders, read, cursor, offset);
        if broken.Some? {
          return broken.value;
        }
        if size < batchLimit {
          break;
        }
        offset := offset + batchLimit;
      }
      ReadingEnds(rows, maxEntries, start, orders, read, cursor);
      report := Report(true, cursor.checked, cursor.checked, None, cursor.lastId, cursor.previousHash);
    }
  }
}
