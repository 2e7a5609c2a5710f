/**
 The two bounded scans over the action tables, outstanding obligations and
 terminal SETs still to be cleaned up, and how their pages cover the rows.
 */
module ActionScans {
  import opened Wrappers
  import opened Framing
  import opened TextOrder
  import opened ActionDb
  import opened ActionHandoff
  import opened ActionRuns

  const HORIZON: nat := 900

  // ------------------------------------------------------------------- filters

  /** `state != 'terminal'`, a missing lifecycle row reading as admitted. */
  predicate IsOutstanding(db: Db, scope: Text, r: Row)
  {
    r.target.scope == scope && !State(db, r.operation).Terminal?
  }

  /** The Rust recheck: `created <= now < created + horizon`, nothing on overflow. */
  predicate IsCleanupDue(created: int, now: int)
  {
    match CheckedSub(now, created)
    case None => false
    case Some(elapsed) => 0 <= elapsed < HORIZON
  }

  /** The query's cutoff saturates at the smallest 64-bit integer. */
  function Cutoff(now: int): int
  {
    match CheckedSub(now, HORIZON)
    case None => I64_MIN
    case Some(t) => t
  }

  predicate InCleanupQuery(db: Db, scope: Text, now: int, r: Row)
  {
    && r.target.scope == scope && r.operation in db.life && db.life[r.operation].state.Terminal?
    && r.identity.kind.Set? && r.created <= now && r.created > Cutoff(now)
  }

  /** The scan keeps a queried row only if the recheck agrees. */
  predicate IsCleanup(db: Db, scope: Text, now: int, r: Row)
  {
    InCleanupQuery(db, scope, now, r) && State(db, r.operation).Terminal? && r.identity.kind.Set?
    && IsCleanupDue(r.created, now)
  }

  // ---------------------------------------------------------------- ordered rows

  function InsertRow(rows: seq<Row>, r: Row): seq<Row>
  {
    if rows == [] then [r]
    else if Less(r.operation, rows[0].operation) then [r] + rows
    else [rows[0]] + InsertRow(rows[1..], r)
  }

  /** `ORDER BY operation` over the rows that a filter keeps. */
  function Ordered(rows: seq<Row>, keep: Row -> bool): seq<Row>
  {
    if rows == [] then []
    else
      var before, last := Ordered(rows[..|rows| - 1], keep), rows[|rows| - 1];
      if keep(last) then InsertRow(before, last) else before
  }

  /** No row is followed by one that should come before it. */
  predicate InByteOrder(rows: seq<Row>)
  {
    forall i, j :: 0 <= i < j < |rows| ==> !Less(rows[j].operation, rows[i].operation)
  }

  lemma {:induction false} InsertKeepsOrder(rows: seq<Row>, r: Row)
    requires InByteOrder(rows)
    ensures InByteOrder(InsertRow(rows, r))
    ensures forall i :: 0 <= i < |InsertRow(rows, r)| ==> InsertRow(rows, r)[i] == r || InsertRow(rows, r)[i] in rows
  {
    hide Less;
    if rows != [] {
      if Less(r.operation, rows[0].operation) {
        forall j | 0 <= j < |rows|
          ensures !Less(rows[j].operation, r.operation)
        {
          LessTrichotomy(rows[0].operation, rows[0].operation);
          if Less(rows[j].operation, r.operation) {
            LessTransitive(rows[j].operation, r.operation, rows[0].operation);
          }
        }
      } else {
        InsertKeepsOrder(rows[1..], r);
        InsertBehind(rows, r);
      }
    }
  }

  lemma InsertBehind(rows: seq<Row>, r: Row)
    requires rows != [] && InByteOrder(rows) && !Less(r.operation, rows[0].operation)
    requires InByteOrder(InsertRow(rows[1..], r))
    requires forall i :: 0 <= i < |InsertRow(rows[1..], r)| ==>
               InsertRow(rows[1..], r)[i] == r || InsertRow(rows[1..], r)[i] in rows[1..]
    ensures InByteOrder([rows[0]] + InsertRow(rows[1..], r))
  {
    hide Less, InsertRow;
    var tail := InsertRow(rows[1..], r);
    forall j | 0 <= j < |tail|
      ensures !Less(tail[j].operation, rows[0].operation)
    {
      if tail[j] != r {
        var k :| 0 <= k < |rows[1..]| && rows[1..][k] == tail[j];
        assert rows[k + 1] == tail[j];
      }
    }
  }

  lemma {:induction false} OrderedIsInOrder(rows: seq<Row>, keep: Row -> bool)
    ensures InByteOrder(Ordered(rows, keep))
  {
    hide Less, InsertRow;
    if rows != [] {
      OrderedIsInOrder(rows[..|rows| - 1], keep);
      InsertKeepsOrder(Ordered(rows[..|rows| - 1], keep), rows[|rows| - 1]);
    }
  }

  function OutstandingRows(db: Db, scope: Text): seq<Row>
  {
    Ordered(db.rows, r => IsOutstanding(db, scope, r))
  }

  function CleanupQuery(db: Db, scope: Text, now: int): seq<Row>
  {
    Ordered(db.rows, r => InCleanupQuery(db, scope, now, r))
  }

  /** How often a row occurs in a list. */
  function Occurs(rows: seq<Row>, r: Row): nat
  {
    if rows == [] then 0 else (if rows[0] == r then 1 else 0) + Occurs(rows[1..], r)
  }

  lemma {:induction false} OccursConcat(a: seq<Row>, b: seq<Row>, r: Row)
    ensures Occurs(a + b, r) == Occurs(a, r) + Occurs(b, r)
  {
    if a == [] {
      assert a + b == b;
    } else {
      OccursConcat(a[1..], b, r);
      assert (a + b)[1..] == a[1..] + b;
    }
  }

  lemma {:induction false} InsertRowOccurs(rows: seq<Row>, x: Row, r: Row)
    ensures Occurs(InsertRow(rows, x), r) == Occurs(rows, r) + if x == r then 1 else 0
  {
    if rows == [] || Less(x.operation, rows[0].operation) {
      assert ([x] + rows)[1..] == rows;
    } else {
      InsertRowOccurs(rows[1..], x, r);
    }
  }

  lemma {:induction false} OrderedOccurs(rows: seq<Row>, keep: Row -> bool, r: Row)
    ensures Occurs(Ordered(rows, keep), r) == if keep(r) then Occurs(rows, r) else 0
  {
    if rows != [] {
      var n := |rows| - 1;
      OrderedOccurs(rows[..n], keep, r);
      InsertRowOccurs(Ordered(rows[..n], keep), rows[n], r);
      OccursConcat(rows[..n], rows[n..], r);
      assert rows[..n] + rows[n..] == rows && rows[n..] == [rows[n]];
      assert [rows[n]][1..] == [];
    }
  }

  lemma {:induction false} DistinctOccursOnce(rows: seq<Row>, r: Row)
    requires Distinct(rows) && r in rows
    ensures Occurs(rows, r) == 1
  {
    var i :| 0 <= i < |rows| && rows[i] == r;
    if i == 0 {
      NoOccurrence(rows[1..], r);
    } else {
      assert rows[0].operation != rows[i].operation;
      assert rows[1..][i - 1] == r;
      DistinctOccursOnce(rows[1..], r);
    }
  }

  lemma {:induction false} NoOccurrence(rows: seq<Row>, r: Row)
    requires forall i :: 0 <= i < |rows| ==> rows[i].operation != r.operation
    ensures Occurs(rows, r) == 0
  {
    if rows != [] {
      NoOccurrence(rows[1..], r);
    }
  }

  // --------------------------------------------------------------------- pages

  /** A caller's limit, clamped to the replay horizon and to at least one row. */
  function Bound(limit: nat, maxRows: nat): (b: nat)
    ensures b >= 1
  {
    var clamped := if limit < maxRows then limit else maxRows;
    if clamped < 1 then 1 else clamped
  }

  /** `LIMIT bound OFFSET offset`. */
  function Page(rows: seq<Row>, bound: nat, offset: nat): seq<Row>
  {
    if offset >= |rows| then []
    else if offset + bound <= |rows| then rows[offset..offset + bound]
    else rows[offset..]
  }

  lemma {:induction false} RowForIsUnique(rows: seq<Row>, r: Row)
    requires Distinct(rows) && r in rows
    ensures RowFor(rows, r.operation, r.target.scope) == Some(r)
  {
    var i :| 0 <= i < |rows| && rows[i] == r;
    if i > 0 {
      assert rows[0].operation != rows[i].operation;
      assert rows[1..][i - 1] == r;
      RowForIsUnique(rows[1..], r);
    }
  }

  lemma {:induction false} OccursMeansIn(rows: seq<Row>, r: Row)
    ensures Occurs(rows, r) > 0 <==> r in rows
  {
    if rows != [] {
      OccursMeansIn(rows[1..], r);
      if r in rows && rows[0] != r {
        var i :| 0 <= i < |rows| && rows[i] == r;
        assert rows[1..][i - 1] == r;
      }
    }
  }

  lemma PageIsWithin(rows: seq<Row>, bound: nat, offset: nat, r: Row)
    requires r in Page(rows, bound, offset)
    ensures r in rows
  {
  }

  /** Every selected row is a stored row that the filter keeps. */
  lemma SelectedRow(rows: seq<Row>, keep: Row -> bool, bound: nat, offset: nat, r: Row)
    requires r in Page(Ordered(rows, keep), bound, offset)
    ensures r in rows && keep(r)
  {
    hide Ordered, Page, Occurs;
    PageIsWithin(Ordered(rows, keep), bound, offset, r);
    OccursMeansIn(Ordered(rows, keep), r);
    OrderedOccurs(rows, keep, r);
    OccursMeansIn(rows, r);
  }

  /** `outstanding_page`: select a page, then read each of its operations again. */
  method OutstandingPage(db: Db, scope: Text, limit: nat, offset: nat, maxRows: nat)
    returns (r: Result<seq<Row>, WriterError>)
    requires Distinct(db.rows)
    ensures r == Success(Page(OutstandingRows(db, scope), Bound(limit, maxRows), offset))
  {
    hide RowFor, Ordered, Page, Distinct;
    var rows := Page(OutstandingRows(db, scope), Bound(limit, maxRows), offset);
    var out := [];
    for i := 0 to |rows|
      invariant out == rows[..i]
    {
      var again := RowFor(db.rows, rows[i].operation, scope);
      SelectedRow(db.rows, r => IsOutstanding(db, scope, r), Bound(limit, maxRows), offset, rows[i]);
      RowForIsUnique(db.rows, rows[i]);
      if again.None? {
        return Failure(NotFound);
      }
      out := out + [again.value];
    }
    assert rows[..|rows|] == rows;
    return Success(out);
  }

  function Kept(rows: seq<Row>, keep: Row -> bool): seq<Row>
  {
    if rows == [] then []
    else Kept(rows[..|rows| - 1], keep) + if keep(rows[|rows| - 1]) then [rows[|rows| - 1]] else []
  }

  /** `cleanup_obligations_with_now`: select a page, then recheck each row. */
  method CleanupPage(db: Db, scope: Text, limit: nat, offset: nat, now: int, maxRows: nat) returns (out: seq<Row>)
    ensures out == Kept(Page(CleanupQuery(db, scope, now), Bound(limit, maxRows), offset),
                        r => IsCleanup(db, scope, now, r))
  {
    var rows := Page(CleanupQuery(db, scope, now), Bound(limit, maxRows), offset);
    var keep := (r: Row) => IsCleanup(db, scope, now, r);
    out := [];
    for i := 0 to |rows|
      invariant out == Kept(rows[..i], keep)
    {
      assert rows[..i + 1][..i] == rows[..i];
      if IsCleanup(db, scope, now, rows[i]) {
        out := out + [rows[i]];
      }
    }
    assert rows[..|rows|] == rows;
  }

  // ------------------------------------------------------------ query and recheck

  /** The query's saturating cutoff and the recheck's checked difference agree on every stamp and clock. */
  lemma QueryMatchesRecheck(created: int, now: int)
    requires IsStamp(created) && IsTime(now)
    ensures created <= now && created > Cutoff(now) <==> IsCleanupDue(created, now)
  {
  }

  lemma {:induction false} KeptAll(rows: seq<Row>, keep: Row -> bool)
    requires forall i :: 0 <= i < |rows| ==> keep(rows[i])
    ensures Kept(rows, keep) == rows
  {
    if rows != [] {
      var n := |rows| - 1;
      KeptAll(rows[..n], keep);
      assert rows[..n] + [rows[n]] == rows;
    }
  }

  /** The Rust recheck never drops a row that the query kept. */
  lemma RecheckDropsNothing(db: Db, scope: Text, now: int, bound: nat, offset: nat)
    requires DbOk(db) && IsTime(now)
    ensures var page := Page(CleanupQuery(db, scope, now), bound, offset);
            Kept(page, r => IsCleanup(db, scope, now, r)) == page
  {
    hide Ordered, Page, Distinct, RateOk, InOrder, HasOperation, Kept;
    var page, keep := Page(CleanupQuery(db, scope, now), bound, offset), (r: Row) => IsCleanup(db, scope, now, r);
    forall i | 0 <= i < |page|
      ensures keep(page[i])
    {
      SelectedRow(db.rows, r => InCleanupQuery(db, scope, now, r), bound, offset, page[i]);
      StoredRowIsOk(db, page[i]);
      QueryMatchesRecheck(page[i].created, now);
    }
    KeptAll(page, keep);
  }

  lemma StoredRowIsOk(db: Db, r: Row)
    requires DbOk(db) && r in db.rows
    ensures RowOk(r)
  {
  }

  // ------------------------------------------------------------------- coverage

  /** All pages from an offset on, stepping as the caller steps. */
  function PagesFrom(rows: seq<Row>, bound: nat, step: nat, offset: nat): seq<Row>
    requires step > 0
    decreases |rows| - offset
  {
    if offset >= |rows| then [] else Page(rows, bound, offset) + PagesFrom(rows, bound, step, offset + step)
  }

  lemma {:induction false} PagesTile(rows: seq<Row>, bound: nat, offset: nat)
    requires bound > 0 && offset <= |rows|
    ensures PagesFrom(rows, bound, bound, offset) == rows[offset..]
    decreases |rows| - offset
  {
    if offset < |rows| {
      if offset + bound <= |rows| {
        PagesTile(rows, bound, offset + bound);
        assert rows[offset..] == rows[offset..offset + bound] + rows[offset + bound..];
      }
    }
  }

  /** Small steps repeat rows and large ones skip them, which the total length shows. */
  lemma {:induction false} PagesLength(rows: seq<Row>, bound: nat, step: nat, offset: nat)
    requires bound > 0 && step > 0
    ensures step <= bound ==> |PagesFrom(rows, bound, step, offset)| >= |rows| - offset
    ensures step >= bound && offset <= |rows| ==> |PagesFrom(rows, bound, step, offset)| <= |rows| - offset
    ensures offset >= |rows| ==> PagesFrom(rows, bound, step, offset) == []
    decreases |rows| - offset
  {
    if offset < |rows| {
      PagesLength(rows, bound, step, offset + step);
    }
  }

  /**
   Stepping the offset tiles a list of rows exactly when the step is the page's
   bound, or the rows fit on one page and within one step.
   */
  lemma StepTilesExactly(rows: seq<Row>, bound: nat, step: nat)
    requires bound > 0 && step > 0
    ensures PagesFrom(rows, bound, step, 0) == rows
       <==> step == bound || |rows| <= (if step < bound then step else bound)
  {
    hide Page;
    PageLength(rows, bound);
    PagesLength(rows, bound, step, step);
    if step == bound {
      PagesTile(rows, bound, 0);
      assert rows[0..] == rows;
    }
  }

  lemma PageLength(rows: seq<Row>, bound: nat)
    ensures |Page(rows, bound, 0)| == if bound < |rows| then bound else |rows|
    ensures |rows| <= bound ==> Page(rows, bound, 0) == rows
  {
  }

  lemma LimitIsBoundExactly(limit: nat, maxRows: nat)
    requires maxRows > 0
    ensures Bound(limit, maxRows) == limit <==> 1 <= limit <= maxRows
  {
  }

  /**
   A caller of the raw page who steps by the limit it asked for sees every row
   once exactly when the limit is within the replay horizon, or all rows are.
   */
  lemma LimitTilesExactly(rows: seq<Row>, limit: nat, maxRows: nat)
    requires limit > 0 && maxRows > 0
    ensures PagesFrom(rows, Bound(limit, maxRows), limit, 0) == rows <==> limit <= maxRows || |rows| <= maxRows
  {
    hide PagesFrom;
    LimitIsBoundExactly(limit, maxRows);
    StepTilesExactly(rows, Bound(limit, maxRows), limit);
  }

  /** With a horizon of one, a caller that asks for two and steps by two misses every other row. */
  lemma SecondRowIsSkipped(a: Row, b: Row)
    ensures PagesFrom([a, b], Bound(2, 1), 2, 0) == [a]
  {
    assert PagesFrom([a, b], 1, 2, 0) == Page([a, b], 1, 0) + PagesFrom([a, b], 1, 2, 2);
    assert [a, b][..1] == [a];
  }

  /**
   No young SET obligation is lost: at any reachable store and any clock, a SET
   row at most fifteen minutes old occurs exactly once over all pages of exactly
   one scan, outstanding while it is not terminal and cleanup once it is.
   */
  lemma NoYoungSetIsLost(steps: seq<Step>, r: Row, now: int, limit: nat, maxRows: nat)
    requires r in After(steps).db.rows && r.identity.kind.Set? && IsTime(now)
    requires r.created <= now < r.created + HORIZON
    ensures var db, b := After(steps).db, Bound(limit, maxRows);
            var terminal := State(db, r.operation).Terminal?;
            && Occurs(PagesFrom(OutstandingRows(db, r.target.scope), b, b, 0), r) == (if terminal then 0 else 1)
            && Occurs(PagesFrom(CleanupQuery(db, r.target.scope, now), b, b, 0), r) == (if terminal then 1 else 0)
  {
    hide After, Ordered, RateOk, InOrder, HasOperation, PermitsOk, Occurs, Bound, Distinct;
    EveryRunIsOk(steps);
    var db, b, scope := After(steps).db, Bound(limit, maxRows), r.target.scope;
    StoredRowIsOk(db, r);
    QueryMatchesRecheck(r.created, now);
    DistinctOccursOnce(db.rows, r);
    var outstanding, cleanup := OutstandingRows(db, scope), CleanupQuery(db, scope, now);
    PagesTile(outstanding, b, 0);
    PagesTile(cleanup, b, 0);
    assert outstanding[0..] == outstanding && cleanup[0..] == cleanup;
    OrderedOccurs(db.rows, x => IsOutstanding(db, scope, x), r);
    OrderedOccurs(db.rows, x => InCleanupQuery(db, scope, now, x), r);
  }
}
