/**
 Every run of admissions, handoffs and marks, with lost replies and crashes: one
 permit at most per operation, generations in order, six SETs an hour.
 */
module ActionRuns {
  import opened Wrappers
  import opened Framing
  import opened GuardedStore
  import opened ActionDb
  import opened ActionHandoff

  // -------------------------------------------------------------------- steps

  /** A write that left the writer: the row it was granted for, its bytes, and the two wall readings. */
  datatype Permit = Permit(row: Row, write: FrozenWrite, kind: Kind, wallNow: int, prepareNow: int)

  datatype World = World(db: Db, permits: seq<Permit>)

  /**
   One call of the owning process. A retry is the same ticket again; a reply
   that is lost changes nothing here, because the batch commits without it.
   */
  datatype Step =
    | AdmitStep(request: Request, guardNow: int, insertNow: int)
    | HandoffStep(handoff: Handoff, kind: Kind, crashes: bool)
    | MarkStep(operation: Text, scope: Text, state: Life)

  predicate IsTime(t: int) { I64_MIN <= t <= I64_MAX }

  /**
   What `strftime('%s','now')` can give: SQLite's date functions run from Julian
   day zero to the last second of the year 9999.
   */
  const FIRST_STAMP: int := -210_866_760_000
  const LAST_STAMP: int := 253_402_300_799

  predicate IsStamp(t: int) { FIRST_STAMP <= t <= LAST_STAMP }

  /** What every prepared ticket satisfies. */
  predicate RequestOk(q: Request)
  {
    q.expected < U32_MAX && (q.identity.kind.Release? <==> q.identity.releaseAdmitted)
  }

  /** The insert is stamped no earlier than its guard read the clock; marks never go back to admitted. */
  predicate StepOk(step: Step)
  {
    match step
    case AdmitStep(request, guardNow, insertNow) => RequestOk(request) && guardNow <= insertNow && IsStamp(insertNow)
    case HandoffStep(h, _, _) => IsTime(h.wallNow) && IsTime(h.prepareNow)
    case MarkStep(_, _, state) => !state.Admitted?
  }

  function MarkedDb(db: Db, operation: Text, scope: Text, state: Life): Db
  {
    match Transition(db, operation, scope, state)
    case Success(marked) => marked
    case Failure(_) => db
  }

  /** A crash may cut a granted handoff after its durable mark, before the write leaves. */
  ghost function Next(w: World, step: Step): World
  {
    match step
    case AdmitStep(q, guardNow, insertNow) => w.(db := Admit(w.db, q, guardNow, insertNow))
    case MarkStep(operation, scope, state) => w.(db := MarkedDb(w.db, operation, scope, state))
    case HandoffStep(h, kind, crashes) =>
      match Authorize(w.db, h, kind)
      case Failure(_) => w
      case Success(write) =>
        var row := RowFor(w.db.rows, h.operation, h.scope).value;
        World(MarkedDb(w.db, h.operation, h.scope, Dispatched),
              if crashes then w.permits else w.permits + [Permit(row, write, kind, h.wallNow, h.prepareNow)])
  }

  const START := World(EMPTY, [])

  ghost function After(steps: seq<Step>): World
  {
    if steps == [] then START
    else
      var w, step := After(steps[..|steps| - 1]), steps[|steps| - 1];
      if StepOk(step) then Next(w, step) else w
  }

  // ------------------------------------------------------------- rows in order

  ghost function ByTarget(rows: seq<Row>, t: Target): seq<Row>
  {
    if rows == [] then []
    else
      var before, last := ByTarget(rows[..|rows| - 1], t), rows[|rows| - 1];
      if last.target == t then before + [last] else before
  }

  /** The rows of a target carry the generations one, two, three, up to the durable one. */
  ghost predicate InOrder(db: Db, t: Target)
  {
    && Current(db, t) == |ByTarget(db.rows, t)|
    && forall i :: 0 <= i < |ByTarget(db.rows, t)| ==> ByTarget(db.rows, t)[i].generation == i + 1
  }

  predicate RowOk(r: Row)
  {
    && r.deadline == DEADLINE && r.generation == r.expected + 1 && IsStamp(r.created)
    && (r.identity.kind.Release? <==> r.identity.releaseAdmitted)
  }

  ghost predicate Distinct(rows: seq<Row>)
  {
    forall i, j :: 0 <= i < j < |rows| ==> rows[i].operation != rows[j].operation
  }

  /** Each SET row found fewer than six in the hour before its own stamp. */
  ghost predicate RateOk(rows: seq<Row>)
  {
    forall p :: 0 <= p < |rows| && rows[p].identity.kind.Set? ==>
      UsedSince(rows[..p], rows[p].target, rows[p].created - RATE_WINDOW) < RATE_MAX
  }

  ghost predicate DbOk(db: Db)
  {
    && Distinct(db.rows) && RateOk(db.rows) && (forall i :: 0 <= i < |db.rows| ==> RowOk(db.rows[i]))
    && (forall t :: InOrder(db, t))
    && (forall o :: HasOperation(db.rows, o) <==> o in db.receipts)
  }

  lemma {:induction false} UsedFalls(rows: seq<Row>, t: Target, early: int, late: int)
    requires early <= late
    ensures UsedSince(rows, t, late) <= UsedSince(rows, t, early)
  {
    if rows != [] {
      UsedFalls(rows[..|rows| - 1], t, early, late);
    }
  }

  lemma AppendedOperation(rows: seq<Row>, r: Row, o: Text)
    ensures HasOperation(rows + [r], o) <==> HasOperation(rows, o) || r.operation == o
  {
    if HasOperation(rows, o) {
      var i :| 0 <= i < |rows| && rows[i].operation == o;
      assert (rows + [r])[i].operation == o;
    }
    if r.operation == o {
      assert (rows + [r])[|rows|].operation == o;
    }
  }

  lemma AppendedTarget(db: Db, q: Request, created: int, t: Target)
    requires InOrder(db, t) && Current(db, q.target) == q.expected
    ensures InOrder(Insert(db, q, created), t)
  {
    var rows := db.rows + [RowOf(q, created)];
    assert rows[..|rows| - 1] == db.rows;
  }

  lemma AppendedRate(rows: seq<Row>, r: Row, guardNow: int)
    requires RateOk(rows) && guardNow <= r.created
    requires r.identity.kind.Set? ==> UsedSince(rows, r.target, guardNow - RATE_WINDOW) < RATE_MAX
    ensures RateOk(rows + [r])
  {
    var more := rows + [r];
    forall p | 0 <= p < |more| && more[p].identity.kind.Set?
      ensures UsedSince(more[..p], more[p].target, more[p].created - RATE_WINDOW) < RATE_MAX
    {
      if p < |rows| {
        assert more[..p] == rows[..p];
      } else {
        assert more[..p] == rows;
        UsedFalls(rows, r.target, guardNow - RATE_WINDOW, r.created - RATE_WINDOW);
      }
    }
  }

  lemma AdmitKeeps(db: Db, q: Request, guardNow: int, insertNow: int)
    requires DbOk(db) && RequestOk(q) && guardNow <= insertNow && IsStamp(insertNow)
    ensures DbOk(Admit(db, q, guardNow, insertNow))
  {
    hide InOrder, RateOk, UsedSince, HasOperation;
    if Admission(db, q, guardNow).Applied? {
      var r, after := RowOf(q, insertNow), Insert(db, q, insertNow);
      AppendedRate(db.rows, r, guardNow);
      forall t
        ensures InOrder(after, t)
      {
        AppendedTarget(db, q, insertNow, t);
      }
      forall o
        ensures HasOperation(after.rows, o) <==> o in after.receipts
      {
        AppendedOperation(db.rows, r, o);
      }
      AppendedDistinct(db.rows, r);
    }
  }

  lemma AppendedDistinct(rows: seq<Row>, r: Row)
    requires Distinct(rows) && !HasOperation(rows, r.operation)
    ensures Distinct(rows + [r])
  {
    forall i | 0 <= i < |rows|
      ensures rows[i].operation != r.operation
    {
      assert rows[i].operation == r.operation ==> HasOperation(rows, r.operation);
    }
  }

  lemma MarkKeeps(db: Db, operation: Text, scope: Text, state: Life)
    requires DbOk(db)
    ensures DbOk(MarkedDb(db, operation, scope, state)) && MarkedDb(db, operation, scope, state).rows == db.rows
    ensures MarkedDb(db, operation, scope, state).generations == db.generations
  {
    var after := MarkedDb(db, operation, scope, state);
    forall t
      ensures InOrder(after, t)
    {
      assert InOrder(db, t);
    }
  }

  // ------------------------------------------------------------------- permits

  predicate InWindow(created: int, now: int) { created <= now < created + DEADLINE }

  /** A SET carries the row's bits inside its five seconds; NULL belongs to a release row. */
  predicate PermitOk(p: Permit)
  {
    match p.kind
    case Set =>
      && p.row.identity.kind.Set? && InWindow(p.row.created, p.wallNow) && InWindow(p.row.created, p.prepareNow)
      && p.write == FrozenWrite(RealBytes(p.row.identity.bits), Some(p.row.identity.bits), false)
    case Release =>
      && p.row.identity.kind.Release? && p.row.identity.releaseAdmitted && p.write == FrozenWrite(NULL_BYTES, None, true)
  }

  ghost predicate PermitsOk(w: World)
  {
    && (forall i :: 0 <= i < |w.permits| ==>
          PermitOk(w.permits[i]) && w.permits[i].row in w.db.rows && !State(w.db, w.permits[i].row.operation).Admitted?)
    && (forall i, j :: 0 <= i < j < |w.permits| ==>
          w.permits[i].row.operation != w.permits[j].row.operation)
    && (forall i, j :: 0 <= i < j < |w.permits| && w.permits[i].row.target == w.permits[j].row.target ==>
          w.permits[i].row.generation < w.permits[j].row.generation)
  }

  ghost predicate Inv(w: World) { DbOk(w.db) && PermitsOk(w) }

  lemma {:induction false} RowForFinds(rows: seq<Row>, operation: Text, scope: Text)
    requires RowFor(rows, operation, scope).Some?
    ensures RowFor(rows, operation, scope).value in rows
    ensures RowFor(rows, operation, scope).value.operation == operation
    ensures RowFor(rows, operation, scope).value.target.scope == scope
  {
    if !(rows[0].operation == operation && rows[0].target.scope == scope) {
      RowForFinds(rows[1..], operation, scope);
    }
  }

  lemma {:induction false} TargetHolds(rows: seq<Row>, r: Row) returns (i: nat)
    requires r in rows
    ensures i < |ByTarget(rows, r.target)| && ByTarget(rows, r.target)[i] == r
  {
    var n := |rows| - 1;
    if r == rows[n] {
      i := |ByTarget(rows[..n], r.target)|;
    } else {
      i := TargetHolds(rows[..n], r);
    }
  }

  /** No row is ahead of its target, and two rows at one generation are one row. */
  lemma GenerationsAreIdentities(db: Db, a: Row, b: Row)
    requires DbOk(db) && a in db.rows && b in db.rows && a.target == b.target
    ensures 0 < a.generation <= Current(db, a.target)
    ensures a.generation == b.generation ==> a == b
  {
    hide ByTarget, RateOk;
    var i := TargetHolds(db.rows, a);
    var j := TargetHolds(db.rows, b);
    assert InOrder(db, a.target);
  }

  /** What a granted handoff relied on. */
  lemma GrantMeans(db: Db, h: Handoff, kind: Kind)
    requires DbOk(db) && Authorize(db, h, kind).Success? && IsTime(h.wallNow) && IsTime(h.prepareNow)
    ensures var row := RowFor(db.rows, h.operation, h.scope);
            && row.Some? && row.value in db.rows && row.value.operation == h.operation
            && State(db, h.operation).Admitted? && row.value.generation == Current(db, row.value.target)
            && PermitOk(Permit(row.value, Authorize(db, h, kind).value, kind, h.wallNow, h.prepareNow))
  {
    hide RateOk, InOrder, HasOperation, Distinct;
    RowForFinds(db.rows, h.operation, h.scope);
    var row := RowFor(db.rows, h.operation, h.scope).value;
    assert RowOk(row);
    if kind.Set? {
      WallIsAWindow(row.created, h.wallNow, row.deadline);
      WallIsAWindow(row.created, h.prepareNow, row.deadline);
    }
  }

  lemma MarkDispatched(db: Db, operation: Text, scope: Text)
    requires RowFor(db.rows, operation, scope).Some? && State(db, operation).Admitted?
    ensures MarkedDb(db, operation, scope, Dispatched) == Upsert(db, operation, Dispatched)
  {
  }

  /** Marks and admissions of other operations never bring a state back to admitted. */
  lemma StateStaysMarked(db: Db, step: Step, o: Text)
    requires DbOk(db) && StepOk(step) && HasOperation(db.rows, o) && !State(db, o).Admitted? && !step.HandoffStep?
    ensures !State(Next(World(db, []), step).db, o).Admitted?
  {
    hide UsedSince, InOrder, RateOk, RowFor, HasOperation;
  }

  lemma HandoffKeeps(w: World, step: Step)
    requires Inv(w) && StepOk(step) && step.HandoffStep?
    ensures Inv(Next(w, step))
  {
    hide DbOk, PermitOk, Authorize, RowFor, Transition;
    var h := step.handoff;
    if Authorize(w.db, h, step.kind).Success? {
      GrantMeans(w.db, h, step.kind);
      MarkDispatched(w.db, h.operation, h.scope);
      MarkKeeps(w.db, h.operation, h.scope, Dispatched);
      var row := RowFor(w.db.rows, h.operation, h.scope).value;
      forall i | 0 <= i < |w.permits|
        ensures w.permits[i].row.operation != row.operation
        ensures w.permits[i].row.target == row.target ==> w.permits[i].row.generation < row.generation
      {
        if w.permits[i].row.target == row.target {
          GenerationsAreIdentities(w.db, w.permits[i].row, row);
        }
      }
    }
  }

  lemma StepKeeps(w: World, step: Step)
    requires Inv(w) && StepOk(step)
    ensures Inv(Next(w, step))
  {
    hide DbOk, PermitOk, Authorize, RowFor;
    match step
    case HandoffStep(_, _, _) => HandoffKeeps(w, step);
    case AdmitStep(q, guardNow, insertNow) =>
      AdmitKeeps(w.db, q, guardNow, insertNow);
      PermitsStay(w, step);
    case MarkStep(operation, scope, state) =>
      MarkKeeps(w.db, operation, scope, state);
      PermitsStay(w, step);
  }

  lemma PermitsStay(w: World, step: Step)
    requires Inv(w) && StepOk(step) && !step.HandoffStep?
    ensures PermitsOk(Next(w, step))
  {
    hide PermitOk, RateOk, InOrder, UsedSince;
    var after := Next(w, step);
    forall i | 0 <= i < |w.permits|
      ensures w.permits[i].row in after.db.rows && !State(after.db, w.permits[i].row.operation).Admitted?
    {
      var k :| 0 <= k < |w.db.rows| && w.db.rows[k] == w.permits[i].row;
      assert HasOperation(w.db.rows, w.permits[i].row.operation);
      StateStaysMarked(w.db, step, w.permits[i].row.operation);
      assert after.db.rows[k] == w.permits[i].row;
    }
  }

  lemma NothingIsOk()
    ensures Inv(START)
  {
    forall t
      ensures InOrder(EMPTY, t)
    {
      assert ByTarget([], t) == [];
    }
  }

  lemma {:induction false} EveryRunIsOk(steps: seq<Step>)
    ensures Inv(After(steps))
  {
    hide Inv, Next, StepOk;
    if steps == [] {
      NothingIsOk();
    } else {
      var w, step := After(steps[..|steps| - 1]), steps[|steps| - 1];
      EveryRunIsOk(steps[..|steps| - 1]);
      if StepOk(step) {
        StepKeeps(w, step);
      }
    }
  }
}
