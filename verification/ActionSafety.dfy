/** The results about every run of the action journal and its joined handoffs. */
module ActionSafety {
  import opened Wrappers
  import opened Framing
  import opened GuardedStore
  import opened ActionDb
  import opened ActionHandoff
  import opened ActionRuns

  /**
   At most one write permit is ever granted per operation, and the permits of one
   target carry strictly increasing generations.
   */
  lemma AtMostOnePermit(steps: seq<Step>, i: nat, j: nat)
    requires i < j < |After(steps).permits|
    ensures After(steps).permits[i].row.operation != After(steps).permits[j].row.operation
    ensures After(steps).permits[i].row.target == After(steps).permits[j].row.target ==>
              After(steps).permits[i].row.generation < After(steps).permits[j].row.generation
  {
    hide After, DbOk, PermitOk;
    EveryRunIsOk(steps);
  }

  /**
   Every permit belongs to a durable row: a SET was granted inside the five
   seconds after the row's stamp and carries its very bits; NULL only a release.
   */
  lemma PermitsMatchTheirRows(steps: seq<Step>, i: nat)
    requires i < |After(steps).permits|
    ensures After(steps).permits[i].row in After(steps).db.rows && PermitOk(After(steps).permits[i])
  {
    hide After, DbOk, PermitOk;
    EveryRunIsOk(steps);
  }

  // ---------------------------------------------------------------- generations

  /** The rows of a target are its generations one to current, without gap or repeat. */
  lemma {:induction false} GenerationsAreComplete(steps: seq<Step>, t: Target, i: nat)
    ensures Current(After(steps).db, t) == |ByTarget(After(steps).db.rows, t)|
    ensures i < |ByTarget(After(steps).db.rows, t)| ==> ByTarget(After(steps).db.rows, t)[i].generation == i + 1
  {
    hide After, ByTarget, RateOk, PermitsOk;
    EveryRunIsOk(steps);
    assert InOrder(After(steps).db, t);
  }

  /** Of rivals that expected the same generation of a target, at most one ever commits. */
  lemma RivalsDoNotBothCommit(steps: seq<Step>, a: Row, b: Row)
    requires a in After(steps).db.rows && b in After(steps).db.rows
    requires a.target == b.target && a.expected == b.expected
    ensures a == b
  {
    hide After, InOrder, RateOk, PermitsOk, HasOperation;
    EveryRunIsOk(steps);
    var db := After(steps).db;
    assert RowOk(a) && RowOk(b);
    GenerationsAreIdentities(db, a, b);
  }

  /** A committed operation is exactly one row, and no later ticket under it runs. */
  lemma {:induction false} AdmissionIsExactlyOnce(steps: seq<Step>, i: nat, q: Request, guardNow: int, insertNow: int)
    requires i < |After(steps).db.rows|
    requires q.operation == After(steps).db.rows[i].operation
    ensures forall j :: 0 <= j < |After(steps).db.rows| && j != i ==> After(steps).db.rows[j].operation != q.operation
    ensures Admit(After(steps).db, q, guardNow, insertNow) == After(steps).db
  {
    hide After, InOrder, RateOk, PermitsOk;
    EveryRunIsOk(steps);
    assert HasOperation(After(steps).db.rows, q.operation);
  }

  // ----------------------------------------------------------------------- rate

  /** SET rows of a target stamped in the closed hour from `w`. */
  function InHour(rows: seq<Row>, t: Target, w: int): nat
  {
    if rows == [] then 0
    else
      var last := rows[|rows| - 1];
      InHour(rows[..|rows| - 1], t, w)
      + if CountsFor(last, t, w) && last.created <= w + RATE_WINDOW then 1 else 0
  }

  lemma {:induction false} InHourIsUsed(rows: seq<Row>, t: Target, w: int, since: int)
    requires since <= w
    ensures InHour(rows, t, w) <= UsedSince(rows, t, since)
  {
    if rows != [] {
      InHourIsUsed(rows[..|rows| - 1], t, w, since);
    }
  }

  lemma {:induction false} HourIsBounded(rows: seq<Row>, t: Target, w: int)
    requires RateOk(rows)
    ensures InHour(rows, t, w) <= RATE_MAX
  {
    if rows != [] {
      var n := |rows| - 1;
      var before, last := rows[..n], rows[n];
      forall p | 0 <= p < n && before[p].identity.kind.Set?
        ensures UsedSince(before[..p], before[p].target, before[p].created - RATE_WINDOW) < RATE_MAX
      {
        assert before[..p] == rows[..p];
      }
      HourIsBounded(before, t, w);
      if CountsFor(last, t, w) && last.created <= w + RATE_WINDOW {
        InHourIsUsed(before, t, w, last.created - RATE_WINDOW);
      }
    }
  }

  /**
   However the wall clock moves between admissions, no closed hour of stamps
   holds more than six SET rows of one target.
   */
  lemma SixSetsAnHour(steps: seq<Step>, t: Target, w: int)
    ensures InHour(After(steps).db.rows, t, w) <= RATE_MAX
  {
    hide After, InOrder, PermitsOk, RateOk, InHour;
    EveryRunIsOk(steps);
    HourIsBounded(After(steps).db.rows, t, w);
  }

  /** The rate never turns a release away; a fresh release at the current generation commits. */
  lemma ReleasesAreNeverRateRefused(db: Db, q: Request, guardNow: int)
    requires q.identity.kind.Release?
    ensures BatchRefusal(db, q, guardNow) != Some(RateGuard)
    ensures q.operation !in db.receipts && !HasOperation(db.rows, q.operation) && Current(db, q.target) == q.expected
        ==> Admission(db, q, guardNow) == Applied
  {
  }

  /**
   Exactly when a ticket commits in a reachable store: its operation is new, its
   generation is current, and, unless it is a release, the hour has room.
   */
  lemma AdmittedExactly(steps: seq<Step>, q: Request, guardNow: int)
    ensures var db := After(steps).db;
            Admission(db, q, guardNow).Applied?
            <==> q.operation !in db.receipts && Current(db, q.target) == q.expected
                 && (q.identity.kind.Release? || UsedSince(db.rows, q.target, guardNow - RATE_WINDOW) < RATE_MAX)
  {
    hide After, InOrder, RateOk, PermitsOk, HasOperation, UsedSince, Distinct;
    EveryRunIsOk(steps);
    var db := After(steps).db;
    assert HasOperation(db.rows, q.operation) <==> q.operation in db.receipts;
    if q.identity.kind.Release? {
      ReleasesAreNeverRateRefused(db, q, guardNow);
    }
  }

  // ------------------------------------------------------------------ transfers

  /** `check_transfer_equivalence`: the successor's preview carries the same obligation. */
  predicate Equivalent(from: Row, p: Preview)
  {
    && from.target.equipment == p.target.equipment && from.binding == p.binding && from.accepted == p.accepted
    && from.identity.bits == p.bits && from.identity.kind == KindOf(p)
    && from.identity.releaseAdmitted == p.releaseAdmitted && from.identity.releaseTarget == p.releaseTarget
  }

  /** Everything a transfer is asked with; `from` is the durable row it takes over. */
  datatype Transfer = Transfer(
    from: Row, operation: Text, scope: Text, ceiling: nat, role: Role, actor: Text, preview: Preview,
    expected: nat, held: set<Text>, excluded: Option<Text>, permitted: bool)

  /** `check_transfer_narrow`: a new operation, a different permitted actor, the old one excluded. */
  predicate Narrow(x: Transfer)
  {
    x.operation != x.from.operation && x.actor != x.from.actor && x.excluded == Some(x.from.actor) && x.permitted
  }

  /** `transfer_narrow_via_new_admission` up to its ticket. */
  function PrepareTransfer(x: Transfer, maxPayload: nat): Result<Request, WriterError>
  {
    if x.scope in x.held || x.from.target.scope != x.scope || !Narrow(x) || !Equivalent(x.from, x.preview)
    then Failure(Conflict)
    else
      Prepare(x.operation, x.scope, x.ceiling, x.role, x.actor, x.preview, x.expected, Some(x.from.operation), maxPayload)
  }

  /** The obligation that a transfer must carry over. */
  predicate SameObligation(a: Row, b: Row)
  {
    a.target == b.target && a.binding == b.binding && a.accepted == b.accepted && a.identity == b.identity
  }

  lemma TransferKeepsObligation(x: Transfer, maxPayload: nat, created: int)
    requires PrepareTransfer(x, maxPayload).Success?
    ensures var q := PrepareTransfer(x, maxPayload).value;
            && SameObligation(x.from, RowOf(q, created)) && q.predecessor == Some(x.from.operation)
            && q.actor != x.from.actor && q.operation != x.from.operation
  {
  }

  /** A ticket with a predecessor link was prepared by a transfer from a durable row. */
  ghost predicate Transferred(db: Db, q: Request)
  {
    q.predecessor.Some? ==>
      exists x: Transfer, maxPayload: nat :: x.from in db.rows && PrepareTransfer(x, maxPayload) == Success(q)
  }

  /** Only transfers write predecessor links. */
  ghost predicate LinksByTransfer(steps: seq<Step>)
  {
    forall k :: 0 <= k < |steps| && steps[k].AdmitStep? ==> Transferred(After(steps[..k]).db, steps[k].request)
  }

  ghost predicate LinkOk(db: Db, r: Row)
  {
    Predecessor(db, r.operation).None? || exists p :: Precedes(db, p, r)
  }

  /** `p` is the row that `r` was transferred from. */
  predicate Precedes(db: Db, p: Row, r: Row)
  {
    && p in db.rows && Predecessor(db, r.operation) == Some(p.operation) && SameObligation(p, r)
    && p.generation < r.generation
  }

  ghost predicate LinksOk(db: Db) { forall i :: 0 <= i < |db.rows| ==> LinkOk(db, db.rows[i]) }

  lemma LinkCarries(before: Db, after: Db, r: Row)
    requires LinkOk(before, r) && (forall x :: x in before.rows ==> x in after.rows)
    requires Predecessor(after, r.operation) == Predecessor(before, r.operation)
    ensures LinkOk(after, r)
  {
    if Predecessor(before, r.operation).Some? {
      var p :| Precedes(before, p, r);
      assert Precedes(after, p, r);
    }
  }

  lemma MarkKeepsLinks(db: Db, operation: Text, scope: Text, state: Life)
    requires LinksOk(db)
    ensures LinksOk(MarkedDb(db, operation, scope, state))
  {
    hide LinkOk;
    var after := MarkedDb(db, operation, scope, state);
    forall i | 0 <= i < |after.rows|
      ensures LinkOk(after, after.rows[i])
    {
      LinkCarries(db, after, db.rows[i]);
    }
  }

  lemma AdmitKeepsLinks(db: Db, q: Request, guardNow: int, insertNow: int)
    requires DbOk(db) && LinksOk(db) && Transferred(db, q)
    ensures LinksOk(Admit(db, q, guardNow, insertNow))
  {
    hide LinkOk, RateOk, InOrder, UsedSince, PrepareTransfer;
    if Admission(db, q, guardNow).Applied? {
      var after, r := Insert(db, q, insertNow), RowOf(q, insertNow);
      forall i | 0 <= i < |after.rows|
        ensures LinkOk(after, after.rows[i])
      {
        if i < |db.rows| {
          assert HasOperation(db.rows, db.rows[i].operation);
          LinkCarries(db, after, db.rows[i]);
        } else {
          NewLink(db, q, insertNow);
        }
      }
    }
  }

  lemma NewLink(db: Db, q: Request, created: int)
    requires DbOk(db) && Transferred(db, q) && Current(db, q.target) == q.expected
    ensures LinkOk(Insert(db, q, created), RowOf(q, created))
  {
    hide RateOk, InOrder, UsedSince, PrepareTransfer, HasOperation, Distinct;
    if q.predecessor.Some? {
      var x: Transfer, maxPayload: nat :| x.from in db.rows && PrepareTransfer(x, maxPayload) == Success(q);
      TransferKeepsObligation(x, maxPayload, created);
      GenerationsAreIdentities(db, x.from, x.from);
      assert Precedes(Insert(db, q, created), x.from, RowOf(q, created));
    }
  }

  lemma {:induction false} EveryRunLinks(steps: seq<Step>)
    requires LinksByTransfer(steps)
    ensures LinksOk(After(steps).db)
  {
    hide LinkOk, Transferred, Authorize, Inv;
    if steps != [] {
      var n := |steps| - 1;
      var w, step := After(steps[..n]), steps[n];
      forall k | 0 <= k < n && steps[..n][k].AdmitStep?
        ensures Transferred(After(steps[..n][..k]).db, steps[..n][k].request)
      {
        assert steps[..n][..k] == steps[..k];
      }
      EveryRunLinks(steps[..n]);
      EveryRunIsOk(steps[..n]);
      InvDb(w);
      if StepOk(step) {
        match step
        case AdmitStep(q, guardNow, insertNow) => AdmitKeepsLinks(w.db, q, guardNow, insertNow);
        case MarkStep(operation, scope, state) => MarkKeepsLinks(w.db, operation, scope, state);
        case HandoffStep(h, _, _) => MarkKeepsLinks(w.db, h.operation, h.scope, Dispatched);
      }
    }
  }

  lemma InvDb(w: World)
    requires Inv(w)
    ensures DbOk(w.db)
  {
  }

  /** Rows that follow predecessor links, newest first. */
  ghost predicate LinkedChain(db: Db, chain: seq<Row>)
  {
    && (forall k :: 0 <= k < |chain| ==> chain[k] in db.rows)
    && (forall k :: 0 <= k < |chain| - 1 ==> Predecessor(db, chain[k].operation) == Some(chain[k + 1].operation))
  }

  lemma OperationNamesRow(db: Db, a: Row, b: Row)
    requires DbOk(db) && a in db.rows && b in db.rows && a.operation == b.operation
    ensures a == b
  {
    hide RateOk, InOrder, HasOperation;
    var i :| 0 <= i < |db.rows| && db.rows[i] == a;
    var j :| 0 <= j < |db.rows| && db.rows[j] == b;
  }

  /**
   Transfer chains are well founded and keep the obligation: along the links the
   generation strictly falls, and scope, equipment, bits, kind, release and both
   revisions are those of the original, however many transfers lie between.
   */
  lemma {:induction false} ChainKeepsObligation(steps: seq<Step>, chain: seq<Row>)
    requires LinksByTransfer(steps) && LinkedChain(After(steps).db, chain) && |chain| > 0
    ensures SameObligation(chain[0], chain[|chain| - 1])
    ensures |chain| > 1 ==> chain[|chain| - 1].generation < chain[0].generation
    ensures |chain| <= chain[0].generation
    decreases |chain|
  {
    hide After, Inv, SameObligation, LinksByTransfer;
    var db := After(steps).db;
    EveryRunIsOk(steps);
    InvDb(After(steps));
    EveryRunLinks(steps);
    ChainStep(db, chain);
    if |chain| > 1 {
      ChainKeepsObligation(steps, chain[1..]);
      SameObligationChain(chain[0], chain[1], chain[|chain| - 1]);
    }
  }

  lemma ChainStep(db: Db, chain: seq<Row>)
    requires DbOk(db) && LinksOk(db) && LinkedChain(db, chain) && |chain| > 0
    ensures chain[0].generation > 0 && SameObligation(chain[0], chain[0])
    ensures |chain| > 1 ==>
              && LinkedChain(db, chain[1..]) && SameObligation(chain[1], chain[0])
              && chain[1].generation < chain[0].generation
  {
    hide RateOk, InOrder, HasOperation, Distinct, RowOk;
    GenerationsAreIdentities(db, chain[0], chain[0]);
    if |chain| > 1 {
      var i :| 0 <= i < |db.rows| && db.rows[i] == chain[0];
      assert LinkOk(db, db.rows[i]);
      assert Predecessor(db, chain[0].operation) == Some(chain[0 + 1].operation);
      var p :| Precedes(db, p, chain[0]);
      OperationNamesRow(db, p, chain[1]);
    }
  }

  lemma SameObligationChain(a: Row, b: Row, c: Row)
    requires SameObligation(b, a) && SameObligation(b, c)
    ensures SameObligation(a, c)
  {
  }

  /** Rows and their links are never changed by anything that comes later. */
  lemma {:induction false} RowsNeverChange(steps: seq<Step>, t: nat, o: Text)
    requires t <= |steps|
    ensures After(steps[..t]).db.rows <= After(steps).db.rows
    ensures HasOperation(After(steps[..t]).db.rows, o) ==>
              Predecessor(After(steps).db, o) == Predecessor(After(steps[..t]).db, o)
  {
    hide Authorize, UsedSince, InOrder, RateOk;
    if t == |steps| {
      assert steps[..t] == steps;
    } else {
      var n := |steps| - 1;
      var w := After(steps[..n]);
      RowsNeverChange(steps[..n], t, o);
      assert steps[..n][..t] == steps[..t];
      EveryRunIsOk(steps[..n]);
      if HasOperation(After(steps[..t]).db.rows, o) {
        OperationStays(After(steps[..t]).db.rows, w.db.rows, o);
      }
    }
  }

  lemma OperationStays(before: seq<Row>, after: seq<Row>, o: Text)
    requires before <= after && HasOperation(before, o)
    ensures HasOperation(after, o)
  {
    var i :| 0 <= i < |before| && before[i].operation == o;
    assert after[i].operation == o;
  }
}
