/**
 The journal as the object it is, with its announcement queue, and how often one
 admission can be announced.
 */
module ActionJournal {
  import opened Wrappers
  import opened Framing
  import opened GuardedStore
  import opened ActionDb
  import opened ActionRuns

  /** What becomes of a submission's reply. */
  datatype Reply = Delivered | Lost | CrashedBeforeAnnouncing

  /** Lossless identical-retry comparison of a ticket with a durable row. */
  predicate Identical(q: Request, row: Row, predecessor: Option<Text>)
  {
    row.payload == q.payload && row.identity == q.identity && predecessor == q.predecessor
  }

  const HISTORY_CAPACITY: nat := 1

  function HistoryLine(row: Row): Text
  {
    "journal " + row.operation + " scope=" + row.target.scope + " target=" + row.target.equipment
  }

  class Journal {
    var db: Db
    var essential: seq<Row>
    var refused: nat
    var history: seq<Text>
    var historyRefused: nat
    const capacity: nat

    constructor (capacity: nat)
      ensures db == EMPTY && essential == [] && refused == 0 && this.capacity == capacity
      ensures history == [] && historyRefused == 0
    {
      db, essential, refused := EMPTY, [], 0;
      history, historyRefused := [], 0;
      this.capacity := capacity;
    }

    /** Another dispatcher may commit between the receipt lookup and the submission. */
    method AtBoundary()
      modifies `db
      ensures old(db.rows) <= db.rows
      ensures forall o :: o in old(db.receipts) ==> o in db.receipts && db.receipts[o] == old(db.receipts)[o]
    {
    }

    /** Announce to both bounded queues; a full queue counts a refusal, and neither holds up the other. */
    method Announce(row: Row)
      modifies `essential, `refused, `history, `historyRefused
      ensures |old(essential)| < capacity ==> essential == old(essential) + [row] && refused == old(refused)
      ensures |old(essential)| >= capacity ==> essential == old(essential) && refused == old(refused) + 1
      ensures |old(history)| < HISTORY_CAPACITY ==>
                history == old(history) + [HistoryLine(row)] && historyRefused == old(historyRefused)
      ensures |old(history)| >= HISTORY_CAPACITY ==>
                history == old(history) && historyRefused == old(historyRefused) + 1
    {
      if |essential| < capacity {
        essential := essential + [row];
      } else {
        refused := refused + 1;
      }
      if |history| < HISTORY_CAPACITY {
        history := history + [HistoryLine(row)];
      } else {
        historyRefused := historyRefused + 1;
      }
    }

    /** Read the committed row back and hold it against the ticket. */
    method ReadBack(q: Request) returns (r: Result<Row, WriterError>)
      ensures r.Success? ==> RowFor(db.rows, q.operation, q.target.scope) == Some(r.value)
                             && Identical(q, r.value, Predecessor(db, q.operation))
    {
      var row := RowFor(db.rows, q.operation, q.target.scope);
      if row.None? {
        return Failure(NotFound);
      }
      if !Identical(q, row.value, Predecessor(db, q.operation)) {
        return Failure(Conflict);
      }
      return Success(row.value);
    }

    /**
     Reconcile the ticket, else submit it and announce what it committed. A
     receipt that is already there is answered without writing or announcing.
     */
    method Submit(q: Request, guardNow: int, insertNow: int, reply: Reply) returns (r: Result<Row, WriterError>)
      modifies this
      ensures old(db.rows) <= db.rows
      ensures q.operation in old(db.receipts) ==>
                db == old(db) && unchanged(`essential, `refused, `history, `historyRefused)
      ensures q.operation in old(db.receipts) && old(db.receipts)[q.operation] != q ==> r == Failure(Conflict)
      ensures r.Success? ==>
                && q.operation in db.receipts && db.receipts[q.operation] == q
                && RowFor(db.rows, q.operation, q.target.scope) == Some(r.value)
                && Identical(q, r.value, Predecessor(db, q.operation))
      ensures essential != old(essential) ==>
                && r.Success? && reply.Delivered? && q.operation !in old(db.receipts)
                && essential == old(essential) + [r.value]
      ensures q.operation !in old(db.receipts) && r.Success? ==>
                && |essential| + refused == |old(essential)| + old(refused) + 1
                && |history| + historyRefused == |old(history)| + old(historyRefused) + 1
      ensures r.Failure? ==> unchanged(`essential, `refused, `history, `historyRefused)
    {
      if q.operation in db.receipts {
        if db.receipts[q.operation] != q {
          return Failure(Conflict);
        }
        r := ReadBack(q);
        return;
      }
      AtBoundary();
      var verdict, refusal := Admission(db, q, guardNow), BatchRefusal(db, q, guardNow);
      db := Admit(db, q, guardNow, insertNow);
      match verdict {
        case Clash => return Failure(Conflict);
        case Refused =>
          match refusal {
            case Some(GenerationGuard) => return Failure(StaleGeneration(q.expected, Current(db, q.target)));
            case Some(RateGuard) => return Failure(RateExceeded(UsedSince(db.rows, q.target, guardNow - RATE_WINDOW)));
            case Some(DuplicateOperation) => return Failure(Conflict);
            case None => return Failure(Invalid);
          }
        case Applied =>
        case Replayed =>
      }
      if reply.Lost? {
        return Failure(Unknown);
      }
      r := ReadBack(q);
      if r.Failure? {
        return;
      }
      if reply.CrashedBeforeAnnouncing? {
        return Failure(Unknown);
      }
      Announce(r.value);
    }
  }

  // ------------------------------------------------------ announcing, concurrently

  /**
   Dispatchers that have looked for a receipt, found none, and have yet to send.
   An announcement comes with the commit (`first`) or with a replay of it.
   */
  datatype Dispatching = Dispatching(
    db: Db, announced: seq<Text>, first: seq<Text>, replayed: seq<Text>, looked: map<nat, Request>)

  datatype Move =
    | Look(client: nat, request: Request)
    | Send(client: nat, guardNow: int, insertNow: int, crashes: bool)

  function NextMove(w: Dispatching, m: Move): Dispatching
  {
    match m
    case Look(c, q) => if q.operation in w.db.receipts then w else w.(looked := w.looked[c := q])
    case Send(c, guardNow, insertNow, crashes) =>
      if c !in w.looked then w
      else
        var q := w.looked[c];
        var verdict := Admission(w.db, q, guardNow);
        var announces := !crashes && (verdict.Applied? || verdict.Replayed?);
        Dispatching(Admit(w.db, q, guardNow, insertNow),
                    if announces then w.announced + [q.operation] else w.announced,
                    if announces && verdict.Applied? then w.first + [q.operation] else w.first,
                    if announces && verdict.Replayed? then w.replayed + [q.operation] else w.replayed,
                    w.looked - {c})
  }

  const QUIET := Dispatching(EMPTY, [], [], [], map[])

  function Continue(w: Dispatching, moves: seq<Move>): Dispatching
  {
    if moves == [] then w else NextMove(Continue(w, moves[..|moves| - 1]), moves[|moves| - 1])
  }

  function AfterMoves(moves: seq<Move>): Dispatching { Continue(QUIET, moves) }

  function Times(announced: seq<Text>, o: Text): nat
  {
    if announced == [] then 0
    else Times(announced[..|announced| - 1], o) + if announced[|announced| - 1] == o then 1 else 0
  }

  lemma TimesMore(announced: seq<Text>, x: Text, o: Text)
    ensures Times(announced + [x], o) == Times(announced, o) + if x == o then 1 else 0
  {
    assert (announced + [x])[..|announced|] == announced;
  }

  /** Every announcement comes with the one commit, or is a send that found its receipt. */
  ghost predicate Accounted(w: Dispatching, o: Text)
  {
    && Times(w.announced, o) == Times(w.first, o) + Times(w.replayed, o) && Times(w.first, o) <= 1
    && (o !in w.db.receipts ==> Times(w.announced, o) == 0)
    && (HasOperation(w.db.rows, o) <==> o in w.db.receipts)
  }

  lemma SendEffect(db: Db, q: Request, guardNow: int, insertNow: int, o: Text)
    requires HasOperation(db.rows, o) <==> o in db.receipts
    ensures var after := Admit(db, q, guardNow, insertNow);
            && (o in after.receipts <==> o in db.receipts || (Admission(db, q, guardNow).Applied? && o == q.operation))
            && (HasOperation(after.rows, o) <==> o in after.receipts)
            && (o in db.receipts ==> after.receipts[o] == db.receipts[o])
  {
    hide BatchRefusal, HasOperation;
    AppendedOperation(db.rows, RowOf(q, insertNow), o);
  }

  lemma VerdictMeans(db: Db, q: Request, guardNow: int)
    ensures Admission(db, q, guardNow).Applied? ==> q.operation !in db.receipts
    ensures Admission(db, q, guardNow).Replayed? <==> q.operation in db.receipts && db.receipts[q.operation] == q
  {
    hide BatchRefusal;
  }

  lemma MoveKeepsAccount(w: Dispatching, m: Move, o: Text)
    requires Accounted(w, o)
    ensures Accounted(NextMove(w, m), o)
  {
    hide Admit, Admission, Times, HasOperation;
    if m.Send? && m.client in w.looked {
      var q := w.looked[m.client];
      SendEffect(w.db, q, m.guardNow, m.insertNow, o);
      VerdictMeans(w.db, q, m.guardNow);
      TimesMore(w.announced, q.operation, o);
      TimesMore(w.first, q.operation, o);
      TimesMore(w.replayed, q.operation, o);
    }
  }

  /**
   However dispatchers, retries, lost replies and crashes interleave, an operation
   is announced exactly once for each send that found its receipt there, and once
   more if the send that committed it lived to announce it.
   */
  lemma {:induction false} AnnouncementsAreAccounted(moves: seq<Move>, o: Text)
    ensures Accounted(AfterMoves(moves), o)
  {
    hide NextMove, Accounted;
    if moves == [] {
      NothingAccounted(o);
    } else {
      AnnouncementsAreAccounted(moves[..|moves| - 1], o);
      MoveKeepsAccount(AfterMoves(moves[..|moves| - 1]), moves[|moves| - 1], o);
    }
  }

  lemma NothingAccounted(o: Text)
    ensures Accounted(QUIET, o)
  {
  }

  // ------------------------------------------------- when once is at most once

  ghost predicate Committed(w: Dispatching, o: Text)
  {
    Accounted(w, o) && o in w.db.receipts && w.db.receipts[o].operation == o
  }

  /** The dispatchers still to send the very ticket that committed. */
  function Waiting(w: Dispatching, o: Text): set<nat>
    requires o in w.db.receipts
  {
    set c | c in w.looked && w.looked[c] == w.db.receipts[o]
  }

  /** No way of going on announces the operation a second time. */
  ghost predicate AtMostOnceFrom(w: Dispatching, o: Text)
  {
    forall moves :: Times(Continue(w, moves).announced, o) <= 1
  }

  /** Announced or waiting to be: no move makes that more once the operation has committed. */
  lemma MoveKeepsTotal(w: Dispatching, m: Move, o: Text)
    requires Committed(w, o)
    ensures Committed(NextMove(w, m), o)
    ensures Times(NextMove(w, m).announced, o) + |Waiting(NextMove(w, m), o)| <= Times(w.announced, o) + |Waiting(w, o)|
  {
    hide Admit, Admission, Times, HasOperation;
    MoveKeepsAccount(w, m, o);
    var next, c := NextMove(w, m), m.client;
    if m.Look? {
      Fewer(Waiting(next, o), Waiting(w, o));
    } else if c in w.looked {
      var q := w.looked[c];
      SendEffect(w.db, q, m.guardNow, m.insertNow, o);
      VerdictMeans(w.db, q, m.guardNow);
      TimesMore(w.announced, q.operation, o);
      assert Waiting(next, o) == Waiting(w, o) - {c};
    }
  }

  lemma Fewer(a: set<nat>, b: set<nat>)
    requires a <= b
    ensures |a| <= |b|
  {
    assert b == a + (b - a);
  }

  lemma {:induction false} MovesKeepTotal(w: Dispatching, moves: seq<Move>, o: Text)
    requires Committed(w, o)
    ensures Committed(Continue(w, moves), o)
    ensures Times(Continue(w, moves).announced, o) + |Waiting(Continue(w, moves), o)|
         <= Times(w.announced, o) + |Waiting(w, o)|
  {
    hide NextMove, Accounted, Waiting, Times;
    if moves != [] {
      MovesKeepTotal(w, moves[..|moves| - 1], o);
      MoveKeepsTotal(Continue(w, moves[..|moves| - 1]), moves[|moves| - 1], o);
    }
  }

  /** A waiting dispatcher that lives to announce, does. */
  lemma WaitingAnnounces(w: Dispatching, o: Text, c: nat)
    requires Committed(w, o) && c in Waiting(w, o)
    ensures var next := NextMove(w, Send(c, 0, 0, false));
            && Times(next.announced, o) == Times(w.announced, o) + 1
            && Committed(next, o) && Waiting(next, o) == Waiting(w, o) - {c}
  {
    hide Times, HasOperation, BatchRefusal;
    MoveKeepsAccount(w, Send(c, 0, 0, false), o);
    TimesMore(w.announced, o, o);
  }

  /** Receipts are kept under their ticket's own operation. */
  ghost predicate Filed(db: Db) { forall o :: o in db.receipts ==> db.receipts[o].operation == o }

  lemma {:induction false} ReceiptsAreFiled(moves: seq<Move>)
    ensures Filed(AfterMoves(moves).db)
  {
    hide BatchRefusal;
    if moves != [] {
      ReceiptsAreFiled(moves[..|moves| - 1]);
    }
  }

  lemma TwoMoves(w: Dispatching, a: Move, b: Move)
    ensures Continue(w, [a]) == NextMove(w, a) && Continue(w, [a, b]) == NextMove(NextMove(w, a), b)
  {
    hide NextMove;
    assert [a, b][..1] == [a] && [a][..0] == [];
  }

  /** Two dispatchers that look before an operation commits can both announce it. */
  lemma UncommittedCanDouble(w: Dispatching, q: Request, now: int)
    requires Accounted(w, q.operation) && q.operation !in w.db.receipts
    requires q.identity.kind.Release? && Current(w.db, q.target) == q.expected
    ensures Times(Continue(w, [Look(0, q), Look(1, q), Send(0, now, now, false), Send(1, now, now, false)]).announced,
                  q.operation) == 2
  {
    hide Times, HasOperation;
    var m, o := [Look(0, q), Look(1, q), Send(0, now, now, false), Send(1, now, now, false)], q.operation;
    assert m[..4] == m && m[..3][..2] == m[..2] && m[..2][..1] == m[..1] && m[..1][..0] == [];
    assert Continue(w, m[..1]) == w.(looked := w.looked[0 := q]);
    var both := Continue(w, m[..2]);
    assert both == w.(looked := w.looked[0 := q][1 := q]);
    assert Admission(both.db, q, now).Applied?;
    var sent := NextMove(both, m[2]);
    assert Continue(w, m[..3]) == sent;
    TimesMore(w.announced, o, o);
    TimesMore(sent.announced, o, o);
    assert sent.looked[1] == q && sent.db.receipts[o] == q;
    assert NextMove(sent, m[3]).announced == sent.announced + [o];
  }

  /** A second announcement is reached when two are due or one is due after another. */
  lemma DueTwice(w: Dispatching, o: Text)
    requires Committed(w, o)
    requires Times(w.announced, o) + |Waiting(w, o)| > 1
    ensures !AtMostOnceFrom(w, o)
  {
    hide Times, NextMove, Accounted, Waiting;
    if Times(w.announced, o) > 1 {
      assert Continue(w, []) == w;
    } else {
      var c :| c in Waiting(w, o);
      WaitingAnnounces(w, o, c);
      var a := Send(c, 0, 0, false);
      if Times(w.announced, o) == 1 {
        TwoMoves(w, a, a);
        assert Times(Continue(w, [a]).announced, o) == 2;
      } else {
        assert |Waiting(w, o) - {c}| == |Waiting(w, o)| - 1;
        var d :| d in Waiting(w, o) - {c};
        var b := Send(d, 0, 0, false);
        WaitingAnnounces(NextMove(w, a), o, d);
        TwoMoves(w, a, b);
        assert Times(Continue(w, [a, b]).announced, o) == 2;
      }
    }
  }

  /**
   At any reachable moment: however dispatchers go on, an operation is announced
   at most once if and only if it has committed already, and its announcements
   together with the dispatchers still waiting to send its ticket are at most one.
   */
  lemma AnnouncedOnceExactly(moves: seq<Move>, o: Text)
    ensures var w := AfterMoves(moves);
            AtMostOnceFrom(w, o) <==> o in w.db.receipts && Times(w.announced, o) + |Waiting(w, o)| <= 1
  {
    hide AfterMoves, Accounted, Waiting, Times, Continue;
    var w := AfterMoves(moves);
    AnnouncementsAreAccounted(moves, o);
    if o !in w.db.receipts {
      var target := Target([], []);
      var q := Request(o, target, 0, 0, Current(w.db, target), [], 0, [], Identity(0, Release, true, []), None);
      UncommittedCanDouble(w, q, 0);
    } else if Times(w.announced, o) + |Waiting(w, o)| <= 1 {
      FiledUnder(moves, o);
      forall more
        ensures Times(Continue(w, more).announced, o) <= 1
      {
        MovesKeepTotal(w, more, o);
      }
    } else {
      FiledUnder(moves, o);
      DueTwice(w, o);
    }
  }

  lemma FiledUnder(moves: seq<Move>, o: Text)
    requires o in AfterMoves(moves).db.receipts
    ensures AfterMoves(moves).db.receipts[o].operation == o
  {
    hide AfterMoves;
    ReceiptsAreFiled(moves);
  }

  /** Nobody looks while another dispatcher of the same operation is still to send. */
  ghost predicate Exclusive(moves: seq<Move>)
  {
    forall k :: 0 <= k < |moves| && moves[k].Look? ==>
      forall c :: c in AfterMoves(moves[..k]).looked ==>
        AfterMoves(moves[..k]).looked[c].operation != moves[k].request.operation
  }

  ghost predicate Apart(w: Dispatching)
  {
    && w.replayed == []
    && (forall c :: c in w.looked ==> w.looked[c].operation !in w.db.receipts)
    && (forall c, d :: c in w.looked && d in w.looked && c != d ==> w.looked[c].operation != w.looked[d].operation)
  }

  lemma {:induction false} ExclusiveNeverReplays(moves: seq<Move>)
    requires Exclusive(moves)
    ensures Apart(AfterMoves(moves))
  {
    hide UsedSince, HasOperation;
    if moves != [] {
      var n := |moves| - 1;
      forall k | 0 <= k < n && moves[..n][k].Look?
        ensures forall c :: c in AfterMoves(moves[..n][..k]).looked ==>
                  AfterMoves(moves[..n][..k]).looked[c].operation != moves[..n][k].request.operation
      {
        assert moves[..n][..k] == moves[..k];
      }
      ExclusiveNeverReplays(moves[..n]);
    }
  }

  /** With one dispatcher at a time per operation, each is announced at most once. */
  lemma OneDispatcherAnnouncesOnce(moves: seq<Move>, o: Text)
    requires Exclusive(moves)
    ensures Times(AfterMoves(moves).announced, o) <= 1
  {
    hide AfterMoves, Exclusive, HasOperation;
    ExclusiveNeverReplays(moves);
    AnnouncementsAreAccounted(moves, o);
  }

  /** Two dispatchers past the lookup both announce: without exclusion once is not at most once. */
  lemma TwoDispatchersAnnounceTwice(q: Request, now: int)
    requires q.expected == 0
    ensures AfterMoves([Look(0, q), Look(1, q), Send(0, now, now, false), Send(1, now, now, false)]).announced
         == [q.operation, q.operation]
  {
    var m := [Look(0, q), Look(1, q), Send(0, now, now, false), Send(1, now, now, false)];
    assert m[..3][..2] == m[..2] && m[..2][..1] == m[..1] && m[..1][..0] == [];
    assert Continue(QUIET, m[..1]) == QUIET.(looked := map[0 := q]);
    assert Continue(QUIET, m[..2]) == QUIET.(looked := map[0 := q][1 := q]);
    assert !HasOperation([], q.operation);
    assert Continue(QUIET, m[..3]).announced == [q.operation];
    assert m[..4] == m;
  }
}
