/**
 Acceptance, activation and the handoff barrier over one append-only log.

 The log is its own clock: what a reader saw at an earlier moment is the log's
 prefix of that length. Every read of every contender therefore carries the
 length at which it ran, and a run may interleave commits between any two reads.
 */
module Acceptance {
  import opened Wrappers
  import opened Framing
  import opened Tokens
  import opened AcceptRecords
  import opened GuardedStore

  /** A staged configuration, of which only the binding revision is read back. */
  datatype Staged = Staged(operation: Text, binding: nat, content: Text)

  datatype Event =
    | AcceptEvent(request: AcceptanceRequest, actor: Text)
    | ActiveEvent(activation: ActivationRequest)
    | StageEvent(staged: Staged)
    | OtherEvent(text: Text)

  type Log = seq<Event>

  // ------------------------------------------------------------- projections

  /** The accepted events of a scope in row order; row ids count from one. */
  ghost function Accepts(log: Log, scope: Text): seq<Accepted>
  {
    if log == [] then []
    else
      var before, last := Accepts(log[..|log| - 1], scope), log[|log| - 1];
      if last.AcceptEvent? && last.request.scope == scope
      then before + [Accepted(|log|, last.request.expected + 1, last.request, last.actor)]
      else before
  }

  /** The activation events of a scope in row order. */
  ghost function Actives(log: Log, scope: Text): seq<Activated>
  {
    if log == [] then []
    else
      var before, last := Actives(log[..|log| - 1], scope), log[|log| - 1];
      if last.ActiveEvent? && last.activation.acceptance.scope == scope
      then before + [Activated(|log|, last.activation.expected + 1,
                               last.activation.acceptance.expected + 1, last.activation)]
      else before
  }

  ghost function StagedUnder(log: Log, operation: Text): seq<Staged>
  {
    if log == [] then []
    else
      var before, last := StagedUnder(log[..|log| - 1], operation), log[|log| - 1];
      if last.StageEvent? && last.staged.operation == operation then before + [last.staged] else before
  }

  function AcceptedRow(a: Accepted): Row { Row(a.id, a.revision, AcceptedBytes(a.request, a.actor)) }

  function ActiveRow(a: Activated): Row { Row(a.id, a.generation, ActiveBytes(a.request)) }

  ghost function AcceptedTable(chain: seq<Accepted>): seq<Row>
  {
    seq(|chain|, i requires 0 <= i < |chain| => AcceptedRow(chain[i]))
  }

  ghost function ActiveTable(chain: seq<Activated>): seq<Row>
  {
    seq(|chain|, i requires 0 <= i < |chain| => ActiveRow(chain[i]))
  }

  /** The rows a reader selects for a scope. */
  ghost function AcceptedRows(log: Log, scope: Text): seq<Row> { AcceptedTable(Accepts(log, scope)) }

  ghost function ActiveRows(log: Log, scope: Text): seq<Row> { ActiveTable(Actives(log, scope)) }

  // ------------------------------------------------------- validating readers

  /** The accepted-history loop from row `index` on. */
  function AcceptedFrom(scope: Text, rows: seq<Row>, index: nat, seen: set<Text>)
    : Result<seq<Accepted>, Error>
    requires index <= |rows|
    decreases |rows| - index
  {
    if index == |rows| then Success([])
    else
      var a :- ReadAccepted(scope, index, rows[index], seen);
      var more :- AcceptedFrom(scope, rows, index + 1, seen + {a.request.operation});
      Success([a] + more)
  }

  function AcceptedOf(scope: Text, rows: seq<Row>): Result<seq<Accepted>, Error>
  {
    if |rows| > MAX_ACCEPTED then Failure(Limit) else AcceptedFrom(scope, rows, 0, {})
  }

  /** The activation-history loop from row `index` on. */
  function ActiveFrom(scope: Text, rows: seq<Row>, accepted: seq<Accepted>, index: nat,
                      seen: set<Text>, revision: nat): Result<seq<Activated>, Error>
    requires index <= |rows|
    decreases |rows| - index
  {
    if index == |rows| then Success([])
    else
      var a :- ReadActive(scope, index, rows[index], seen, revision, accepted);
      var more :- ActiveFrom(scope, rows, accepted, index + 1, seen + {a.request.operation}, a.revision);
      Success([a] + more)
  }

  /** Active rows are selected first, the accepted rows they must join afterwards. */
  function ActiveOf(scope: Text, activeRows: seq<Row>, acceptedRows: seq<Row>)
    : Result<seq<Activated>, Error>
  {
    if |activeRows| > MAX_ACCEPTED then Failure(Limit)
    else
      var accepted :- AcceptedOf(scope, acceptedRows);
      ActiveFrom(scope, activeRows, accepted, 0, {}, 0)
  }

  lemma AcceptedStep(scope: Text, rows: seq<Row>, index: nat, seen: set<Text>, done: seq<Accepted>,
                     whole: Result<seq<Accepted>, Error>)
    requires index < |rows|
    requires whole == Prepend(done, AcceptedFrom(scope, rows, index, seen))
    ensures ReadAccepted(scope, index, rows[index], seen).Failure?
        ==> whole == Failure(ReadAccepted(scope, index, rows[index], seen).error)
    ensures ReadAccepted(scope, index, rows[index], seen).Success? ==>
              var a := ReadAccepted(scope, index, rows[index], seen).value;
              whole == Prepend(done + [a], AcceptedFrom(scope, rows, index + 1, seen + {a.request.operation}))
  {
    hide ReadAccepted;
    if ReadAccepted(scope, index, rows[index], seen).Success? {
      var a := ReadAccepted(scope, index, rows[index], seen).value;
      var more := AcceptedFrom(scope, rows, index + 1, seen + {a.request.operation});
      if more.Success? {
        assert done + ([a] + more.value) == done + [a] + more.value;
      }
    }
  }

  lemma ActiveStep(scope: Text, rows: seq<Row>, accepted: seq<Accepted>, index: nat, seen: set<Text>,
                   revision: nat, done: seq<Activated>, whole: Result<seq<Activated>, Error>)
    requires index < |rows|
    requires whole == Prepend(done, ActiveFrom(scope, rows, accepted, index, seen, revision))
    ensures ReadActive(scope, index, rows[index], seen, revision, accepted).Failure?
        ==> whole == Failure(ReadActive(scope, index, rows[index], seen, revision, accepted).error)
    ensures ReadActive(scope, index, rows[index], seen, revision, accepted).Success? ==>
              var a := ReadActive(scope, index, rows[index], seen, revision, accepted).value;
              whole == Prepend(done + [a], ActiveFrom(scope, rows, accepted, index + 1,
                                                      seen + {a.request.operation}, a.revision))
  {
    hide ReadActive;
    if ReadActive(scope, index, rows[index], seen, revision, accepted).Success? {
      var a := ReadActive(scope, index, rows[index], seen, revision, accepted).value;
      var more := ActiveFrom(scope, rows, accepted, index + 1, seen + {a.request.operation}, a.revision);
      if more.Success? {
        assert done + ([a] + more.value) == done + [a] + more.value;
      }
    }
  }

  function Prepend<T>(done: seq<T>, rest: Result<seq<T>, Error>): Result<seq<T>, Error>
  {
    match rest
    case Success(more) => Success(done + more)
    case Failure(error) => Failure(error)
  }

  lemma PrependNothing<T>(rest: Result<seq<T>, Error>)
    ensures Prepend([], rest) == rest
  {
    if rest.Success? {
      assert [] + rest.value == rest.value;
    }
  }

  method ReadAcceptedHistory(scope: Text, rows: seq<Row>) returns (r: Result<seq<Accepted>, Error>)
    ensures r == AcceptedOf(scope, rows)
  {
    hide ReadAccepted, AcceptedFrom, Prepend;
    if |rows| > MAX_ACCEPTED {
      return Failure(Limit);
    }
    var history, operations, index := [], {}, 0;
    ghost var whole := AcceptedFrom(scope, rows, 0, {});
    PrependNothing(whole);
    while index < |rows|
      invariant index <= |rows|
      invariant whole == Prepend(history, AcceptedFrom(scope, rows, index, operations))
    {
      AcceptedStep(scope, rows, index, operations, history, whole);
      var row := ReadAccepted(scope, index, rows[index], operations);
      if row.Failure? {
        return Failure(row.error);
      }
      operations := operations + {row.value.request.operation};
      history := history + [row.value];
      index := index + 1;
    }
    AcceptedEnd(scope, rows, operations, history);
    return Success(history);
  }

  lemma AcceptedEnd(scope: Text, rows: seq<Row>, seen: set<Text>, done: seq<Accepted>)
    ensures Prepend(done, AcceptedFrom(scope, rows, |rows|, seen)) == Success(done)
  {
    assert done + [] == done;
  }

  lemma ActiveEnd(scope: Text, rows: seq<Row>, accepted: seq<Accepted>, seen: set<Text>, revision: nat,
                  done: seq<Activated>)
    ensures Prepend(done, ActiveFrom(scope, rows, accepted, |rows|, seen, revision)) == Success(done)
  {
    assert done + [] == done;
  }

  method ReadActivationHistory(scope: Text, activeRows: seq<Row>, acceptedRows: seq<Row>)
    returns (r: Result<seq<Activated>, Error>)
    ensures r == ActiveOf(scope, activeRows, acceptedRows)
  {
    hide ReadActive, ActiveFrom, AcceptedOf, Prepend;
    if |activeRows| > MAX_ACCEPTED {
      return Failure(Limit);
    }
    var accepted := ReadAcceptedHistory(scope, acceptedRows);
    if accepted.Failure? {
      return Failure(accepted.error);
    }
    var history, operations, revision, index := [], {}, 0, 0;
    ghost var whole := ActiveFrom(scope, activeRows, accepted.value, 0, {}, 0);
    PrependNothing(whole);
    while index < |activeRows|
      invariant index <= |activeRows|
      invariant whole
             == Prepend(history, ActiveFrom(scope, activeRows, accepted.value, index, operations, revision))
    {
      ActiveStep(scope, activeRows, accepted.value, index, operations, revision, history, whole);
      var row := ReadActive(scope, index, activeRows[index], operations, revision, accepted.value);
      if row.Failure? {
        return Failure(row.error);
      }
      operations := operations + {row.value.request.operation};
      revision := row.value.revision;
      history := history + [row.value];
      index := index + 1;
    }
    ActiveEnd(scope, activeRows, accepted.value, operations, revision, history);
    return Success(history);
  }
}
