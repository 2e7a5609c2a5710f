/**
 The access gate over its store: read a snapshot, prepare outside any lock, submit
 under the snapshot's guard, while other gates may commit in between.
 */
module AccessStores {
  import opened Wrappers
  import opened Framing
  import opened Tokens
  import opened DescriptorFields
  import opened AccessRecords
  import opened AccessState
  import opened AccessGate
  import opened AccessSafety
  import opened Snapshot

  /** The preparation of a call from the rows it read. */
  function PrepareCall(table: seq<Raw>, horizon: nat, call: Call, now: int): Result<Batch, AccessError>
  {
    match call
    case CallBootstrap(reason, reviewerPrint, publisherPrint) =>
      PrepareBootstrap(table, horizon, reason, reviewerPrint, publisherPrint)
    case CallIssue(row, administrator) => PrepareIssue(table, horizon, row, administrator, now)
    case CallRotate(current, key, keyPrint, reason) =>
      PrepareRotate(table, horizon, current, key, keyPrint, reason, now)
    case CallRevoke(current, reason) => PrepareRevoke(table, horizon, current, reason, now)
  }

  function NextId(rows: seq<Raw>): nat { if rows == [] then 1 else rows[|rows| - 1].id + 1 }

  /** The rows of a batch as the table stores them. */
  ghost function Rendered(batch: seq<Row>, id: nat): seq<Raw>
    requires forall i :: 0 <= i < |batch| ==> RowOk(batch[i])
  {
    seq(|batch|, i requires 0 <= i < |batch| =>
      Stored(id + i, Columns(KindOf(batch[i]), Anchor(batch[i]), EncodeRow(batch[i]))))
  }

  class AccessStore {
    var rows: seq<Raw>
    ghost var history: History
    const horizon: nat

    ghost predicate Valid()
      reads this
    {
      Inv(history) && rows == Table(history)
    }

    constructor (horizon: nat)
      ensures Valid() && rows == [] && this.horizon == horizon
    {
      rows, history := [], [];
      this.horizon := horizon;
      new;
      NothingIsSound();
    }

    /** Read the rows and decide the call on them, outside any lock; nothing is written. */
    method Prepared(call: Call, now: int) returns (r: Result<Batch, AccessError>)
      requires Valid()
      ensures r == Prepare(history, horizon, Step(call, |history|, now, 0, 0, true))
      ensures r.Success? ==> r.value.captured == rows
    {
      hide RowOk, PrepareBootstrap, PrepareIssue, PrepareRotate, PrepareRevoke, EncodeRow, Chains, NoRepeats,
        Booted, ReadTable;
      assert history[..|history|] == history;
      r := PrepareCall(rows, horizon, call, now);
      if r.Success? {
        PreparedFrom(history, horizon, Step(call, |history|, now, 0, 0, true));
        ReadCaptured(history, horizon);
      }
    }

    /** The loop that renders a batch into the rows its transaction inserts. */
    method Body(batch: seq<Row>, id: nat) returns (body: seq<Raw>)
      requires forall i :: 0 <= i < |batch| ==> RowOk(batch[i])
      ensures body == Rendered(batch, id)
    {
      hide RowOk, EncodeRow;
      body := [];
      for i := 0 to |batch|
        invariant body == Rendered(batch, id)[..i]
      {
        body := body + [Stored(id + i, Columns(KindOf(batch[i]), Anchor(batch[i]), EncodeRow(batch[i])))];
      }
    }

    /**
     Submit a batch prepared when the history was any earlier prefix. It applies
     whole or not at all, only on the very rows it was prepared from, and only
     before the credential expires.
     */
    method Submit(batch: Batch, commit: int, ghost step: Step) returns (applied: bool)
      requires Valid() && Enabled(history, horizon, step) && step.lands
      requires step.commit == commit && step.id == NextId(rows)
      requires Prepare(history, horizon, step) == Success(batch)
      modifies this
      ensures Valid() && history == Commit(old(history), horizon, step)
      ensures applied <==> GuardHolds(batch.captured, old(rows)) && (batch.live.None? || commit < batch.live.value)
      ensures !applied ==> rows == old(rows)
      ensures applied ==> (forall i :: 0 <= i < |batch.rows| ==> RowOk(batch.rows[i]))
                          && rows == old(rows) + Rendered(batch.rows, step.id)
      ensures applied ==> step.at == |old(history)| && old(rows) == batch.captured
    {
      hide Inv, RowOk, EncodeRow, Prepare, GuardHolds, Append, GranterOf, RowsOk, CallOk, FreshId, Rendered, Table;
      AnyStepKeeps(history, horizon, step);
      applied := GuardHolds(batch.captured, rows) && (batch.live.None? || commit < batch.live.value);
      if applied {
        AppliedOnCurrent(history, horizon, step);
        AppendTable(history, batch.rows, step.id, GranterOf(history, step.call));
        var body := Body(batch.rows, NextId(rows));
        rows := rows + body;
      }
      history := Commit(history, horizon, step);
    }
  }

  lemma ReadCaptured(h: History, horizon: nat)
    requires RowsOk(h) && ReadTable(Table(h), horizon).Success?
    ensures ReadTable(Table(h), horizon).value.captured == Table(h)
  {
    hide RowsOk, Table, ReadFrom;
    ReadCaptures(NOTHING, Table(h));
    assert NOTHING.captured + Table(h) == Table(h);
  }

  lemma AppliedOnCurrent(h: History, horizon: nat, step: Step)
    requires Inv(h) && Enabled(h, horizon, step) && GuardHolds(Prepare(h, horizon, step).value.captured, Table(h))
    ensures step.at == |h| && Prepare(h, horizon, step).value.captured == Table(h)
  {
    hide RowsOk, Table, ReadTable, Prepare, GuardHolds, CallOk, FreshId, Chains, NoRepeats, Booted, IdsAscend;
    PreparedFrom(h, horizon, step);
    GuardPinsHistory(h, step.at, horizon);
    ReadCaptured(h, horizon);
  }

  lemma AnyStepKeeps(h: History, horizon: nat, step: Step)
    requires Inv(h) && Enabled(h, horizon, step)
    ensures Inv(Commit(h, horizon, step))
  {
    hide Inv, Enabled, Commit;
    match step.call
    case CallBootstrap(_, _, _) => BootstrapKeeps(h, horizon, step);
    case CallIssue(_, _) => IssueKeeps(h, horizon, step);
    case CallRotate(_, _, _, _) => RotateKeeps(h, horizon, step);
    case CallRevoke(_, _) => RevokeKeeps(h, horizon, step);
  }

  /** Appending a batch to the history is appending its rendered rows to the table. */
  lemma {:induction false} AppendTable(h: History, batch: seq<Row>, id: nat, granter: Option<Text>)
    requires Inv(Append(h, batch, id, granter))
    ensures RowsOk(h) && (forall i :: 0 <= i < |batch| ==> RowOk(batch[i]))
    ensures Table(Append(h, batch, id, granter)) == Table(h) + Rendered(batch, id)
    decreases |batch|
  {
    hide RowOk, EncodeRow, Chains, NoRepeats;
    AppendGrows(h, batch, id, granter);
    if batch == [] {
      assert Table(h) + [] == Table(h);
    } else {
      var more := h + [Entry(id, batch[0], granter)];
      AppendTable(more, batch[1..], id + 1, granter);
      assert more[|h|].row == batch[0];
      assert Table(more) == Table(h) + [RawOf(more[|h|])];
    }
  }
}
