/**
 Bootstrap, issue, rotate and self-revoke as optimistic guarded batches, and the
 runs in which any number of callers interleave them.
 */
module AccessGate {
  import opened Wrappers
  import opened Framing
  import opened Tokens
  import opened Descriptor
  import opened DescriptorFields
  import opened AccessRecords
  import opened AccessState
  import opened Snapshot

  /**
   An admission row as committed. `granter` records which capability authorised it
   (none for bootstrap); the table does not store it.
   */
  datatype Entry = Entry(id: nat, row: Row, granter: Option<Text>)

  type History = seq<Entry>

  predicate RowsOk(h: History) { forall i :: 0 <= i < |h| ==> RowOk(h[i].row) }

  ghost function RawOf(e: Entry): Raw
    requires RowOk(e.row)
  {
    Stored(e.id, Columns(KindOf(e.row), Anchor(e.row), EncodeRow(e.row)))
  }

  ghost function Table(h: History): seq<Raw>
    requires RowsOk(h)
  {
    seq(|h|, i requires 0 <= i < |h| => RawOf(h[i]))
  }

  /** The snapshot a reader of exactly these rows arrives at. */
  ghost function StateOf(h: History): State
    requires RowsOk(h)
  {
    if h == [] then NOTHING
    else
      var e := h[|h| - 1];
      Push(StateOf(h[..|h| - 1]), e.row, RawOf(e))
  }

  // --------------------------------------------------------------- preparation

  /** Rows to insert together, the snapshot they depend on, and the latest live instant. */
  datatype Batch = Batch(captured: seq<Raw>, rows: seq<Row>, live: Option<int>)

  /** Caller input after the newtype constructors accepted it. */
  predicate PrintOk(key: Text, keyPrint: Text) { IsToken(key) && 0 < |keyPrint| <= 64 && IsUtf8(keyPrint) }

  predicate TextOk(t: Text) { t != [] && IsUtf8(t) }

  function FirstIssue(cap: Text, scope: Text, ceiling: nat, role: Text, key: Text, keyPrint: Text,
                      reason: Text, displayLabel: Text, policy: Policy): IssueRow
  {
    IssueRow(cap, scope, ceiling, role, key, keyPrint, ISSUER, 1, USER, reason, displayLabel, policy)
  }

  const ADMINISTRATOR := Policy(["scope-a", "scope-b"], Some(2), None)
  const ENTRY_ONLY := Policy([], None, None)

  function BootstrapRows(reason: Text, reviewerPrint: Text, publisherPrint: Text): seq<Row>
  {
    [Bootstrap(BootstrapRow(USER, ISSUER, reason, SCHEMA_GENERATION)),
     Issue(FirstIssue(REVIEWER, "scope-a", 1, "reviewer", "key-reviewer-1", reviewerPrint, reason, "synthetic",
                      ENTRY_ONLY)),
     Issue(FirstIssue(PUBLISHER, "scope-a", 2, "publisher", "key-publisher-1", publisherPrint, reason, "synthetic",
                      ADMINISTRATOR))]
  }

  function PrepareBootstrap(table: seq<Raw>, horizon: nat, reason: Text, reviewerPrint: Text, publisherPrint: Text)
    : Result<Batch, AccessError>
  {
    var s :- ReadTable(table, horizon);
    if s.captured != [] then Failure(AlreadyBootstrapped)
    else Success(Batch(s.captured, BootstrapRows(reason, reviewerPrint, publisherPrint), None))
  }

  function Earliest(a: Option<int>, b: Option<int>): Option<int>
  {
    if a.None? then b else if b.None? then a else if a.value < b.value then a else b
  }

  function PrepareIssue(table: seq<Raw>, horizon: nat, row: IssueRow, administrator: Credential, now: int)
    : Result<Batch, AccessError>
  {
    var s :- ReadTable(table, horizon);
    var admin :- Checked(s, administrator, None, false, now);
    if row.ceiling > MAX_CEILING then Failure(InvalidInput)
    else
      var _ :- Authorize(admin.policy, row.scope, row.ceiling, row.policy);
      if !Live(row.policy, now) then Failure(ExpiredCredential)
      else if Issued(s.issues, row.cap) then Failure(AlreadyBootstrapped)
      else Success(Batch(s.captured, [Issue(row)], Earliest(admin.policy.expires, row.policy.expires)))
  }

  function RevokeOf(row: IssueRow, reason: Text): RevokeRow { RevokeRow(row.cap, row.key, row.capgen, ISSUER, reason) }

  function Successor(row: IssueRow, key: Text, keyPrint: Text, reason: Text): IssueRow
  {
    row.(capgen := row.capgen + 1, key := key, keyPrint := keyPrint, reason := reason)
  }

  function PrepareRotate(table: seq<Raw>, horizon: nat, current: Credential, key: Text, keyPrint: Text,
                         reason: Text, now: int): Result<Batch, AccessError>
  {
    var s :- ReadTable(table, horizon);
    var row :- Checked(s, current, None, true, now);
    if row.capgen >= U32_MAX then Failure(GenerationOverflow)
    else if Matched(s.issues, row.cap, key).Some? then Failure(InvalidInput)
    else Success(Batch(s.captured, [Revoke(RevokeOf(row, reason)), Issue(Successor(row, key, keyPrint, reason))],
                       row.policy.expires))
  }

  function PrepareRevoke(table: seq<Raw>, horizon: nat, current: Credential, reason: Text, now: int)
    : Result<Batch, AccessError>
  {
    var s :- ReadTable(table, horizon);
    var row :- Checked(s, current, None, false, now);
    Success(Batch(s.captured, [Revoke(RevokeOf(row, reason))], row.policy.expires))
  }

  // --------------------------------------------------------------------- runs

  datatype Call =
    | CallBootstrap(reason: Text, reviewerPrint: Text, publisherPrint: Text)
    | CallIssue(row: IssueRow, administrator: Credential)
    | CallRotate(current: Credential, key: Text, keyPrint: Text, reason: Text)
    | CallRevoke(current: Credential, reason: Text)

  /**
   One attempt: the table was read when it had `at` rows and the clock said
   `now`; the writer transaction ran later, at `commit`, and assigned ids from
   `id` on. Its commit may also fail for reasons of the machine.
   */
  datatype Step = Step(call: Call, at: nat, now: int, commit: int, id: nat, lands: bool)

  /** Inputs as their validated types allow them. */
  predicate CallOk(call: Call)
  {
    match call
    case CallBootstrap(reason, reviewerPrint, publisherPrint) =>
      TextOk(reason) && PrintOk(REVIEWER, reviewerPrint) && PrintOk(PUBLISHER, publisherPrint)
    case CallIssue(row, _) =>
      && IsToken(row.cap) && IsToken(row.scope) && row.role in {"reviewer", "publisher"}
      && PrintOk(row.key, row.keyPrint) && row.issuer == ISSUER && row.user == USER && row.capgen == 1
      && TextOk(row.reason) && TextOk(row.displayLabel) && PolicyOk(row.policy)
    case CallRotate(_, key, keyPrint, reason) => PrintOk(key, keyPrint) && TextOk(reason)
    case CallRevoke(_, reason) => TextOk(reason)
  }

  ghost function Prepare(h: History, horizon: nat, step: Step): Result<Batch, AccessError>
    requires RowsOk(h) && step.at <= |h|
  {
    var table := Table(h[..step.at]);
    match step.call
    case CallBootstrap(reason, reviewerPrint, publisherPrint) =>
      PrepareBootstrap(table, horizon, reason, reviewerPrint, publisherPrint)
    case CallIssue(row, administrator) => PrepareIssue(table, horizon, row, administrator, step.now)
    case CallRotate(current, key, keyPrint, reason) =>
      PrepareRotate(table, horizon, current, key, keyPrint, reason, step.now)
    case CallRevoke(current, reason) => PrepareRevoke(table, horizon, current, reason, step.now)
  }

  predicate FreshId(h: History, id: nat) { 0 < id && (h != [] ==> h[|h| - 1].id < id) }

  ghost predicate Enabled(h: History, horizon: nat, step: Step)
  {
    RowsOk(h) && CallOk(step.call) && step.at <= |h| && FreshId(h, step.id) && Prepare(h, horizon, step).Success?
  }

  /** Who authorised the rows of a call; a successor keeps its predecessor's. */
  ghost function GranterOf(h: History, call: Call): Option<Text>
  {
    match call
    case CallBootstrap(_, _, _) => None
    case CallIssue(_, administrator) => Some(administrator.capability)
    case CallRotate(current, _, _, _) => IssuerOf(h, current.capability)
    case CallRevoke(current, _) => IssuerOf(h, current.capability)
  }

  ghost function IssuerOf(h: History, cap: Text): Option<Text>
  {
    if h == [] then None
    else
      var e := h[|h| - 1];
      if e.row.Issue? && e.row.issue.cap == cap then e.granter else IssuerOf(h[..|h| - 1], cap)
  }

  ghost function Append(h: History, rows: seq<Row>, id: nat, granter: Option<Text>): History
    decreases |rows|
  {
    if rows == [] then h else Append(h + [Entry(id, rows[0], granter)], rows[1..], id + 1, granter)
  }

  ghost function Commit(h: History, horizon: nat, step: Step): History
    requires Enabled(h, horizon, step)
  {
    var batch := Prepare(h, horizon, step).value;
    if step.lands && GuardHolds(batch.captured, Table(h)) && (batch.live.None? || step.commit < batch.live.value)
    then Append(h, batch.rows, step.id, GranterOf(h, step.call))
    else h
  }

  /** The admission rows after a run; an attempt that preparation refuses writes nothing. */
  ghost function After(steps: seq<Step>, horizon: nat): History
  {
    if steps == [] then []
    else
      var h, step := After(steps[..|steps| - 1], horizon), steps[|steps| - 1];
      if Enabled(h, horizon, step) then Commit(h, horizon, step) else h
  }
}
