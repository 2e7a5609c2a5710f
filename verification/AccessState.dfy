/**
 One bounded snapshot of the admission rows: the state that authentication reads,
 and the exact guard that a mutation prepared from it carries to its commit.
 */
module AccessState {
  import opened Wrappers
  import opened Framing
  import opened Tokens
  import Descriptor
  import opened DescriptorFields
  import opened AccessRecords
  import opened Snapshot

  const ISSUER: Text := "bootstrap-issuer-1"
  const USER: Text := "synthetic-operator-1"
  const REVIEWER: Text := "reviewer-1"
  const PUBLISHER: Text := "publisher-1"

  /** The operation column of an admission row. */
  datatype Kind = BootstrapKind | IssueKind | RevokeKind

  datatype Columns = Columns(operation: Kind, entity: Text, descriptor: Text)

  type Raw = Stored<Columns>

  datatype AccessError =
    | BadRow(fault: Descriptor.Fault)
    | InvalidRecord
    | NotBootstrapped
    | AlreadyBootstrapped
    | UnknownCapability
    | ForgedCredential
    | UnknownIssuer
    | ScopeDenied
    | StaleGeneration(presented: nat, current: nat)
    | RevokedCredential
    | ExpiredCredential
    | AdministrationDenied
    | CeilingExceeded(have: nat, required: nat)
    | RoleDenied
    | PolicyDenied
    | InvalidInput
    | GenerationOverflow
    | AnonymousDenied

  datatype State = State(
    issues: seq<IssueRow>, revokes: seq<RevokeRow>, bootstraps: seq<BootstrapRow>, captured: seq<Raw>)

  const NOTHING := State([], [], [], [])

  function KindOf(row: Row): Kind
  {
    match row
    case Bootstrap(_) => BootstrapKind
    case Issue(_) => IssueKind
    case Revoke(_) => RevokeKind
  }

  /** The entity column a row must carry. */
  function Anchor(row: Row): Text
  {
    match row
    case Bootstrap(b) => b.user
    case Issue(i) => i.cap
    case Revoke(r) => r.cap
  }

  predicate Repeats(issues: seq<IssueRow>, row: IssueRow)
  {
    exists k :: 0 <= k < |issues| && issues[k].cap == row.cap
             && (issues[k].capgen == row.capgen || issues[k].key == row.key)
  }

  function Push(state: State, row: Row, raw: Raw): State
  {
    var captured := state.captured + [raw];
    match row
    case Bootstrap(b) => state.(bootstraps := state.bootstraps + [b], captured := captured)
    case Issue(i) => state.(issues := state.issues + [i], captured := captured)
    case Revoke(r) => state.(revokes := state.revokes + [r], captured := captured)
  }

  /** One pass of the reading loop. */
  function AddRaw(state: State, raw: Raw): Result<State, AccessError>
  {
    match DecodeRow(raw.columns.descriptor)
    case Failure(fault) => Failure(BadRow(fault))
    case Success(row) =>
      if KindOf(row) != raw.columns.operation then Failure(InvalidRecord)
      else if row.Issue? && Repeats(state.issues, row.issue) then Failure(InvalidRecord)
      else if Anchor(row) != raw.columns.entity then Failure(InvalidRecord)
      else Success(Push(state, row, raw))
  }

  function ReadFrom(state: State, table: seq<Raw>): Result<State, AccessError>
    decreases |table|
  {
    hide AddRaw;
    if table == [] then Success(state)
    else
      var more :- AddRaw(state, table[0]);
      ReadFrom(more, table[1..])
  }

  /** `State::read`: the whole history or nothing. */
  function ReadTable(table: seq<Raw>, horizon: nat): Result<State, AccessError>
  {
    if |table| > horizon then Failure(InvalidRecord) else ReadFrom(NOTHING, table)
  }

  method Read(table: seq<Raw>, horizon: nat) returns (r: Result<State, AccessError>)
    ensures r == ReadTable(table, horizon)
  {
    hide AddRaw;
    if |table| > horizon {
      return Failure(InvalidRecord);
    }
    var state, i := NOTHING, 0;
    assert table[0..] == table;
    while i < |table|
      invariant i <= |table|
      invariant ReadFrom(state, table[i..]) == ReadFrom(NOTHING, table)
    {
      assert table[i..][1..] == table[i + 1..];
      var more := AddRaw(state, table[i]);
      if more.Failure? {
        return Failure(more.error);
      }
      state := more.value;
      i := i + 1;
    }
    return Success(state);
  }

  // ------------------------------------------------------------ authentication

  /** A presented credential; `keyPrint` is the fingerprint of its key material. */
  datatype Credential = Credential(capability: Text, key: Text, keyPrint: Text)

  predicate Issued(issues: seq<IssueRow>, cap: Text) { exists k :: 0 <= k < |issues| && issues[k].cap == cap }

  function RequireBootstrapped(s: State): Result<(), AccessError>
  {
    if s.captured == [] then Failure(NotBootstrapped)
    else if |s.bootstraps| != 1 || s.bootstraps[0].user != USER || s.bootstraps[0].issuer != ISSUER
            || !Issued(s.issues, REVIEWER) || !Issued(s.issues, PUBLISHER)
    then Failure(InvalidRecord)
    else Success(())
  }

  /** The issue row of greatest generation; of equals, the last. */
  function Latest(issues: seq<IssueRow>, cap: Text): Option<IssueRow>
  {
    if issues == [] then None
    else
      var last, before := issues[|issues| - 1], Latest(issues[..|issues| - 1], cap);
      if last.cap == cap && (before.None? || before.value.capgen <= last.capgen) then Some(last) else before
  }

  /** The first issue row of this capability and key. */
  function Matched(issues: seq<IssueRow>, cap: Text, key: Text): Option<IssueRow>
  {
    if issues == [] then None
    else if issues[0].cap == cap && issues[0].key == key then Some(issues[0])
    else Matched(issues[1..], cap, key)
  }

  predicate IsRevoked(revokes: seq<RevokeRow>, cap: Text, key: Text)
  {
    exists k :: 0 <= k < |revokes| && revokes[k].cap == cap && revokes[k].key == key
  }

  predicate Live(p: Policy, now: int) { p.expires.None? || now < p.expires.value }

  /** `State::checked`, refusals in the source's order. */
  function Checked(s: State, c: Credential, scope: Option<Text>, rotating: bool, now: int)
    : Result<IssueRow, AccessError>
  {
    var _ :- RequireBootstrapped(s);
    match Latest(s.issues, c.capability)
    case None => Failure(UnknownCapability)
    case Some(latest) =>
      match Matched(s.issues, c.capability, c.key)
      case None => Failure(ForgedCredential)
      case Some(row) =>
        if row.issuer != ISSUER then Failure(UnknownIssuer)
        else if row.user != USER then Failure(InvalidRecord)
        else if row.keyPrint != c.keyPrint then Failure(ForgedCredential)
        else if scope.Some? && scope.value != row.scope then Failure(ScopeDenied)
        else if rotating && row.capgen != latest.capgen then Failure(StaleGeneration(row.capgen, latest.capgen))
        else if IsRevoked(s.revokes, row.cap, row.key) then Failure(RevokedCredential)
        else if row.capgen != latest.capgen then Failure(StaleGeneration(row.capgen, latest.capgen))
        else if !Live(row.policy, now) then Failure(ExpiredCredential)
        else Success(row)
  }

  predicate Subset(inner: seq<Text>, outer: seq<Text>) { forall k :: 0 <= k < |inner| ==> inner[k] in outer }

  /** `authorize`: the administrator's policy against a requested scope, ceiling and policy. */
  function Authorize(admin: Policy, scope: Text, ceiling: nat, child: Policy): Result<(), AccessError>
  {
    if admin.admin.None? then Failure(AdministrationDenied)
    else if scope !in admin.scopes then Failure(ScopeDenied)
    else if ceiling > admin.admin.value then Failure(CeilingExceeded(admin.admin.value, ceiling))
    else if (child.admin.Some? && (child.admin.value > admin.admin.value || child.admin.value > ceiling))
            || !Subset(child.scopes, admin.scopes)
            || (admin.expires.Some? && (child.expires.None? || child.expires.value > admin.expires.value))
    then Failure(PolicyDenied)
    else Success(())
  }
}
