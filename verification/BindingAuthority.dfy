/**
 Carrying an authorisation to another writer's commit: the access rows are
 captured first, the credential is authenticated afterwards, and the write
 commits later still under the captured guard.
 */
module BindingAuthority {
  import opened Wrappers
  import opened Framing
  import opened DescriptorFields
  import opened AccessRecords
  import opened AccessState
  import opened Snapshot
  import opened AccessGate
  import opened AccessSafety

  datatype Role = Sense | Drive

  // ------------------------------------------------------------ the guard text

  /** One conjunct of the captured guard. */
  datatype Condition = CountIs(n: nat) | RowExists(row: Raw)

  predicate Met(c: Condition, table: seq<Raw>)
  {
    match c
    case CountIs(n) => |table| == n
    case RowExists(row) => row in table
  }

  predicate AllMet(conditions: seq<Condition>, table: seq<Raw>)
  {
    forall k :: 0 <= k < |conditions| ==> Met(conditions[k], table)
  }

  /** Read one row past the horizon at most; a full window refuses rather than truncates. */
  method Capture(table: seq<Raw>, horizon: nat) returns (r: Result<seq<Condition>, AccessError>)
    ensures r.Failure? <==> |table| > horizon
    ensures r.Success? ==> r.value == GuardOf(table)
  {
    var rows := if |table| > horizon + 1 then table[..horizon + 1] else table;
    if |rows| == horizon + 1 {
      return Failure(InvalidRecord);
    }
    var guard := [CountIs(|rows|)];
    for i := 0 to |rows|
      invariant guard == GuardOf(table)[..i + 1]
    {
      guard := guard + [RowExists(rows[i])];
    }
    return Success(guard);
  }

  function GuardOf(rows: seq<Raw>): seq<Condition>
  {
    [CountIs(|rows|)] + seq(|rows|, i requires 0 <= i < |rows| => RowExists(rows[i]))
  }

  /** The guard built from captured rows holds of a table exactly when the table is those rows. */
  lemma CapturedGuardIsEquality(captured: seq<Raw>, table: seq<Raw>)
    requires Ascending(captured) && Ascending(table)
    ensures AllMet(GuardOf(captured), table) <==> captured == table
  {
    hide Ascending;
    var g := GuardOf(captured);
    if AllMet(g, table) {
      assert Met(g[0], table);
      assert forall k :: 0 <= k < |captured| ==> g[k + 1] == RowExists(captured[k]) && Met(g[k + 1], table);
      GuardIsEquality(captured, table);
    }
  }

  // ------------------------------------------------------------------- entering

  /** `enter`: the ceiling and the role that sensing or driving needs. */
  function Enter(s: State, credential: Option<Credential>, scope: Text, role: Role, now: int)
    : Result<IssueRow, AccessError>
  {
    if credential.None? then Failure(AnonymousDenied)
    else
      var row :- Checked(s, credential.value, Some(scope), false, now);
      var needed := if role.Sense? then 1 else 2;
      if row.ceiling < needed then Failure(CeilingExceeded(row.ceiling, needed))
      else if role.Drive? && row.role != "publisher" then Failure(RoleDenied)
      else Success(row)
  }

  /** `gate.enter_…` as a fresh read of the admission rows. */
  function EnterTable(table: seq<Raw>, horizon: nat, credential: Option<Credential>, scope: Text, role: Role,
                      now: int): Result<IssueRow, AccessError>
  {
    var s :- ReadTable(table, horizon);
    Enter(s, credential, scope, role, now)
  }

  /** The clause a write adds when its actor's policy expires. */
  predicate ExpiryClause(actor: IssueRow, now: int)
  {
    actor.policy.expires.None? || now < actor.policy.expires.value
  }

  lemma EnterIgnoresClock(s: State, credential: Option<Credential>, scope: Text, role: Role, now: int, later: int)
    requires Enter(s, credential, scope, role, now).Success?
    requires ExpiryClause(Enter(s, credential, scope, role, now).value, later)
    ensures Enter(s, credential, scope, role, later) == Enter(s, credential, scope, role, now)
  {
    hide RequireBootstrapped, Latest, Matched, IsRevoked;
  }

  lemma PrefixesAgree(a: History, b: History, c: History)
    requires a <= b <= c && |a| == |c|
    ensures a == b == c
  {
  }

  /**
   The authority sandwich. Capture, authentication and commit happen at three
   separate moments of a run. If the captured guard and the expiry clause hold
   at commit, entering again on the rows and the clock of that very commit
   succeeds, as the same actor.
   */
  lemma AuthorityHoldsAtCommit(steps: seq<Step>, captured: nat, entered: nat, horizon: nat,
                               credential: Option<Credential>, scope: Text, role: Role, now: int, commit: int)
    requires captured <= entered <= |steps|
    requires EnterTable(Written(steps[..entered], horizon), horizon, credential, scope, role, now).Success?
    requires AllMet(GuardOf(Written(steps[..captured], horizon)), Written(steps, horizon))
    requires ExpiryClause(
               EnterTable(Written(steps[..entered], horizon), horizon, credential, scope, role, now).value, commit)
    ensures After(steps[..captured], horizon) == After(steps, horizon)
    ensures EnterTable(Written(steps, horizon), horizon, credential, scope, role, commit)
         == EnterTable(Written(steps[..entered], horizon), horizon, credential, scope, role, now)
  {
    hide After, Enter, RowsOk, ReadTable, AllMet, GuardOf, NoRepeats, Chains, ExpiryClause, RawOf;
    var a, b, c := After(steps[..captured], horizon), After(steps[..entered], horizon), After(steps, horizon);
    EveryRunIsSound(steps, horizon);
    EveryRunIsSound(steps[..captured], horizon);
    EveryRunIsSound(steps[..entered], horizon);
    HistoryGrows(steps, entered, horizon);
    HistoryGrows(steps[..entered], captured, horizon);
    assert steps[..entered][..captured] == steps[..captured];
    TableAscends(a);
    TableAscends(c);
    CapturedGuardIsEquality(Table(a), Table(c));
    assert |Table(a)| == |a| && |Table(c)| == |c|;
    PrefixesAgree(a, b, c);
    EnterIgnoresClock(ReadTable(Table(c), horizon).value, credential, scope, role, now, commit);
  }
}
