/**
 Every run of the access gate: generations count up from one, all keys but the
 newest are revoked, and the reader accepts the whole history.
 */
module AccessSafety {
  import opened Wrappers
  import opened Framing
  import opened Tokens
  import opened DescriptorFields
  import opened AccessRecords
  import opened AccessState
  import opened Snapshot
  import opened AccessGate

  // ------------------------------------------------------ one capability's rows

  /** The issue rows of one capability, oldest first. */
  ghost function Gens(issues: seq<IssueRow>, cap: Text): seq<IssueRow>
  {
    if issues == [] then []
    else
      var before, last := Gens(issues[..|issues| - 1], cap), issues[|issues| - 1];
      if last.cap == cap then before + [last] else before
  }

  /** What rotation carries forward. */
  predicate SameGrant(a: IssueRow, b: IssueRow)
  {
    a.scope == b.scope && a.ceiling == b.ceiling && a.role == b.role && a.policy == b.policy
    && a.issuer == b.issuer && a.user == b.user
  }

  predicate RowIn(r: IssueRow, cap: Text) { r.cap == cap && IssueOk(r) && r.issuer == ISSUER && r.user == USER }

  ghost predicate Numbered(issues: seq<IssueRow>, cap: Text)
  {
    forall i :: 0 <= i < |Gens(issues, cap)| ==> Gens(issues, cap)[i].capgen == i + 1
  }

  ghost predicate ChainOk(s: State, cap: Text)
  {
    var g := Gens(s.issues, cap);
    && Numbered(s.issues, cap)
    && (forall i :: 0 <= i < |g| ==> RowIn(g[i], cap) && SameGrant(g[i], g[0]))
    && (forall i :: 0 <= i < |g| - 1 ==> IsRevoked(s.revokes, cap, g[i].key))
    && (forall i, j :: 0 <= i < j < |g| ==> g[i].key != g[j].key)
  }

  ghost predicate Clean(s: State)
  {
    (forall cap :: ChainOk(s, cap)) && (s.captured == [] || RequireBootstrapped(s).Success?)
  }

  lemma {:induction false} GensConcat(a: seq<IssueRow>, b: seq<IssueRow>, cap: Text)
    ensures Gens(a + b, cap) == Gens(a, cap) + Gens(b, cap)
  {
    if b == [] {
      assert a + b == a;
    } else {
      var n := |b| - 1;
      GensConcat(a, b[..n], cap);
      assert (a + b)[..|a| + n] == a + b[..n];
    }
  }

  lemma {:induction false} LatestIsLast(issues: seq<IssueRow>, cap: Text)
    requires Numbered(issues, cap)
    ensures Latest(issues, cap)
         == if Gens(issues, cap) == [] then None else Some(Gens(issues, cap)[|Gens(issues, cap)| - 1])
  {
    if issues != [] {
      var short, g := issues[..|issues| - 1], Gens(issues, cap);
      assert forall i :: 0 <= i < |Gens(short, cap)| ==> Gens(short, cap)[i] == g[i];
      LatestIsLast(short, cap);
      if Gens(short, cap) != [] {
        assert Gens(short, cap)[|Gens(short, cap)| - 1].capgen == |Gens(short, cap)|;
      }
    }
  }

  lemma GensSplit(issues: seq<IssueRow>, cap: Text)
    requires issues != []
    ensures Gens(issues, cap) == (if issues[0].cap == cap then [issues[0]] else []) + Gens(issues[1..], cap)
  {
    GensConcat(issues[..1], issues[1..], cap);
    assert issues[..1] + issues[1..] == issues;
    assert issues[..1][..0] == [];
  }

  /** The key that matched is carried by one of the capability's rows. */
  lemma {:induction false} MatchedAt(issues: seq<IssueRow>, cap: Text, key: Text) returns (i: nat)
    requires Matched(issues, cap, key).Some?
    ensures i < |Gens(issues, cap)| && Gens(issues, cap)[i] == Matched(issues, cap, key).value
    ensures Gens(issues, cap)[i].key == key
  {
    hide Gens;
    GensSplit(issues, cap);
    if issues[0].cap == cap && issues[0].key == key {
      i := 0;
    } else {
      i := MatchedAt(issues[1..], cap, key);
      i := if issues[0].cap == cap then i + 1 else i;
    }
  }

  lemma {:induction false} MatchedNowhere(issues: seq<IssueRow>, cap: Text, key: Text)
    requires Matched(issues, cap, key).None?
    ensures forall i :: 0 <= i < |Gens(issues, cap)| ==> Gens(issues, cap)[i].key != key
  {
    if issues != [] {
      hide Gens;
      GensSplit(issues, cap);
      MatchedNowhere(issues[1..], cap, key);
    }
  }

  lemma {:induction false} IssuedHasGens(issues: seq<IssueRow>, cap: Text)
    ensures Issued(issues, cap) <==> Gens(issues, cap) != []
  {
    if issues != [] {
      var short, last := issues[..|issues| - 1], issues[|issues| - 1];
      IssuedHasGens(short, cap);
      if Issued(short, cap) {
        var k :| 0 <= k < |short| && short[k].cap == cap;
        assert issues[k].cap == cap;
      }
      if Issued(issues, cap) && last.cap != cap {
        var k :| 0 <= k < |issues| && issues[k].cap == cap;
        assert short[k].cap == cap;
      }
    }
  }

  /** The newest row of a capability. */
  ghost function Newest(s: State, cap: Text): IssueRow
    requires Gens(s.issues, cap) != []
  {
    Gens(s.issues, cap)[|Gens(s.issues, cap)| - 1]
  }

  /**
   A credential authenticates exactly when it holds the newest key of its
   capability, with the right material and scope, unrevoked and unexpired.
   */
  lemma CheckedExactly(s: State, c: Credential, scope: Option<Text>, rotating: bool, now: int)
    requires Clean(s)
    ensures Checked(s, c, scope, rotating, now).Success?
       <==> s.captured != [] && Gens(s.issues, c.capability) != []
            && Newest(s, c.capability).key == c.key && Newest(s, c.capability).keyPrint == c.keyPrint
            && (scope.None? || scope.value == Newest(s, c.capability).scope)
            && !IsRevoked(s.revokes, c.capability, c.key) && Live(Newest(s, c.capability).policy, now)
    ensures Checked(s, c, scope, rotating, now).Success? ==>
              Checked(s, c, scope, rotating, now).value == Newest(s, c.capability)
  {
    hide Matched, Latest, IssueOk, Gens, IsRevoked, Live, SameGrant, Issued;
    var cap, g := c.capability, Gens(s.issues, c.capability);
    assert ChainOk(s, cap);
    LatestIsLast(s.issues, cap);
    if Matched(s.issues, cap, c.key).Some? {
      var i := MatchedAt(s.issues, cap, c.key);
      assert g[i].capgen == i + 1 && RowIn(g[i], cap);
      if i < |g| - 1 {
        assert IsRevoked(s.revokes, cap, g[i].key);
        assert g[i].key != g[|g| - 1].key;
        assert g[|g| - 1].capgen == |g|;
      }
    } else {
      MatchedNowhere(s.issues, cap, c.key);
    }
  }

  // ------------------------------------------------------- appending one row

  ghost predicate Chains(s: State) { forall cap :: ChainOk(s, cap) }

  /** A row that may follow: the next generation, a fresh key, and its predecessor's grant. */
  ghost predicate Extends(s: State, r: IssueRow)
  {
    var g := Gens(s.issues, r.cap);
    && IssueOk(r) && r.issuer == ISSUER && r.user == USER && r.capgen == |g| + 1
    && (forall i :: 0 <= i < |g| ==> g[i].key != r.key)
    && (g != [] ==> SameGrant(r, g[0]) && IsRevoked(s.revokes, r.cap, g[|g| - 1].key))
  }

  lemma RevokedStays(before: seq<RevokeRow>, more: seq<RevokeRow>, cap: Text, key: Text)
    requires IsRevoked(before, cap, key)
    ensures IsRevoked(before + more, cap, key)
  {
    var k :| 0 <= k < |before| && before[k].cap == cap && before[k].key == key;
    assert (before + more)[k] == before[k];
  }

  lemma {:induction false} IssueIsAGen(issues: seq<IssueRow>, k: nat) returns (i: nat)
    requires k < |issues|
    ensures i < |Gens(issues, issues[k].cap)| && Gens(issues, issues[k].cap)[i] == issues[k]
  {
    var n := |issues| - 1;
    if k == n {
      i := |Gens(issues[..n], issues[k].cap)|;
    } else {
      i := IssueIsAGen(issues[..n], k);
    }
  }

  lemma PushIssue(s: State, r: IssueRow, raw: Raw)
    requires Chains(s) && Extends(s, r)
    ensures Chains(Push(s, Issue(r), raw)) && !Repeats(s.issues, r)
  {
    hide Repeats, IssueOk, IsRevoked;
    var t := Push(s, Issue(r), raw);
    assert t.issues[..|t.issues| - 1] == s.issues;
    forall cap
      ensures ChainOk(t, cap)
    {
      assert ChainOk(s, cap);
    }
    NoRepeat(s, r);
  }

  lemma NoRepeat(s: State, r: IssueRow)
    requires Chains(s) && Extends(s, r)
    ensures !Repeats(s.issues, r)
  {
    hide Gens, IssueOk, IsRevoked;
    if Repeats(s.issues, r) {
      var k :| 0 <= k < |s.issues| && s.issues[k].cap == r.cap
               && (s.issues[k].capgen == r.capgen || s.issues[k].key == r.key);
      assert ChainOk(s, r.cap);
      var _ := IssueIsAGen(s.issues, k);
    }
  }

  lemma PushOther(s: State, row: Row, raw: Raw)
    requires Chains(s) && !row.Issue?
    ensures Chains(Push(s, row, raw))
  {
    hide Gens, IsRevoked, IssueOk;
    var t := Push(s, row, raw);
    forall cap
      ensures ChainOk(t, cap)
    {
      assert ChainOk(s, cap);
      var g := Gens(s.issues, cap);
      forall i | 0 <= i < |g| - 1
        ensures IsRevoked(t.revokes, cap, g[i].key)
      {
        if row.Revoke? {
          RevokedStays(s.revokes, [row.revoke], cap, g[i].key);
        }
      }
    }
  }

  // ------------------------------------------------------------- whole histories

  predicate IdsAscend(h: History) { forall i, j :: 0 <= i < j < |h| ==> h[i].id < h[j].id }

  ghost predicate NoRepeats(h: History)
    requires RowsOk(h)
  {
    forall p :: 0 <= p < |h| && h[p].row.Issue? ==> !Repeats(StateOf(h[..p]).issues, h[p].row.issue)
  }

  /** All that a history needs in order to be read back and extended. */
  ghost predicate Sound(h: History)
  {
    RowsOk(h) && IdsAscend(h) && NoRepeats(h) && Chains(StateOf(h))
  }

  ghost predicate Booted(s: State) { s.captured == [] || RequireBootstrapped(s).Success? }

  lemma SoundAppend(h: History, e: Entry)
    requires Sound(h) && RowOk(e.row) && FreshId(h, e.id)
    requires e.row.Issue? ==> Extends(StateOf(h), e.row.issue)
    ensures Sound(h + [e]) && StateOf(h + [e]) == Push(StateOf(h), e.row, RawOf(e))
  {
    hide RowOk, Repeats, Extends, Chains, EncodeRow, Push;
    var more := h + [e];
    assert more[..|more| - 1] == h;
    assert RowsOk(more);
    if e.row.Issue? {
      PushIssue(StateOf(h), e.row.issue, RawOf(e));
    } else {
      PushOther(StateOf(h), e.row, RawOf(e));
    }
    forall p | 0 <= p < |more| && more[p].row.Issue?
      ensures !Repeats(StateOf(more[..p]).issues, more[p].row.issue)
    {
      assert more[..p] == if p < |h| then h[..p] else h;
    }
  }

  lemma {:induction false} ReadsFrom(h: History, i: nat)
    requires RowsOk(h) && NoRepeats(h) && i <= |h|
    ensures ReadFrom(StateOf(h[..i]), Table(h)[i..]) == Success(StateOf(h))
    decreases |h| - i
  {
    hide DecodeRow, EncodeRow, RowOk, Repeats, Push;
    if i == |h| {
      assert h[..i] == h;
    } else {
      RowReadsBack(h[i].row);
      assert h[..i + 1][..i] == h[..i];
      assert Table(h)[i..][0] == RawOf(h[i]) && Table(h)[i..][1..] == Table(h)[i + 1..];
      assert AddRaw(StateOf(h[..i]), RawOf(h[i])) == Success(StateOf(h[..i + 1]));
      ReadsFrom(h, i + 1);
    }
  }

  /** The reader accepts every such history up to its horizon, and nothing longer. */
  lemma SoundReads(h: History, horizon: nat)
    requires Sound(h)
    ensures ReadTable(Table(h), horizon) == if |h| <= horizon then Success(StateOf(h)) else Failure(InvalidRecord)
  {
    hide RowsOk, NoRepeats, Chains, ReadFrom;
    ReadsFrom(h, 0);
    assert h[..0] == [] && Table(h)[0..] == Table(h);
  }

  lemma {:induction false} CapturedIsTable(h: History)
    requires RowsOk(h)
    ensures StateOf(h).captured == Table(h)
  {
    hide RowOk, EncodeRow;
    if h != [] {
      CapturedIsTable(h[..|h| - 1]);
      assert Table(h) == Table(h[..|h| - 1]) + [RawOf(h[|h| - 1])];
    }
  }

  // ------------------------------------------------------------------- steps

  ghost predicate Inv(h: History) { Sound(h) && Booted(StateOf(h)) }

  lemma {:induction false} ReadCaptures(s: State, table: seq<Raw>)
    requires ReadFrom(s, table).Success?
    ensures ReadFrom(s, table).value.captured == s.captured + table
    decreases |table|
  {
    hide DecodeRow, Repeats;
    if table != [] {
      var more := AddRaw(s, table[0]).value;
      assert more.captured == s.captured + [table[0]];
      ReadCaptures(more, table[1..]);
      assert s.captured + [table[0]] + table[1..] == s.captured + table;
    }
  }

  lemma TableAscends(h: History)
    requires RowsOk(h) && IdsAscend(h)
    ensures Ascending(Table(h))
  {
    hide RowOk, EncodeRow;
  }

  /**
   A snapshot taken at any earlier moment that still passes its guard at commit
   is the current history, so the decision it carried is the current decision.
   */
  lemma GuardPinsHistory(h: History, at: nat, horizon: nat)
    requires Sound(h) && at <= |h|
    requires ReadTable(Table(h[..at]), horizon).Success?
    requires GuardHolds(ReadTable(Table(h[..at]), horizon).value.captured, Table(h))
    ensures at == |h| && h[..at] == h && |h| <= horizon
    ensures ReadTable(Table(h[..at]), horizon) == Success(StateOf(h))
  {
    hide RowOk, EncodeRow, ReadFrom, Chains, NoRepeats, GuardHolds;
    var early := h[..at];
    assert RowsOk(early) && IdsAscend(early);
    ReadCaptures(NOTHING, Table(early));
    assert NOTHING.captured + Table(early) == Table(early);
    TableAscends(h);
    TableAscends(early);
    GuardIsEquality(Table(early), Table(h));
    assert |Table(early)| == at;
    SoundReads(h, horizon);
  }

  lemma PreparedFrom(h: History, horizon: nat, step: Step)
    requires RowsOk(h) && step.at <= |h| && Prepare(h, horizon, step).Success?
    ensures ReadTable(Table(h[..step.at]), horizon).Success?
    ensures Prepare(h, horizon, step).value.captured == ReadTable(Table(h[..step.at]), horizon).value.captured
  {
    hide RowsOk, Table, ReadTable, Checked, Authorize, Live, Matched, Issued, BootstrapRows, Earliest;
    match step.call
    case CallBootstrap(_, _, _) =>
    case CallIssue(_, _) =>
    case CallRotate(_, _, _, _) =>
    case CallRevoke(_, _) =>
  }

  /** What a step that wrote something had prepared, in terms of the history it extends. */
  lemma LandedOnCurrent(h: History, horizon: nat, step: Step)
    requires Sound(h) && Enabled(h, horizon, step) && Commit(h, horizon, step) != h
    ensures step.at == |h| && h[..step.at] == h && ReadTable(Table(h), horizon) == Success(StateOf(h))
    ensures Commit(h, horizon, step)
         == Append(h, Prepare(h, horizon, step).value.rows, step.id, GranterOf(h, step.call))
  {
    hide Sound, ReadTable, GuardHolds, Prepare, Append, GranterOf, StateOf, Table, CallOk, RowsOk;
    PreparedFrom(h, horizon, step);
    GuardPinsHistory(h, step.at, horizon);
  }

  lemma IssuedStays(before: seq<IssueRow>, more: seq<IssueRow>, cap: Text)
    requires Issued(before, cap)
    ensures Issued(before + more, cap)
  {
    var k :| 0 <= k < |before| && before[k].cap == cap;
    assert (before + more)[k] == before[k];
  }

  lemma BootedPush(s: State, row: Row, raw: Raw)
    requires Booted(s) && s.captured != [] && !row.Bootstrap?
    ensures Booted(Push(s, row, raw))
  {
    hide Issued;
    if row.Issue? {
      IssuedStays(s.issues, [row.issue], REVIEWER);
      IssuedStays(s.issues, [row.issue], PUBLISHER);
    }
  }

  lemma TokenLiterals()
    ensures IsToken(USER) && IsToken(ISSUER) && IsToken(REVIEWER) && IsToken(PUBLISHER)
    ensures IsToken("key-reviewer-1") && IsToken("key-publisher-1") && IsToken("scope-a") && IsToken("scope-b")
  {
  }

  lemma BootstrapRowsOk(call: Call)
    requires call.CallBootstrap? && CallOk(call)
    ensures forall i :: 0 <= i < 3 ==> RowOk(BootstrapRows(call.reason, call.reviewerPrint, call.publisherPrint)[i])
  {
    hide Descriptor.IsUtf8, IsToken;
    TokenLiterals();
    Descriptor.AsciiIsUtf8("synthetic");
    assert "scope-a" != "scope-b";
  }

  lemma BootstrapKeeps(h: History, horizon: nat, step: Step)
    requires Inv(h) && Enabled(h, horizon, step) && step.call.CallBootstrap?
    ensures Inv(Commit(h, horizon, step))
  {
    if Commit(h, horizon, step) != h {
      LandedOnCurrent(h, horizon, step);
      BootstrapLands(h, horizon, step);
    }
  }

  lemma AppendOne(h: History, rows: seq<Row>, id: nat, granter: Option<Text>)
    requires |rows| == 1
    ensures Append(h, rows, id, granter) == h + [Entry(id, rows[0], granter)]
  {
    assert rows[1..] == [];
  }

  lemma AppendTwo(h: History, rows: seq<Row>, id: nat, granter: Option<Text>)
    requires |rows| == 2
    ensures Append(h, rows, id, granter)
         == h + [Entry(id, rows[0], granter)] + [Entry(id + 1, rows[1], granter)]
  {
    AppendOne(h + [Entry(id, rows[0], granter)], rows[1..], id + 1, granter);
  }

  lemma AppendThree(h: History, rows: seq<Row>, id: nat, granter: Option<Text>)
    requires |rows| == 3
    ensures Append(h, rows, id, granter)
         == h + [Entry(id, rows[0], granter)] + [Entry(id + 1, rows[1], granter)] + [Entry(id + 2, rows[2], granter)]
  {
    AppendTwo(h + [Entry(id, rows[0], granter)], rows[1..], id + 1, granter);
  }

  lemma BootstrapLands(h: History, horizon: nat, step: Step)
    requires Inv(h) && Enabled(h, horizon, step) && step.call.CallBootstrap?
    requires h[..step.at] == h && ReadTable(Table(h), horizon) == Success(StateOf(h))
    ensures Inv(Append(h, Prepare(h, horizon, step).value.rows, step.id, GranterOf(h, step.call)))
  {
    hide RowOk, EncodeRow, ReadTable, NoRepeats, IsRevoked, IssueOk, CallOk, GuardHolds;
    var call := step.call;
    var rows := BootstrapRows(call.reason, call.reviewerPrint, call.publisherPrint);
    CapturedIsTable(h);
    assert h == [];
    BootstrapRowsOk(call);
    var e0, e1, e2 := Entry(step.id, rows[0], None), Entry(step.id + 1, rows[1], None), Entry(step.id + 2, rows[2], None);
    AppendThree(h, rows, step.id, None);
    BootstrapSound(h, e0, e1, e2);
  }

  lemma BootstrapSound(h: History, e0: Entry, e1: Entry, e2: Entry)
    requires h == [] && Sound(h) && RowOk(e0.row) && RowOk(e1.row) && RowOk(e2.row)
    requires 0 < e0.id < e1.id < e2.id
    requires e0.row.Bootstrap? && e0.row.bootstrap.user == USER && e0.row.bootstrap.issuer == ISSUER
    requires e1.row.Issue? && e1.row.issue.cap == REVIEWER && e1.row.issue.issuer == ISSUER
          && e1.row.issue.user == USER && e1.row.issue.capgen == 1
    requires e2.row.Issue? && e2.row.issue.cap == PUBLISHER && e2.row.issue.issuer == ISSUER
          && e2.row.issue.user == USER && e2.row.issue.capgen == 1
    ensures Inv(h + [e0] + [e1] + [e2])
  {
    hide BootstrapOk, EncodeRow, IssueOk, IsRevoked, NoRepeats;
    SoundAppend(h, e0);
    var s0 := StateOf(h + [e0]);
    assert s0.issues == [] && Gens(s0.issues, REVIEWER) == [];
    SoundAppend(h + [e0], e1);
    var s1 := StateOf(h + [e0] + [e1]);
    assert s1.issues == [e1.row.issue] && s1.issues[..0] == [];
    assert Gens(s1.issues, PUBLISHER) == [];
    SoundAppend(h + [e0] + [e1], e2);
    var s2 := StateOf(h + [e0] + [e1] + [e2]);
    assert s2.issues[0].cap == REVIEWER && s2.issues[1].cap == PUBLISHER;
  }

  /** What a successful check tells about the current state. */
  lemma CheckedRow(s: State, c: Credential, scope: Option<Text>, rotating: bool, now: int)
    requires Chains(s) && Booted(s) && Checked(s, c, scope, rotating, now).Success?
    ensures s.captured != [] && Gens(s.issues, c.capability) != []
    ensures Checked(s, c, scope, rotating, now).value == Newest(s, c.capability)
    ensures Newest(s, c.capability).capgen == |Gens(s.issues, c.capability)|
    ensures RowIn(Newest(s, c.capability), c.capability)
  {
    hide Checked, IsRevoked, Gens, SameGrant, Live, RowIn, RequireBootstrapped;
    CheckedExactly(s, c, scope, rotating, now);
    assert ChainOk(s, c.capability);
  }

  lemma IssueKeeps(h: History, horizon: nat, step: Step)
    requires Inv(h) && Enabled(h, horizon, step) && step.call.CallIssue?
    ensures Inv(Commit(h, horizon, step))
  {
    hide Prepare, CallOk, Sound, Booted, StateOf, Append, Table, GuardHolds, RowsOk, GranterOf;
    if Commit(h, horizon, step) != h {
      LandedOnCurrent(h, horizon, step);
      IssueLands(h, horizon, step);
    }
  }

  lemma IssueLands(h: History, horizon: nat, step: Step)
    requires Inv(h) && Enabled(h, horizon, step) && step.call.CallIssue?
    requires h[..step.at] == h && ReadTable(Table(h), horizon) == Success(StateOf(h))
    ensures Inv(Append(h, Prepare(h, horizon, step).value.rows, step.id, GranterOf(h, step.call)))
  {
    hide EncodeRow, ReadTable, NoRepeats, IsRevoked, GuardHolds, Checked, Issued, Live, Subset,
         RequireBootstrapped, StateOf, Gens, Descriptor.IsUtf8, IsToken, PolicyOk, RowsOk, IdsAscend;
    var row, s := step.call.row, StateOf(h);
    var granter := GranterOf(h, step.call);
    CheckedRow(s, step.call.administrator, None, false, step.now);
    IssuedHasGens(s.issues, row.cap);
    AppendOne(h, [Issue(row)], step.id, granter);
    SoundAppend(h, Entry(step.id, Issue(row), granter));
    BootedPush(s, Issue(row), RawOf(Entry(step.id, Issue(row), granter)));
  }

  lemma RevokeKeeps(h: History, horizon: nat, step: Step)
    requires Inv(h) && Enabled(h, horizon, step) && step.call.CallRevoke?
    ensures Inv(Commit(h, horizon, step))
  {
    hide Prepare, CallOk, Sound, Booted, StateOf, Append, Table, GuardHolds, RowsOk, GranterOf;
    if Commit(h, horizon, step) != h {
      LandedOnCurrent(h, horizon, step);
      RevokeLands(h, horizon, step);
    }
  }

  lemma RevokeLands(h: History, horizon: nat, step: Step)
    requires Inv(h) && Enabled(h, horizon, step) && step.call.CallRevoke?
    requires h[..step.at] == h && ReadTable(Table(h), horizon) == Success(StateOf(h))
    ensures Inv(Append(h, Prepare(h, horizon, step).value.rows, step.id, GranterOf(h, step.call)))
  {
    hide EncodeRow, ReadTable, NoRepeats, IsRevoked, GuardHolds, Checked, Issued, Live,
         RequireBootstrapped, StateOf, Gens, Descriptor.IsUtf8, IsToken, PolicyOk, RowsOk, IdsAscend, IssuerOf;
    var s, granter := StateOf(h), GranterOf(h, step.call);
    CheckedRow(s, step.call.current, None, false, step.now);
    var revoke := Revoke(RevokeOf(Newest(s, step.call.current.capability), step.call.reason));
    IssuerIsToken();
    AppendOne(h, [revoke], step.id, granter);
    SoundAppend(h, Entry(step.id, revoke, granter));
    BootedPush(s, revoke, RawOf(Entry(step.id, revoke, granter)));
  }

  lemma IssuerIsToken()
    ensures IsToken(ISSUER)
  {
  }

  lemma RotateKeeps(h: History, horizon: nat, step: Step)
    requires Inv(h) && Enabled(h, horizon, step) && step.call.CallRotate?
    ensures Inv(Commit(h, horizon, step))
  {
    hide Prepare, CallOk, Sound, Booted, StateOf, Append, Table, GuardHolds, RowsOk, GranterOf;
    if Commit(h, horizon, step) != h {
      LandedOnCurrent(h, horizon, step);
      RotateLands(h, horizon, step);
    }
  }

  /** Revoking the newest key and issuing its successor keeps a history sound. */
  lemma Rotation(h: History, id: nat, granter: Option<Text>, row: IssueRow, key: Text, keyPrint: Text, reason: Text)
    requires Inv(h) && FreshId(h, id) && StateOf(h).captured != []
    requires Gens(StateOf(h).issues, row.cap) != [] && row == Newest(StateOf(h), row.cap)
    requires row.capgen == |Gens(StateOf(h).issues, row.cap)| < U32_MAX && RowIn(row, row.cap)
    requires PrintOk(key, keyPrint) && TextOk(reason) && Matched(StateOf(h).issues, row.cap, key).None?
    ensures Inv(h + [Entry(id, Revoke(RevokeOf(row, reason)), granter)]
                + [Entry(id + 1, Issue(Successor(row, key, keyPrint, reason)), granter)])
  {
    hide EncodeRow, NoRepeats, StateOf, Gens, Descriptor.IsUtf8, IsToken, PolicyOk, RequireBootstrapped, Matched,
         BootstrapOk;
    var s := StateOf(h);
    var revoke, successor := RevokeOf(row, reason), Successor(row, key, keyPrint, reason);
    var e, f := Entry(id, Revoke(revoke), granter), Entry(id + 1, Issue(successor), granter);
    IssuerIsToken();
    SoundAppend(h, e);
    BootedPush(s, e.row, RawOf(e));
    var t := StateOf(h + [e]);
    MatchedNowhere(s.issues, row.cap, key);
    assert t.revokes[|s.revokes|] == revoke;
    assert ChainOk(s, row.cap);
    SoundAppend(h + [e], f);
    BootedPush(t, f.row, RawOf(f));
  }

  lemma RotateLands(h: History, horizon: nat, step: Step)
    requires Inv(h) && Enabled(h, horizon, step) && step.call.CallRotate?
    requires h[..step.at] == h && ReadTable(Table(h), horizon) == Success(StateOf(h))
    ensures Inv(Append(h, Prepare(h, horizon, step).value.rows, step.id, GranterOf(h, step.call)))
  {
    hide EncodeRow, ReadTable, Sound, IsRevoked, GuardHolds, Checked, Live, RowIn, Booted, Matched,
         StateOf, Gens, Descriptor.IsUtf8, IsToken, PolicyOk, RowsOk, IdsAscend, IssuerOf;
    assert Chains(StateOf(h)) by { ChainsOf(h); }
    var s, granter, call := StateOf(h), GranterOf(h, step.call), step.call;
    CheckedRow(s, call.current, None, true, step.now);
    var row := Newest(s, call.current.capability);
    assert row.cap == call.current.capability by { RowCap(row, call.current.capability); }
    Rotation(h, step.id, granter, row, call.key, call.keyPrint, call.reason);
    AppendTwo(h, Prepare(h, horizon, step).value.rows, step.id, granter);
  }

  lemma ChainsOf(h: History)
    requires Sound(h)
    ensures RowsOk(h) && Chains(StateOf(h))
  {
  }

  lemma RowCap(r: IssueRow, cap: Text)
    requires RowIn(r, cap)
    ensures r.cap == cap
  {
  }

  /** Every run of concurrent bootstraps, issues, rotations and revocations. */
  lemma {:induction false} EveryRunIsSound(steps: seq<Step>, horizon: nat)
    ensures Inv(After(steps, horizon))
  {
    hide Inv, Enabled, Commit;
    if steps == [] {
      NothingIsSound();
    } else {
      var h, step := After(steps[..|steps| - 1], horizon), steps[|steps| - 1];
      EveryRunIsSound(steps[..|steps| - 1], horizon);
      if Enabled(h, horizon, step) {
        match step.call
        case CallBootstrap(_, _, _) => BootstrapKeeps(h, horizon, step);
        case CallIssue(_, _) => IssueKeeps(h, horizon, step);
        case CallRotate(_, _, _, _) => RotateKeeps(h, horizon, step);
        case CallRevoke(_, _) => RevokeKeeps(h, horizon, step);
      }
    }
  }

  lemma NothingIsSound()
    ensures Inv([])
  {
    forall cap
      ensures ChainOk(NOTHING, cap)
    {
      assert Gens([], cap) == [];
    }
  }

  // ------------------------------------------------------------ main results

  /** The snapshot of the rows that a run has written. */
  ghost function Reached(steps: seq<Step>, horizon: nat): State
  {
    EveryRunIsSound(steps, horizon);
    StateOf(After(steps, horizon))
  }

  /** The admission rows, as stored, that a run has written. */
  ghost function Written(steps: seq<Step>, horizon: nat): seq<Raw>
  {
    EveryRunIsSound(steps, horizon);
    Table(After(steps, horizon))
  }

  /**
   In every run each capability's generations are exactly 1..n, its keys are all
   different, and every key but possibly the newest is revoked.
   */
  lemma GenerationsCountUp(steps: seq<Step>, horizon: nat, cap: Text, i: nat)
    requires i < |Gens(Reached(steps, horizon).issues, cap)|
    ensures var s := Reached(steps, horizon);
            var g := Gens(s.issues, cap);
            && g[i].capgen == i + 1
            && (i < |g| - 1 ==> IsRevoked(s.revokes, cap, g[i].key))
            && (forall j :: 0 <= j < |g| && j != i ==> g[j].key != g[i].key)
  {
    hide After, IsRevoked, Gens, IssueOk;
    EveryRunIsSound(steps, horizon);
    assert ChainOk(Reached(steps, horizon), cap);
  }

  /** `State::read` accepts the history of every run, exactly up to its row horizon. */
  lemma ReaderAcceptsEveryRun(steps: seq<Step>, horizon: nat)
    ensures ReadTable(Written(steps, horizon), horizon)
         == if |Written(steps, horizon)| <= horizon then Success(Reached(steps, horizon)) else Failure(InvalidRecord)
  {
    hide After, ReadTable, RowsOk, NoRepeats, Chains;
    EveryRunIsSound(steps, horizon);
    SoundReads(After(steps, horizon), horizon);
  }

  /** At most one key of a capability authenticates, whatever scope or clock is used. */
  lemma OneKeyAuthenticates(steps: seq<Step>, horizon: nat, a: Credential, b: Credential,
                            scopeA: Option<Text>, scopeB: Option<Text>, nowA: int, nowB: int)
    requires a.capability == b.capability
    requires Checked(Reached(steps, horizon), a, scopeA, false, nowA).Success?
    requires Checked(Reached(steps, horizon), b, scopeB, false, nowB).Success?
    ensures a == b
  {
    hide After, Checked, IsRevoked, Gens, StateOf, Live;
    EveryRunIsSound(steps, horizon);
    CheckedExactly(Reached(steps, horizon), a, scopeA, false, nowA);
    CheckedExactly(Reached(steps, horizon), b, scopeB, false, nowB);
  }

  lemma {:induction false} AppendGrows(h: History, rows: seq<Row>, id: nat, granter: Option<Text>)
    ensures h <= Append(h, rows, id, granter)
    decreases |rows|
  {
    if rows != [] {
      AppendGrows(h + [Entry(id, rows[0], granter)], rows[1..], id + 1, granter);
    }
  }

  /** Admission rows are only ever added at the end. */
  lemma {:induction false} HistoryGrows(steps: seq<Step>, t: nat, horizon: nat)
    requires t <= |steps|
    ensures After(steps[..t], horizon) <= After(steps, horizon)
  {
    hide CallOk, FreshId, Prepare, GuardHolds, Append, GranterOf, RowsOk;
    if t == |steps| {
      assert steps[..t] == steps;
    } else {
      var short := steps[..|steps| - 1];
      HistoryGrows(short, t, horizon);
      assert short[..t] == steps[..t];
      var h, step := After(short, horizon), steps[|steps| - 1];
      if Enabled(h, horizon, step) {
        AppendGrows(h, Prepare(h, horizon, step).value.rows, step.id, GranterOf(h, step.call));
      }
    }
  }

  lemma {:induction false} RevokesGrow(h: History, t: nat)
    requires RowsOk(h) && t <= |h|
    ensures RowsOk(h[..t]) && StateOf(h[..t]).revokes <= StateOf(h).revokes
  {
    hide RowOk, EncodeRow;
    if t == |h| {
      assert h[..t] == h;
    } else {
      RevokesGrow(h[..|h| - 1], t);
      assert h[..|h| - 1][..t] == h[..t];
    }
  }

  /** Once revoked, a key never authenticates again, whatever happens afterwards. */
  lemma RevokedForever(steps: seq<Step>, t: nat, horizon: nat, c: Credential, scope: Option<Text>,
                       rotating: bool, now: int)
    requires t <= |steps|
    requires IsRevoked(Reached(steps[..t], horizon).revokes, c.capability, c.key)
    ensures Checked(Reached(steps, horizon), c, scope, rotating, now).Failure?
  {
    hide After, Checked, Gens, StateOf, Live, RowsOk;
    var early, late := After(steps[..t], horizon), After(steps, horizon);
    HistoryGrows(steps, t, horizon);
    EveryRunIsSound(steps, horizon);
    RevokesGrow(late, |early|);
    assert late[..|early|] == early;
    EveryRunIsSound(steps[..t], horizon);
    var before, all := StateOf(early).revokes, StateOf(late).revokes;
    RevokedStays(before, all[|before|..], c.capability, c.key);
    assert before + all[|before|..] == all;
    CheckedExactly(StateOf(late), c, scope, rotating, now);
  }
}
