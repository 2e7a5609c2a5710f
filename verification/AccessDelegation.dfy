/** Delegation only narrows, along the whole tree of issued capabilities. */
module AccessDelegation {
  import opened Wrappers
  import opened Framing
  import opened DescriptorFields
  import opened AccessRecords
  import opened AccessState
  import opened Snapshot
  import opened AccessGate
  import opened AccessSafety

  /** A capability lies inside what its administrator may grant. */
  predicate Within(child: IssueRow, admin: IssueRow)
  {
    && admin.policy.admin.Some?
    && child.scope in admin.policy.scopes && child.ceiling <= admin.policy.admin.value
    && Subset(child.policy.scopes, admin.policy.scopes)
    && (child.policy.admin.Some? ==> child.policy.admin.value <= admin.policy.admin.value
                                     && child.policy.admin.value <= child.ceiling)
    && (admin.policy.expires.Some? ==> child.policy.expires.Some?
                                       && child.policy.expires.value <= admin.policy.expires.value)
  }

  /** What bootstrap mints, and the outer bound of everything granted later. */
  predicate Rooted(r: IssueRow)
  {
    && r.scope in ADMINISTRATOR.scopes && r.ceiling <= 2 && Subset(r.policy.scopes, ADMINISTRATOR.scopes)
    && (r.policy.admin.Some? ==> r.policy.admin.value <= 2)
  }

  ghost predicate GrantedBy(h: History, p: nat, cap: Text, r: IssueRow)
  {
    exists q :: 0 <= q < p && q < |h| && h[q].row.Issue? && h[q].row.issue.cap == cap && Within(r, h[q].row.issue)
  }

  ghost predicate GrantOk(h: History, p: nat)
    requires p < |h|
  {
    h[p].row.Issue? ==>
      match h[p].granter
      case None => Rooted(h[p].row.issue)
      case Some(cap) => GrantedBy(h, p, cap, h[p].row.issue)
  }

  /** Every issue row is a bootstrap row or lies inside an earlier row of its granter. */
  ghost predicate AllGranted(h: History) { forall p :: 0 <= p < |h| ==> GrantOk(h, p) }

  lemma AllGrantedAppend(h: History, e: Entry)
    requires AllGranted(h) && GrantOk(h + [e], |h|)
    ensures AllGranted(h + [e])
  {
    hide Within, Rooted;
    forall p | 0 <= p < |h + [e]|
      ensures GrantOk(h + [e], p)
    {
      if p < |h| && h[p].row.Issue? && h[p].granter.Some? {
        assert GrantOk(h, p);
        var cap, r := h[p].granter.value, h[p].row.issue;
        var q :| 0 <= q < p && q < |h| && h[q].row.Issue? && h[q].row.issue.cap == cap && Within(r, h[q].row.issue);
        assert (h + [e])[q] == h[q];
        assert GrantedBy(h + [e], p, cap, r);
      } else if p < |h| {
        assert GrantOk(h, p);
      }
    }
  }

  /** A capability's newest row is an entry, and carries the granter that rotation copies. */
  lemma {:induction false} NewestEntry(h: History, cap: Text) returns (q: nat)
    requires RowsOk(h) && Gens(StateOf(h).issues, cap) != []
    ensures q < |h| && h[q].row == Issue(Newest(StateOf(h), cap)) && h[q].granter == IssuerOf(h, cap)
    ensures h[q].row.issue.cap == cap
  {
    hide RowOk, EncodeRow;
    var short, e := h[..|h| - 1], h[|h| - 1];
    var before, after := StateOf(short), StateOf(h);
    if e.row.Issue? {
      assert after.issues[..|after.issues| - 1] == before.issues;
    }
    if e.row.Issue? && e.row.issue.cap == cap {
      q := |h| - 1;
    } else {
      assert Gens(after.issues, cap) == Gens(before.issues, cap);
      q := NewestEntry(short, cap);
    }
  }

  lemma AuthorizedIsWithin(admin: IssueRow, child: IssueRow)
    requires Authorize(admin.policy, child.scope, child.ceiling, child.policy).Success?
    ensures Within(child, admin)
  {
  }

  lemma IssueGranted(h: History, horizon: nat, step: Step)
    requires Inv(h) && AllGranted(h) && Enabled(h, horizon, step) && step.call.CallIssue?
    requires h[..step.at] == h && ReadTable(Table(h), horizon) == Success(StateOf(h))
    ensures AllGranted(Append(h, Prepare(h, horizon, step).value.rows, step.id, GranterOf(h, step.call)))
  {
    hide EncodeRow, ReadTable, NoRepeats, GuardHolds, Checked, Issued, Live, Within, Authorize, CallOk,
         RequireBootstrapped, StateOf, Gens, RowsOk, IdsAscend, AllGranted;
    var row, s, admin := step.call.row, StateOf(h), step.call.administrator.capability;
    CheckedRow(s, step.call.administrator, None, false, step.now);
    AuthorizedIsWithin(Newest(s, admin), row);
    var q := NewestEntry(h, admin);
    var e := Entry(step.id, Issue(row), Some(admin));
    AppendOne(h, [Issue(row)], step.id, Some(admin));
    assert (h + [e])[q] == h[q];
    assert GrantedBy(h + [e], |h|, admin, row);
    AllGrantedAppend(h, e);
  }

  lemma RevokeGranted(h: History, horizon: nat, step: Step)
    requires Inv(h) && AllGranted(h) && Enabled(h, horizon, step) && step.call.CallRevoke?
    requires h[..step.at] == h && ReadTable(Table(h), horizon) == Success(StateOf(h))
    ensures AllGranted(Append(h, Prepare(h, horizon, step).value.rows, step.id, GranterOf(h, step.call)))
  {
    hide EncodeRow, ReadTable, GuardHolds, Checked, StateOf, Inv, CallOk, RowsOk, AllGranted, GranterOf;
    var rows, granter := Prepare(h, horizon, step).value.rows, GranterOf(h, step.call);
    AppendOne(h, rows, step.id, granter);
    AllGrantedAppend(h, Entry(step.id, rows[0], granter));
  }

  lemma SameGrantWithin(child: IssueRow, successor: IssueRow, admin: IssueRow)
    requires SameGrant(child, successor)
    ensures Within(child, admin) <==> Within(successor, admin)
    ensures Rooted(child) <==> Rooted(successor)
  {
  }

  lemma RotateGranted(h: History, horizon: nat, step: Step)
    requires Inv(h) && AllGranted(h) && Enabled(h, horizon, step) && step.call.CallRotate?
    requires h[..step.at] == h && ReadTable(Table(h), horizon) == Success(StateOf(h))
    ensures AllGranted(Append(h, Prepare(h, horizon, step).value.rows, step.id, GranterOf(h, step.call)))
  {
    hide EncodeRow, ReadTable, NoRepeats, GuardHolds, Checked, Live, CallOk, Matched, RowIn, Sound, Booted,
         RequireBootstrapped, StateOf, Gens, RowsOk, IdsAscend, AllGranted;
    ChainsOf(h);
    var s, call := StateOf(h), step.call;
    CheckedRow(s, call.current, None, true, step.now);
    var q := NewestEntry(h, call.current.capability);
    var rows, granter := Prepare(h, horizon, step).value.rows, GranterOf(h, step.call);
    AppendTwo(h, rows, step.id, granter);
    SuccessorGranted(h, q, Entry(step.id, rows[0], granter), Entry(step.id + 1, rows[1], granter));
  }

  /** A successor inherits its predecessor's granter and grant. */
  lemma SuccessorGranted(h: History, q: nat, e: Entry, f: Entry)
    requires AllGranted(h) && q < |h| && h[q].row.Issue? && e.row.Revoke? && f.row.Issue?
    requires f.granter == h[q].granter && SameGrant(f.row.issue, h[q].row.issue)
    ensures AllGranted(h + [e] + [f])
  {
    hide Within, Rooted, SameGrant;
    AllGrantedAppend(h, e);
    var all, r := h + [e] + [f], f.row.issue;
    assert GrantOk(h, q);
    SameGrantWithin(r, h[q].row.issue, r);
    if f.granter.Some? {
      var cap := f.granter.value;
      var k :| 0 <= k < q && k < |h| && h[k].row.Issue? && h[k].row.issue.cap == cap
               && Within(h[q].row.issue, h[k].row.issue);
      SameGrantWithin(r, h[q].row.issue, h[k].row.issue);
      assert all[k] == h[k];
      assert GrantedBy(all, |h| + 1, cap, r);
    }
    AllGrantedAppend(h + [e], f);
  }

  lemma BootstrapGranted(h: History, horizon: nat, step: Step)
    requires Inv(h) && AllGranted(h) && Enabled(h, horizon, step) && step.call.CallBootstrap?
    requires h[..step.at] == h && ReadTable(Table(h), horizon) == Success(StateOf(h))
    ensures AllGranted(Append(h, Prepare(h, horizon, step).value.rows, step.id, GranterOf(h, step.call)))
  {
    hide EncodeRow, ReadTable, GuardHolds, StateOf, Inv, CallOk, RowsOk, AllGranted;
    var rows := Prepare(h, horizon, step).value.rows;
    AppendThree(h, rows, step.id, None);
    var e0, e1, e2 := Entry(step.id, rows[0], None), Entry(step.id + 1, rows[1], None), Entry(step.id + 2, rows[2], None);
    AllGrantedAppend(h, e0);
    AllGrantedAppend(h + [e0], e1);
    AllGrantedAppend(h + [e0] + [e1], e2);
  }

  lemma {:induction false} EveryRunIsGranted(steps: seq<Step>, horizon: nat)
    ensures AllGranted(After(steps, horizon))
  {
    hide Inv, CallOk, FreshId, RowsOk, Prepare, Append, GranterOf, GuardHolds, AllGranted, Table;
    if steps == [] {
      NothingGranted();
    } else {
      var h, step := After(steps[..|steps| - 1], horizon), steps[|steps| - 1];
      EveryRunIsGranted(steps[..|steps| - 1], horizon);
      EveryRunIsSound(steps[..|steps| - 1], horizon);
      InvSound(h);
      if Enabled(h, horizon, step) && Commit(h, horizon, step) != h {
        LandedOnCurrent(h, horizon, step);
        match step.call
        case CallBootstrap(_, _, _) => BootstrapGranted(h, horizon, step);
        case CallIssue(_, _) => IssueGranted(h, horizon, step);
        case CallRotate(_, _, _, _) => RotateGranted(h, horizon, step);
        case CallRevoke(_, _) => RevokeGranted(h, horizon, step);
      }
    }
  }

  lemma NothingGranted()
    ensures AllGranted([])
  {
  }

  lemma InvSound(h: History)
    requires Inv(h)
    ensures Sound(h)
  {
  }

  // ------------------------------------------------------------ main results

  lemma {:induction false} EntryIsAGen(h: History, q: nat) returns (i: nat)
    requires RowsOk(h) && q < |h| && h[q].row.Issue?
    ensures var g := Gens(StateOf(h).issues, h[q].row.issue.cap); i < |g| && g[i] == h[q].row.issue
  {
    hide RowOk, EncodeRow;
    var short, e, cap := h[..|h| - 1], h[|h| - 1], h[q].row.issue.cap;
    var before, after := StateOf(short), StateOf(h);
    if e.row.Issue? {
      assert after.issues[..|after.issues| - 1] == before.issues;
    }
    if q == |h| - 1 {
      i := |Gens(before.issues, cap)|;
    } else {
      i := EntryIsAGen(short, q);
    }
  }

  /**
   Every capability a run ever issued is a bootstrap one, or lies within the
   policy of its granter, at every generation the granter has had or will have.
   */
  lemma DelegationNarrows(steps: seq<Step>, horizon: nat, p: nat, k: nat)
    requires p < |After(steps, horizon)| && After(steps, horizon)[p].row.Issue?
    requires After(steps, horizon)[p].granter.Some?
    requires k < |Gens(Reached(steps, horizon).issues, After(steps, horizon)[p].granter.value)|
    ensures GrantedBy(After(steps, horizon), p, After(steps, horizon)[p].granter.value,
                      After(steps, horizon)[p].row.issue)
    ensures Within(After(steps, horizon)[p].row.issue,
                   Gens(Reached(steps, horizon).issues, After(steps, horizon)[p].granter.value)[k])
  {
    hide After, Within, RowIn, Gens, StateOf, RowsOk;
    var h := After(steps, horizon);
    EveryRunIsGranted(steps, horizon);
    EveryRunIsSound(steps, horizon);
    assert GrantOk(h, p);
    var cap, r := h[p].granter.value, h[p].row.issue;
    var q :| 0 <= q < p && q < |h| && h[q].row.Issue? && h[q].row.issue.cap == cap && Within(r, h[q].row.issue);
    var i := EntryIsAGen(h, q);
    var g := Gens(StateOf(h).issues, cap);
    assert ChainOk(StateOf(h), cap);
    assert SameGrant(g[i], g[0]) && SameGrant(g[k], g[0]);
    GranterRotates(r, g[i], g[k]);
  }

  lemma GranterRotates(r: IssueRow, admin: IssueRow, rotated: IssueRow)
    requires admin.policy == rotated.policy && Within(r, admin)
    ensures Within(r, rotated)
  {
  }

  lemma WithinIsRooted(child: IssueRow, admin: IssueRow)
    requires Within(child, admin) && Rooted(admin)
    ensures Rooted(child)
  {
  }

  lemma {:induction false} RootedAt(h: History, p: nat)
    requires AllGranted(h) && p < |h| && h[p].row.Issue?
    ensures Rooted(h[p].row.issue)
    decreases p
  {
    hide Within, Rooted;
    assert GrantOk(h, p);
    if h[p].granter.Some? {
      var cap, r := h[p].granter.value, h[p].row.issue;
      var q :| 0 <= q < p && q < |h| && h[q].row.Issue? && h[q].row.issue.cap == cap && Within(r, h[q].row.issue);
      RootedAt(h, q);
      WithinIsRooted(r, h[q].row.issue);
    }
  }

  /** By induction from bootstrap: no run reaches outside the bootstrap administrator's bounds. */
  lemma EverythingIsRooted(steps: seq<Step>, horizon: nat, p: nat)
    requires p < |After(steps, horizon)| && After(steps, horizon)[p].row.Issue?
    ensures Rooted(After(steps, horizon)[p].row.issue)
  {
    hide After, AllGranted, Rooted;
    EveryRunIsGranted(steps, horizon);
    RootedAt(After(steps, horizon), p);
  }
}
