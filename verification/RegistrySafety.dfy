/** The results about every run of registry writers. */
module RegistrySafety {
  import opened Wrappers
  import opened Framing
  import opened Tokens
  import opened DescriptorFields
  import opened Actors
  import opened Bindings
  import opened BindingRecords
  import opened Snapshot
  import opened Registry
  import opened RegistryRuns
  import Descriptor

  // ----------------------------------------------------------- plans are legal

  /** Recorded equipment sits under its own identity, with texts that can be written again. */
  ghost predicate RecordsOk(s: Registry)
  {
    forall id :: id in s.equipment ==> s.equipment[id].id == id && IsToken(id) && IsToken(s.equipment[id].address)
  }

  lemma FindingIsOk(b: Binding, revision: nat, a: Actor, digest: Text)
    requires BindingOk(b) && ActorOk(a) && IsToken(digest) && |digest| == 16
    ensures RowOk(Finding(FindingFor(b, revision, a, digest)))
  {
    hide Descriptor.IsUtf8, Canonical, Summary, ActorReference;
    CanonicalIsUtf8(b);
    SummaryIsUtf8(b, revision, a);
    SummaryIsSome(b, revision, ActorReference(a));
    TokenIsUtf8(digest);
  }

  lemma SummaryIsSome(b: Binding, revision: nat, reference: Text)
    ensures Summary(b, revision, reference) != []
  {
    hide Decimal;
  }

  lemma PlanIsLegal(s: Registry, call: Call)
    requires CallOk(call) && RecordsOk(s) && Plan(s, call).Success?
    ensures RowOk(Plan(s, call).value) && LegalRow(s, Plan(s, call).value)
  {
    hide Descriptor.IsUtf8, IsToken, BindingOk, ActorOk, FindingFor, Resolve, LegalBinding;
    match call
    case CallProposal(b, _, _) => ResolveMeans(s, b);
    case CallFinding(b, revision, actor, digest) =>
      ResolveMeans(s, b);
      FindingIsOk(b, revision, actor, digest);
      FindingNames(b, revision, actor, digest);
      assert LegalFinding(s, FindingFor(b, revision, actor, digest), b);
    case _ =>
  }

  lemma FindingNames(b: Binding, revision: nat, a: Actor, digest: Text)
    requires ActorOk(a)
    ensures var f := FindingFor(b, revision, a, digest); f.actor == a && f.digest == digest
  {
  }

  // --------------------------------------------------------- replay, row by row

  lemma DecodedTokens(raw: Text)
    requires DecodeRow(raw).Success? && DecodeRow(raw).value.row.Equipment?
    ensures IsToken(DecodeRow(raw).value.row.equipment.id) && IsToken(DecodeRow(raw).value.row.equipment.address)
  {
    hide NeedName, NeedEquipmentKind, Need, NeedNumber, IsToken, ReadPlace, ReadPoint, ReadRetire, ReadProposal,
         ReadFinding, Descriptor.SplitDescriptor;
  }

  lemma {:induction false} ReplayKeepsRecords(s: Registry, count: nat, rows: seq<Raw>)
    requires RecordsOk(s)
    ensures RecordsOk(ReplayFrom(s, count, rows).state)
    decreases |rows|
  {
    hide IsToken, DecodeRow;
    if rows != [] && Believed(s, count, rows[0]).Some? {
      var signed := Believed(s, count, rows[0]).value;
      if signed.row.Equipment? {
        DecodedTokens(rows[0].columns.descriptor);
      }
      ReplayKeepsRecords(Apply(s, signed.row, signed.revision), count + 1, rows[1..]);
    }
  }

  lemma ApplyIgnoresSequence(s: Registry, row: Row, revision: nat, n: nat)
    ensures Apply(s.(sequence := n), row, revision) == Apply(s, row, revision).(sequence := n)
  {
  }

  /** What one more row does to a replay. */
  ghost function Next(r: Replayed, count: nat, raw: Raw): Replayed
  {
    match Believed(r.state, count, raw)
    case None => Replayed(r.state.(sequence := 0), false)
    case Some(signed) => Replayed(Apply(r.state, signed.row, signed.revision).(sequence := count + 1), true)
  }

  lemma {:induction false} ReplayOneMore(s: Registry, count: nat, rows: seq<Raw>, raw: Raw)
    requires s.sequence == 0 && ReplayFrom(s, count, rows).complete
    ensures ReplayFrom(s, count, rows + [raw]) == Next(ReplayFrom(s, count, rows), count + |rows|, raw)
    decreases |rows|
  {
    hide DecodeRow, Apply;
    if rows == [] {
      assert rows + [raw] == [raw] && [raw][1..] == [];
      if Believed(s, count, raw).Some? {
        var signed := Believed(s, count, raw).value;
        ApplyIgnoresSequence(s, signed.row, signed.revision, count);
      }
    } else {
      var signed := Believed(s, count, rows[0]).value;
      ApplyKeepsSequence(s, signed.row, signed.revision);
      ReplayOneMore(Apply(s, signed.row, signed.revision), count + 1, rows[1..], raw);
      assert (rows + [raw])[1..] == rows[1..] + [raw];
    }
  }

  lemma ApplyKeepsSequence(s: Registry, row: Row, revision: nat)
    ensures Apply(s, row, revision).sequence == s.sequence
  {
  }

  // --------------------------------------------------------------- every run

  lemma TableAscends(h: History)
    requires EntriesOk(h) && IdsAscend(h)
    ensures Ascending(Table(h))
  {
    hide RowOk, EncodeRow;
  }

  lemma GuardPinsHistory(h: History, at: nat)
    requires Legal(h) && at <= |h| && GuardHolds(Table(h[..at]), Table(h))
    ensures at == |h| && h[..at] == h
  {
    hide RowOk, EncodeRow, LegalAt, GuardHolds, RawOf;
    assert EntriesOk(h[..at]) && IdsAscend(h[..at]);
    TableAscends(h);
    TableAscends(h[..at]);
    GuardIsEquality(Table(h[..at]), Table(h));
    assert |Table(h[..at])| == at && |Table(h)| == |h|;
  }

  lemma LegalAppend(h: History, e: Entry)
    requires Legal(h) && RowOk(e.row) && StampOk(e.stamp) && FreshId(h, e.id) && EntriesOk(h + [e])
    requires (h + [e])[..|h|] == h && LegalAt(h + [e], |h|)
    ensures Legal(h + [e])
  {
    hide RowOk, LegalRow, HasRoom, ReplayOf, Unused, EncodeRow;
    var more := h + [e];
    forall p | 0 <= p < |more|
      ensures LegalAt(more, p)
    {
      if p < |h| {
        assert LegalAt(h, p);
        assert more[..p] == h[..p];
      }
    }
  }

  lemma StepKeeps(h: History, step: Step)
    requires Legal(h) && Enabled(h, step)
    ensures Legal(Commit(h, step))
  {
    hide RowOk, LegalRow, ReplayFrom, EncodeRow, GuardHolds, Plan, CallOk, LegalAt, Table, StampOk;
    if Commit(h, step) != h {
      GuardPinsHistory(h, step.at);
      var seen := ReplayOf(Table(h)).state;
      NothingIsRecorded();
      ReplayKeepsRecords(EMPTY, 0, Table(h));
      PlanIsLegal(seen, step.call);
      var e := Entry(step.id, Plan(seen, step.call).value, Stamp(step.operation, seen.revision));
      CommitIsLegal(h, e);
    }
  }

  lemma NothingIsRecorded()
    ensures RecordsOk(EMPTY)
  {
  }

  lemma {:induction false} RevisionIsSmall(s: Registry, count: nat, rows: seq<Raw>)
    requires s.revision <= U32_MAX
    ensures ReplayFrom(s, count, rows).state.revision <= U32_MAX
    decreases |rows|
  {
    hide DecodeRow;
    if rows != [] && Believed(s, count, rows[0]).Some? {
      var signed := Believed(s, count, rows[0]).value;
      RevisionIsSmall(Apply(s, signed.row, signed.revision), count + 1, rows[1..]);
    }
  }

  lemma CommitIsLegal(h: History, e: Entry)
    requires Legal(h) && RowOk(e.row) && FreshId(h, e.id) && IsToken(e.stamp.operation)
    requires ReplayOf(Table(h)).complete && LegalRow(ReplayOf(Table(h)).state, e.row)
    requires e.stamp.revision == ReplayOf(Table(h)).state.revision
    requires HasRoom(ReplayOf(Table(h)).state, e.row) && Unused(h, e.stamp.operation)
    ensures Legal(h + [e])
  {
    hide RowOk, LegalRow, HasRoom, ReplayFrom, Unused, EncodeRow, Table;
    RevisionIsSmall(EMPTY, 0, Table(h));
    assert EntriesOk(h + [e]);
    assert (h + [e])[..|h|] == h;
    LegalAppend(h, e);
  }

  /**
   Every row of every reachable binding log was legal against the replay of the
   rows before it, and that replay never refused.
   */
  lemma {:induction false} EveryRowWasLegal(steps: seq<Step>)
    ensures Legal(After(steps))
  {
    hide Enabled, Commit, LegalAt;
    if steps != [] {
      var h, step := After(steps[..|steps| - 1]), steps[|steps| - 1];
      EveryRowWasLegal(steps[..|steps| - 1]);
      if Enabled(h, step) {
        StepKeeps(h, step);
      }
    }
  }

  // -------------------------------------------------------------- refinement

  ghost predicate AllReadable(h: History) { forall i :: 0 <= i < |h| ==> Readable(h[i].row) }

  lemma TableOneMore(h: History, e: Entry)
    requires EntriesOk(h + [e])
    ensures EntriesOk(h) && RowOk(e.row) && StampOk(e.stamp) && Table(h + [e]) == Table(h) + [RawOf(e, |h| + 1)]
  {
    hide RowOk, EncodeRow, StampOk;
    assert (h + [e])[|h|] == e;
    forall i | 0 <= i < |h|
      ensures RowOk(h[i].row) && StampOk(h[i].stamp)
    {
      assert (h + [e])[i] == h[i];
    }
  }

  lemma ReplayLast(h: History)
    requires Legal(h) && h != []
    ensures var e, before := h[|h| - 1], ReplayOf(Table(h[..|h| - 1]));
            && before.complete && e.stamp.revision == before.state.revision && HasRoom(before.state, e.row)
            && ReplayOf(Table(h)) == Next(before, |h| - 1, RawOf(e, |h|))
  {
    hide RowOk, LegalRow, HasRoom, EncodeRow, StampOk, Next, ReplayFrom, RawOf;
    var n := |h| - 1;
    assert LegalAt(h, n);
    assert h[..n] + [h[n]] == h;
    TableOneMore(h[..n], h[n]);
    assert |Table(h[..n])| == n;
    ReplayOneMore(EMPTY, 0, Table(h[..n]), RawOf(h[n], n + 1));
  }

  lemma LegalPrefix(h: History, t: nat)
    requires Legal(h) && t <= |h|
    ensures Legal(h[..t])
  {
    hide RowOk, LegalRow, HasRoom, ReplayOf, Unused, EncodeRow;
    var early := h[..t];
    forall p | 0 <= p < |early|
      ensures LegalAt(early, p)
    {
      assert LegalAt(h, p);
      assert early[..p] == h[..p];
    }
  }

  /** A row that replay can read at all. */
  predicate Legible(row: Row) { row.Proposal? ==> ModeIsRead(row.binding.mode) }

  ghost predicate AllLegible(h: History) { forall i :: 0 <= i < |h| ==> Legible(h[i].row) }

  /** The row that storage keeps for a row: a proposal's mode as its label was stored. */
  function StoredRow(row: Row): Row
    requires Legible(row)
  {
    if row.Proposal? then Proposal(row.binding.(mode := StoredMode(row.binding.mode)), row.actor) else row
  }

  /** The registry that the rows, as storage keeps them, add up to. */
  ghost function Kept(h: History): Registry
    requires AllLegible(h)
  {
    if h == [] then EMPTY
    else
      var e := h[|h| - 1];
      assert AllLegible(h[..|h| - 1]);
      Apply(Kept(h[..|h| - 1]), StoredRow(e.row), e.stamp.revision).(sequence := |h|)
  }

  /** Replay believes exactly the legible rows, for what storage kept of them. */
  lemma BelievedExactly(e: Entry, s: Registry, count: nat)
    requires RowOk(e.row) && StampOk(e.stamp) && e.stamp.revision == s.revision
    ensures Believed(s, count, RawOf(e, count + 1))
         == if Legible(e.row) then Some(Signed(StoredRow(e.row), e.stamp.revision)) else None
  {
    hide DecodeRow, EncodeRow, BindingOk, ActorOk, StampOk, ModeIsRead, StoredMode, Readable;
    if e.row.Proposal? {
      ProposalReadsExactly(e.row.binding, e.row.actor, e.stamp);
    } else {
      OnlyProposalsMatter(e.row);
      RowReadsBack(e.row, e.stamp);
    }
  }

  lemma OnlyProposalsMatter(row: Row)
    ensures !row.Proposal? ==> Readable(row)
  {
  }

  /**
   A legal log replays completely exactly when all its rows are legible, and
   then to what storage kept; otherwise its last row alone stopped the replay.
   */
  lemma {:induction false} ReplayIsExactly(h: History)
    requires Legal(h)
    ensures AllLegible(h) ==> ReplayOf(Table(h)) == Replayed(Kept(h), true)
    ensures !AllLegible(h) ==>
              h != [] && AllLegible(h[..|h| - 1])
              && ReplayOf(Table(h)) == Replayed(Kept(h[..|h| - 1]).(sequence := 0), false)
  {
    hide RowOk, LegalAt, HasRoom, EncodeRow, StampOk, Believed, Legible, Apply, RawOf, StoredRow, ReplayFrom;
    if h != [] {
      var n := |h| - 1;
      LegalPrefix(h, n);
      ReplayIsExactly(h[..n]);
      ReplayLast(h);
      assert AllLegible(h) <==> AllLegible(h[..n]) && Legible(h[n].row);
      BelievedExactly(h[n], ReplayOf(Table(h[..n])).state, n);
    } else {
      assert Table(h) == [];
      NothingReplays();
    }
  }

  lemma NothingReplays()
    ensures ReplayOf([]) == Replayed(EMPTY, true)
  {
  }

  /** Storage and meaning differ in nothing but the proposed modes. */
  lemma {:induction false} KeptMeans(h: History)
    requires AllLegible(h)
    ensures Kept(h).(bindings := []) == Meaning(h).(bindings := [])
  {
    hide Legible, StoredMode, CitedOf;
    if h != [] {
      var n := |h| - 1;
      KeptMeans(h[..n]);
      ApplyBesides(Kept(h[..n]), Meaning(h[..n]), h[n].row, h[n].stamp.revision);
    }
  }

  lemma ApplyBesides(s: Registry, t: Registry, row: Row, revision: nat)
    requires Legible(row) && s.(bindings := []) == t.(bindings := [])
    ensures Apply(s, StoredRow(row), revision).(bindings := []) == Apply(t, row, revision).(bindings := [])
  {
    hide Legible, StoredMode, CitedOf;
    assert s == t.(bindings := s.bindings);
  }

  /** Only proposals add bindings, one each. */
  lemma ApplyBindings(s: Registry, row: Row, revision: nat)
    ensures Apply(s, row, revision).bindings == if row.Proposal? then s.bindings + [row.binding] else s.bindings
  {
  }

  lemma SafeRowsAreKept(row: Row)
    requires RowOk(row)
    ensures Readable(row) <==> Legible(row) && StoredRow(row) == row
  {
    hide BindingOk, ActorOk, ModeIsSafe, ModeIsRead, StoredMode;
    if row.Proposal? {
      BindingMode(row.binding);
      SafeModesAreKept(row.binding.mode);
      assert row.binding.(mode := row.binding.mode) == row.binding;
    }
  }

  /** The kept bindings are the meant ones exactly when every row is readable. */
  lemma {:induction false} KeptExactly(h: History)
    requires EntriesOk(h) && AllLegible(h)
    ensures Kept(h).bindings == Meaning(h).bindings <==> AllReadable(h)
  {
    hide RowOk, StampOk, Legible, Readable, Apply, StoredRow;
    if h != [] {
      var n, e := |h| - 1, h[|h| - 1];
      KeptExactly(h[..n]);
      SafeRowsAreKept(e.row);
      StoredKind(e.row);
      ApplyBindings(Kept(h[..n]), StoredRow(e.row), e.stamp.revision);
      ApplyBindings(Meaning(h[..n]), e.row, e.stamp.revision);
      assert AllReadable(h) <==> AllReadable(h[..n]) && Readable(e.row);
      if e.row.Proposal? {
        AppendInjective(Kept(h[..n]).bindings, StoredRow(e.row).binding, Meaning(h[..n]).bindings, e.row.binding);
      } else {
        OnlyProposalsMatter(e.row);
      }
    }
  }

  lemma StoredKind(row: Row)
    requires Legible(row)
    ensures StoredRow(row).Proposal? <==> row.Proposal?
    ensures row.Proposal? ==> StoredRow(row).actor == row.actor
    ensures row.Proposal? && StoredRow(row).binding == row.binding ==> StoredRow(row) == row
  {
    hide ModeIsRead;
  }

  lemma AppendInjective<T>(a: seq<T>, x: T, b: seq<T>, y: T)
    ensures a + [x] == b + [y] <==> a == b && x == y
  {
    assert a + [x] == b + [y] ==> (a + [x])[..|a|] == a && (b + [y])[..|b|] == b && |a| == |b|;
    assert (a + [x])[|a|] == x && (b + [y])[|b|] == y;
  }

  /**
   Replaying a reachable log gives exactly the registry its rows were meant to
   add up to, if and only if every proposed mode was a label that survives
   being written unescaped.
   */
  lemma ReplayRefinesExactly(steps: seq<Step>)
    ensures Legal(After(steps))
    ensures ReplayOf(Table(After(steps))) == Replayed(Meaning(After(steps)), true) <==> AllReadable(After(steps))
  {
    hide Legal, ReplayOf, After, Meaning, Readable, Legible, RowOk, StampOk, Kept;
    var h := After(steps);
    EveryRowWasLegal(steps);
    LegalEntries(h);
    ReplayIsExactly(h);
    forall i | 0 <= i < |h|
      ensures Readable(h[i].row) ==> Legible(h[i].row)
    {
      SafeRowsAreKept(h[i].row);
    }
    if AllLegible(h) {
      KeptExactly(h);
      KeptMeans(h);
      assert Kept(h).bindings == Meaning(h).bindings ==> Kept(h) == Meaning(h).(bindings := Kept(h).bindings);
    }
  }

  /**
   Replay of a reachable log is complete if and only if every proposed mode can
   be read at all. It then differs from what the rows meant in no more than the
   modes; otherwise every row but the last was replayed.
   */
  lemma ReplayCompletesExactly(steps: seq<Step>)
    ensures Legal(After(steps))
    ensures var h, r := After(steps), ReplayOf(Table(After(steps)));
            && (r.complete <==> AllLegible(h))
            && (r.complete ==> r.state.(bindings := []) == Meaning(h).(bindings := []))
            && (!r.complete ==>
                  && h != [] && h[|h| - 1].row.Proposal? && AllLegible(h[..|h| - 1])
                  && r.state.(bindings := []) == Meaning(h[..|h| - 1]).(bindings := [], sequence := 0))
  {
    hide Legal, ReplayOf, After, Meaning, ModeIsRead, Kept;
    var h := After(steps);
    EveryRowWasLegal(steps);
    LegalEntries(h);
    ReplayIsExactly(h);
    if AllLegible(h) {
      KeptMeans(h);
    } else {
      KeptMeans(h[..|h| - 1]);
      var i :| 0 <= i < |h| && !Legible(h[i].row);
      assert i == |h| - 1;
    }
  }

  lemma LegalEntries(h: History)
    requires Legal(h)
    ensures EntriesOk(h)
  {
  }

  // --------------------------------------------------- what the registry means

  ghost function Changes(h: History): nat
  {
    if h == [] then 0 else Changes(h[..|h| - 1]) + if h[|h| - 1].row.Finding? then 0 else 1
  }

  lemma {:induction false} MeaningCounts(h: History)
    requires Legal(h)
    ensures Meaning(h).sequence == |h| && Changes(h) <= U32_MAX && Meaning(h).revision == Changes(h)
  {
    hide RowOk, LegalAt, EncodeRow, StampOk, Legible, Table, ReplayOf, Kept;
    if h != [] {
      var n := |h| - 1;
      LegalPrefix(h, n);
      MeaningCounts(h[..n]);
      ReplayLast(h);
      ReplayIsExactly(h[..n]);
      KeptMeans(h[..n]);
      assert Kept(h[..n]).revision == Kept(h[..n]).(bindings := []).revision;
    }
  }

  /** The rows that replay takes in: all of them, or all but the proposal that stopped it. */
  ghost function Replayable(h: History): History { if AllLegible(h) || h == [] then h else h[..|h| - 1] }

  /**
   In every reachable log, whatever its modes: the replayed revision counts the
   replayed rows that are not findings, and the sequence of a complete replay
   counts all rows.
   */
  lemma RevisionCounts(steps: seq<Step>)
    ensures Legal(After(steps))
    ensures var h, r := After(steps), ReplayOf(Table(After(steps)));
            && r.state.revision == Changes(Replayable(h)) <= U32_MAX
            && r.state.sequence == if r.complete then |h| else 0
  {
    hide Legal, ReplayOf, After, Meaning, AllLegible, Changes;
    ReplayCompletesExactly(steps);
    LegalEntries(After(steps));
    var h, r := After(steps), ReplayOf(Table(After(steps)));
    LegalPrefix(h, |Replayable(h)|);
    assert h[..|Replayable(h)|] == Replayable(h);
    MeaningCounts(Replayable(h));
    assert r.state.revision == r.state.(bindings := []).revision;
    assert r.state.sequence == r.state.(bindings := []).sequence;
  }

  ghost predicate ReusesRetired(h: History, id: Text, p: nat, q: nat)
  {
    && q < p < |h| && h[p].row.Equipment? && h[p].row.equipment.id == id
    && h[q].row.Retire? && h[q].row.address == h[p].row.equipment.address
  }

  lemma {:induction false} RetiredAddressExactly(h: History, address: Text)
    ensures address in Meaning(h).retiredAddresses
       <==> exists q :: 0 <= q < |h| && h[q].row.Retire? && h[q].row.address == address
  {
    if h != [] {
      var n := |h| - 1;
      RetiredAddressExactly(h[..n], address);
      if q :| 0 <= q < n && h[q].row.Retire? && h[q].row.address == address {
        assert h[..n][q].row.Retire?;
      }
      if h[n].row.Retire? && h[n].row.address == address {
        assert h[n].row.Retire?;
      }
    }
  }

  lemma {:induction false} MeantFlagged(h: History, id: Text)
    ensures id in Meaning(h).reassessment <==> exists p, q :: ReusesRetired(h, id, p, q)
  {
    if h != [] {
      var n := |h| - 1;
      MeantFlagged(h[..n], id);
      if p: nat, q: nat :| ReusesRetired(h[..n], id, p, q) {
        assert ReusesRetired(h, id, p, q);
      }
      if h[n].row.Equipment? && h[n].row.equipment.id == id {
        var address := h[n].row.equipment.address;
        RetiredAddressExactly(h[..n], address);
        if address in Meaning(h[..n]).retiredAddresses {
          var q :| 0 <= q < n && h[..n][q].row.Retire? && h[..n][q].row.address == address;
          assert ReusesRetired(h, id, n, q);
        }
      }
      if p: nat, q: nat :| ReusesRetired(h, id, p, q) {
        if p < n {
          assert ReusesRetired(h[..n], id, p, q);
        } else {
          assert h[..n][q] == h[q];
        }
      }
    }
  }

  /**
   In every reachable log, whatever its modes, the replayed registry flags an
   identity exactly when it was recorded at an address retired before.
   */
  lemma FlaggedExactly(steps: seq<Step>, id: Text)
    ensures Legal(After(steps))
    ensures id in ReplayOf(Table(After(steps))).state.reassessment
       <==> exists p, q :: ReusesRetired(After(steps), id, p, q)
  {
    hide Legal, ReplayOf, After, AllLegible, ReusesRetired, Meaning, Table;
    ReplayCompletesExactly(steps);
    LegalEntries(After(steps));
    var h, r := After(steps), ReplayOf(Table(After(steps)));
    MeantFlagged(h, id);
    assert r.state.reassessment == r.state.(bindings := []).reassessment;
    if !r.complete {
      ProposalsFlagNothing(h);
    }
  }

  lemma ProposalsFlagNothing(h: History)
    requires h != [] && h[|h| - 1].row.Proposal?
    ensures Meaning(h).reassessment == Meaning(h[..|h| - 1]).reassessment
  {
  }

  // ------------------------------------------------------ where keys collide

  /** `b` continues `a` with a colon and more. */
  predicate Continues(a: Text, b: Text) { |a| < |b| && b[..|a|] == a && b[|a|] == ':' }

  /**
   Two points share a registry key exactly when they are the same point, or one
   equipment identity continues into the other's property across a colon.
   */
  lemma PointKeysCollide(e: Text, p: Text, f: Text, q: Text)
    ensures PointKey(e, p) == PointKey(f, q)
       <==> (e == f && p == q) || (Continues(e, f) && p == f[|e| + 1..] + ":" + q)
            || (Continues(f, e) && q == e[|f| + 1..] + ":" + p)
  {
    var a, b := PointKey(e, p), PointKey(f, q);
    if |e| == |f| {
      assert a[..|e|] == e && b[..|f|] == f && a[|e| + 1..] == p && b[|f| + 1..] == q;
    } else if |e| < |f| {
      KeysApart(e, p, f, q);
    } else {
      KeysApart(f, q, e, p);
    }
  }

  lemma KeysApart(e: Text, p: Text, f: Text, q: Text)
    requires |e| < |f|
    ensures PointKey(e, p) == PointKey(f, q) <==> Continues(e, f) && p == f[|e| + 1..] + ":" + q
  {
    var a, b := PointKey(e, p), PointKey(f, q);
    assert a[..|e|] == e && a[|e|] == ':' && a[|e| + 1..] == p;
    assert b[..|e|] == f[..|e|] && b[|e|] == f[|e|] && b[|e| + 1..] == f[|e| + 1..] + ":" + q;
    if Continues(e, f) && p == f[|e| + 1..] + ":" + q {
      assert a == a[..|e|] + [a[|e|]] + a[|e| + 1..];
      assert b == b[..|e|] + [b[|e|]] + b[|e| + 1..];
    }
  }

  /** Such a collision is reachable with valid tokens. */
  lemma PointKeysDoCollide()
    ensures IsToken("ahu") && IsToken("1:temp") && IsToken("ahu:1") && IsToken("temp")
    ensures PointKey("ahu", "1:temp") == PointKey("ahu:1", "temp")
  {
    assert "ahu" + ":" + "1:temp" == "ahu:1" + ":" + "temp";
  }

  /** A valid proposal whose stored row does not read back as itself. */
  lemma UnsafeModeIsLost(b: Binding, a: Actor, s: Stamp)
    requires BindingOk(b) && ActorOk(a) && StampOk(s) && b.mode == Some("50%")
    ensures DecodeRow(EncodeRow(Proposal(b, a), s)) != Success(Signed(Proposal(b, a), s.revision))
  {
    hide DecodeRow, EncodeRow, BindingOk;
    assert "50%"[2] == '%';
    ProposalReadsBackExactly(b, a, s);
  }
}
