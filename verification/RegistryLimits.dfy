/**
 Where the binding registry falls short: points matched by another point's
 record, and proposals whose mode stops or changes what is read back. Each is
 shown by a run from the empty log.
 */
module RegistryLimits {
  import opened Wrappers
  import opened Framing
  import opened Tokens
  import opened DescriptorFields
  import opened Actors
  import opened Bindings
  import opened BindingRecords
  import opened Snapshot
  import opened Registry
  import opened RegistryRuns
  import opened RegistrySafety
  import Descriptor

  // ------------------------------------------------ a point, then a proposal

  /** A proposal that a recorded point lets through, whatever its mode. */
  predicate Fits(p: PointRecord, b: Binding)
  {
    && PointKey(p.equipment, p.property) == PointKey(b.equipment, b.property)
    && p.scope == b.pscope == b.escope && p.unit == b.unit && p.class_ == b.class_
    && b.requested == b.effective && !b.feedback.Ambiguous? && !b.status.ObservedQualified?
  }

  ghost function Run(p: PointRecord, b: Binding, a: Actor): seq<Step>
  {
    [Step(CallPoint(p), "op-1", 0, 1, true), Step(CallProposal(b, 1, a), "op-2", 1, 2, true)]
  }

  lemma NothingIsLegal()
    ensures Legal([]) && AllLegible([]) && Kept([]) == EMPTY
  {
  }

  lemma FirstStep(p: PointRecord)
    requires RowOk(Point(p))
    ensures After([Step(CallPoint(p), "op-1", 0, 1, true)]) == [Entry(1, Point(p), Stamp("op-1", 0))]
  {
    hide RowOk, ReplayFrom;
    var step := Step(CallPoint(p), "op-1", 0, 1, true);
    assert [step][..0] == [];
    NothingReplays();
    var nothing: History := [];
    assert nothing[..0] == nothing && Table(nothing) == [];
    assert Enabled([], step);
  }

  lemma AfterPoint(p: PointRecord)
    requires RowOk(Point(p))
    ensures Legal([Entry(1, Point(p), Stamp("op-1", 0))])
    ensures var h := [Entry(1, Point(p), Stamp("op-1", 0))];
            && ReplayOf(Table(h)).complete
            && ReplayOf(Table(h)).state
               == EMPTY.(points := map[PointKey(p.equipment, p.property) := p], revision := 1, sequence := 1)
  {
    hide RowOk, ReplayOf, Legal, PointKey;
    FirstStep(p);
    EveryRowWasLegal([Step(CallPoint(p), "op-1", 0, 1, true)]);
    var h := [Entry(1, Point(p), Stamp("op-1", 0))];
    assert h[..0] == [];
    ReplayIsExactly(h);
  }

  /** Both steps commit: the log is the point and the proposal. */
  lemma RunCommits(p: PointRecord, b: Binding, a: Actor)
    requires RowOk(Point(p)) && BindingOk(b) && ActorOk(a) && Fits(p, b)
    ensures After(Run(p, b, a))
         == [Entry(1, Point(p), Stamp("op-1", 0)), Entry(2, Proposal(b, a), Stamp("op-2", 1))]
  {
    hide RowOk, ReplayOf, BindingOk, ActorOk, Table, PointKey;
    var run, h := Run(p, b, a), [Entry(1, Point(p), Stamp("op-1", 0))];
    assert run[..1] == [run[0]];
    FirstStep(p);
    AfterPoint(p);
    assert h[..1] == h;
    assert Enabled(h, run[1]);
    GuardHoldsOf(Table(h));
  }

  lemma GuardHoldsOf<C>(table: seq<Stored<C>>)
    ensures GuardHolds(table, table)
  {
  }

  const PLANT := Actor("publisher-1", "scope-a", 1, "issuer-1")

  function Wired(equipment: Text, property: Text, mode: Option<Text>): Binding
  {
    Binding("endpoint-1", Service, "scope-a", equipment, property, "scope-a", "source-1", "degC", mode, Sense, Sense,
            Absent, Valid)
  }

  lemma WiredIsOk(equipment: Text, property: Text, mode: Option<Text>)
    requires IsToken(equipment) && IsToken(property) && (mode.Some? ==> IsName(mode.value))
    ensures BindingOk(Wired(equipment, property, mode)) && ActorOk(PLANT)
    ensures RowOk(Point(PointRecord(equipment, property, "scope-a", "degC", Service)))
  {
    hide Descriptor.IsUtf8;
    Descriptor.AsciiIsUtf8("degC");
  }

  // -------------------------------------------------- another point's record

  /** Recorded points sit under their own keys. */
  ghost predicate PointsOk(s: Registry)
  {
    forall k :: k in s.points ==> PointKey(s.points[k].equipment, s.points[k].property) == k
  }

  lemma {:induction false} ReplayKeepsPoints(s: Registry, count: nat, rows: seq<Raw>)
    requires PointsOk(s)
    ensures PointsOk(ReplayFrom(s, count, rows).state)
    decreases |rows|
  {
    hide DecodeRow, PointKey;
    if rows != [] && Believed(s, count, rows[0]).Some? {
      var signed := Believed(s, count, rows[0]).value;
      ReplayKeepsPoints(Apply(s, signed.row, signed.revision), count + 1, rows[1..]);
    }
  }

  /** The registry that a run's log replays to. */
  ghost function Reached(steps: seq<Step>): Registry
  {
    EveryRowWasLegal(steps);
    LegalEntries(After(steps));
    ReplayOf(Table(After(steps))).state
  }

  /** The record that resolution holds a binding against. */
  ghost function Matched(s: Registry, b: Binding): PointRecord
    requires PointKey(b.equipment, b.property) in s.points
  {
    s.points[PointKey(b.equipment, b.property)]
  }

  /**
   What a collision does to a legal binding: its record is its own point's, or
   that of a point whose identity runs across the colon. Retiring the record's
   equipment stops the binding exactly when the record is its own.
   */
  lemma MatchedExactly(steps: seq<Step>, b: Binding)
    requires LegalBinding(Reached(steps), b)
    ensures var s, p := Reached(steps), Matched(Reached(steps), b);
            && ((p.equipment == b.equipment && p.property == b.property)
                || (Continues(b.equipment, p.equipment)
                    && b.property == p.equipment[|b.equipment| + 1..] + ":" + p.property)
                || (Continues(p.equipment, b.equipment)
                    && p.property == b.equipment[|p.equipment| + 1..] + ":" + b.property))
            && (LegalBinding(s.(retired := s.retired + {p.equipment}), b)
                <==> !(p.equipment == b.equipment && p.property == b.property))
  {
    hide After, ReplayFrom, PointKey, Continues;
    EveryRowWasLegal(steps);
    LegalEntries(After(steps));
    ReplayKeepsPoints(EMPTY, 0, Table(After(steps)));
    var p := Matched(Reached(steps), b);
    PointKeysCollide(p.equipment, p.property, b.equipment, b.property);
    SameEquipmentSamePoint(p.equipment, p.property, b.property);
  }

  lemma SameEquipmentSamePoint(e: Text, p: Text, q: Text)
    ensures PointKey(e, p) == PointKey(e, q) <==> p == q
  {
    assert PointKey(e, p)[|e| + 1..] == p && PointKey(e, q)[|e| + 1..] == q;
  }

  /** A run in which a proposal commits for a point that was never recorded. */
  lemma UnrecordedPointIsProposed()
    ensures var p, b := PointRecord("ahu:1", "temp", "scope-a", "degC", Service), Wired("ahu", "1:temp", None);
            var h := After(Run(p, b, PLANT));
            && |h| == 2 && h[1].row == Proposal(b, PLANT)
            && forall i :: 0 <= i < |h| && h[i].row.Point? ==>
                 h[i].row.point.equipment != b.equipment && h[i].row.point.property != b.property
  {
    hide After, RowOk, BindingOk, ActorOk;
    WiredIsOk("ahu:1", "temp", None);
    WiredIsOk("ahu", "1:temp", None);
    PointKeysDoCollide();
    RunCommits(PointRecord("ahu:1", "temp", "scope-a", "degC", Service), Wired("ahu", "1:temp", None), PLANT);
  }

  // ------------------------------------------------ modes that are not read back

  /** A log that replay cannot complete is never written to again. */
  lemma {:induction false} UnreadLogsAreStuck(steps: seq<Step>, more: seq<Step>)
    requires Legal(After(steps)) && !ReplayOf(Table(After(steps))).complete
    ensures After(steps + more) == After(steps)
  {
    hide Legal, Plan, HasRoom, CallOk, ReplayOf, GuardHolds, Table, Unused;
    if more == [] {
      assert steps + more == steps;
    } else {
      var n := |more| - 1;
      UnreadLogsAreStuck(steps, more[..n]);
      assert (steps + more)[..|steps + more| - 1] == steps + more[..n];
      var h, step := After(steps), more[n];
      assert (steps + more)[|steps + more| - 1] == step;
      if Enabled(h, step) && GuardHolds(Table(h[..step.at]), Table(h)) {
        GuardPinsHistory(h, step.at);
      }
    }
  }

  lemma TruncatedIsUnread()
    ensures IsName("50%") && !ModeIsRead(Some("50%"))
  {
    hide Descriptor.SplitFrom, Descriptor.IsUtf8;
    Descriptor.AsciiIsUtf8("50%");
    if Descriptor.SplitDescriptor("mode=" + ModeText(Some("50%"))).Success? {
      ModeIsAField(Some("50%"));
    }
  }

  /** A valid proposal with the mode `50%` is the last row its registry ever has. */
  lemma UnreadModeStopsTheRegistry(more: seq<Step>)
    ensures var b := Wired("ahu-1", "temp", Some("50%"));
            var p := PointRecord("ahu-1", "temp", "scope-a", "degC", Service);
            && |After(Run(p, b, PLANT))| == 2 && After(Run(p, b, PLANT))[1].row == Proposal(b, PLANT)
            && After(Run(p, b, PLANT) + more) == After(Run(p, b, PLANT))
  {
    hide After, RowOk, BindingOk, ActorOk, Legal, ReplayOf, ModeIsRead, IsName;
    var p, b := PointRecord("ahu-1", "temp", "scope-a", "degC", Service), Wired("ahu-1", "temp", Some("50%"));
    TruncatedIsUnread();
    WiredIsOk("ahu-1", "temp", Some("50%"));
    RunCommits(p, b, PLANT);
    ReplayCompletesExactly(Run(p, b, PLANT));
    assert !Legible(After(Run(p, b, PLANT))[1].row);
    UnreadLogsAreStuck(Run(p, b, PLANT), more);
  }

  lemma BrokenIsReadShort()
    ensures IsName("a;x=1") && ModeIsRead(Some("a;x=1")) && StoredMode(Some("a;x=1")) == Some("a")
  {
    hide Descriptor.SplitFrom, Descriptor.IsUtf8, Descriptor.PctDecode, PROPOSAL_KEYS;
    Descriptor.AsciiIsUtf8("a;x=1");
    var written := [Descriptor.Field("mode", "a"), Descriptor.Field("x", "1")];
    assert Descriptor.Render(written) == "mode=a;x=1" by {
      assert written[1..] == [Descriptor.Field("x", "1")];
    }
    assert "mode=" + ModeText(Some("a;x=1")) == "mode=a;x=1";
    PlainTextReads("mode", "a");
    PlainTextReads("x", "1");
    Descriptor.DescriptorReadsBack(written, ["a", "1"]);
    var m := Descriptor.SplitDescriptor("mode=a;x=1").value;
    assert Descriptor.Holds(m, written[0].key, ["a", "1"][0]);
    forall k | k in m && k != "mode"
      ensures k == "x"
    {
      var i :| 0 <= i < |written| && written[i].key == k;
    }
    assert "x" !in PROPOSAL_KEYS by { XIsNoKey(); }
  }

  lemma XIsNoKey()
    ensures "x" !in PROPOSAL_KEYS
  {
  }

  lemma PlainTextReads(key: Text, value: Text)
    requires Descriptor.KeyOk(key) && forall i :: 0 <= i < |value| ==> Descriptor.IsPlain(value[i])
    ensures Descriptor.Reads(Descriptor.Field(key, value), value)
  {
    hide Descriptor.IsUtf8, Descriptor.Unescape;
    Descriptor.UnescapePlain(value);
    Descriptor.AsciiIsUtf8(value);
  }

  /** A valid proposal with the mode `a;x=1` is replayed as one with the mode `a`. */
  lemma BrokenModeIsReplayedShort()
    ensures var b := Wired("ahu-1", "temp", Some("a;x=1"));
            var p := PointRecord("ahu-1", "temp", "scope-a", "degC", Service);
            && |After(Run(p, b, PLANT))| == 2 && After(Run(p, b, PLANT))[1].row == Proposal(b, PLANT)
            && Reached(Run(p, b, PLANT)).bindings == [b.(mode := Some("a"))]
  {
    hide After, RowOk, BindingOk, ActorOk, Legal, ReplayOf, ModeIsRead, StoredMode, IsName;
    var p, b := PointRecord("ahu-1", "temp", "scope-a", "degC", Service), Wired("ahu-1", "temp", Some("a;x=1"));
    BrokenIsReadShort();
    WiredIsOk("ahu-1", "temp", Some("a;x=1"));
    RunCommits(p, b, PLANT);
    var h := After(Run(p, b, PLANT));
    EveryRowWasLegal(Run(p, b, PLANT));
    LegalEntries(h);
    ReplayIsExactly(h);
    assert h[..1] == [h[0]] && [h[0]][..0] == [];
    ApplyBindings(EMPTY, h[0].row, 0);
    assert Kept(h[..1]).bindings == [];
    ApplyBindings(Kept(h[..1]), StoredRow(h[1].row), 1);
  }
}
