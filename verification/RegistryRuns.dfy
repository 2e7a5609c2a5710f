/**
 Every run of registry writers over one log: each row was legal against the
 replay of the rows before it, and the registry is a refinement of the log.
 */
module RegistryRuns {
  import opened Wrappers
  import opened Framing
  import opened Tokens
  import opened DescriptorFields
  import opened Actors
  import opened Bindings
  import opened BindingRecords
  import opened Snapshot
  import opened Registry
  import Descriptor

  /** A committed row: what it was written for, and the stamp it carries. */
  datatype Entry = Entry(id: nat, row: Row, stamp: Stamp)

  type History = seq<Entry>

  predicate EntriesOk(h: History) { forall i :: 0 <= i < |h| ==> RowOk(h[i].row) && StampOk(h[i].stamp) }

  ghost function RawOf(e: Entry, sequence: nat): Raw
    requires RowOk(e.row) && StampOk(e.stamp)
  {
    Stored(e.id, Columns(KindOf(e.row), EntityOf(e.row), sequence, EncodeRow(e.row, e.stamp)))
  }

  ghost function Table(h: History): seq<Raw>
    requires EntriesOk(h)
  {
    seq(|h|, i requires 0 <= i < |h| => RawOf(h[i], i + 1))
  }

  /** The registry that the rows, as they were meant, add up to. */
  ghost function Meaning(h: History): Registry
  {
    if h == [] then EMPTY
    else
      var e := h[|h| - 1];
      Apply(Meaning(h[..|h| - 1]), e.row, e.stamp.revision).(sequence := |h|)
  }

  // --------------------------------------------------------------------- steps

  datatype Call =
    | CallEquipment(equipment: EquipmentRecord)
    | CallSpace(space: PlaceRecord)
    | CallSource(source: PlaceRecord)
    | CallPoint(point: PointRecord)
    | CallRetire(id: Text, reason: Text)
    | CallProposal(binding: Binding, revision: nat, actor: Actor)
    | CallFinding(binding: Binding, revision: nat, actor: Actor, digest: Text)

  /** Inputs as their validated types allow them. */
  predicate CallOk(call: Call)
  {
    match call
    case CallRetire(_, reason) => Descriptor.IsUtf8(reason)
    case CallProposal(b, _, actor) => BindingOk(b) && ActorOk(actor)
    case CallFinding(b, _, actor, digest) => BindingOk(b) && ActorOk(actor) && IsToken(digest) && |digest| == 16
    case _ => true
  }

  ghost function Plan(s: Registry, call: Call): Result<Row, BindingError>
    requires CallOk(call)
  {
    match call
    case CallEquipment(e) => PlanEquipment(s, e)
    case CallSpace(p) => PlanSpace(s, p)
    case CallSource(p) => PlanSource(s, p)
    case CallPoint(p) => PlanPoint(s, p)
    case CallRetire(id, reason) => PlanRetire(s, id, reason)
    case CallProposal(b, revision, actor) => PlanProposal(s, b, revision, actor)
    case CallFinding(b, revision, actor, digest) => PlanFinding(s, b, revision, actor, digest)
  }

  /**
   One dispatch. It replayed the first `at` rows; its transaction ran later.
   `foreign` is the truth, there, of the conjuncts the access rows own.
   */
  datatype Step = Step(call: Call, operation: Text, at: nat, id: nat, foreign: bool)

  predicate Unused(h: History, operation: Text) { forall i :: 0 <= i < |h| ==> h[i].stamp.operation != operation }

  predicate FreshId(h: History, id: nat) { 0 < id && (h != [] ==> h[|h| - 1].id < id) }

  ghost predicate Enabled(h: History, step: Step)
  {
    && EntriesOk(h) && CallOk(step.call) && IsToken(step.operation) && step.at <= |h| && FreshId(h, step.id)
    && var seen := ReplayOf(Table(h[..step.at]));
       seen.complete && Plan(seen.state, step.call).Success?
       && HasRoom(seen.state, Plan(seen.state, step.call).value)
  }

  ghost function Commit(h: History, step: Step): History
    requires Enabled(h, step)
  {
    var seen := ReplayOf(Table(h[..step.at])).state;
    if step.foreign && Unused(h, step.operation) && GuardHolds(Table(h[..step.at]), Table(h))
    then h + [Entry(step.id, Plan(seen, step.call).value, Stamp(step.operation, seen.revision))]
    else h
  }

  ghost function After(steps: seq<Step>): History
  {
    if steps == [] then []
    else
      var h, step := After(steps[..|steps| - 1]), steps[|steps| - 1];
      if Enabled(h, step) then Commit(h, step) else h
  }

  // ------------------------------------------------------------------ legality

  /** What the registry state must say for a row to be written. */
  ghost predicate LegalRow(s: Registry, row: Row)
  {
    match row
    case Equipment(e) => !IdentityTaken(s, e.id)
    case Space(p) => !IdentityTaken(s, p.id)
    case Source(p) => !IdentityTaken(s, p.id)
    case Point(p) => PointKey(p.equipment, p.property) !in s.points
    case Retire(id, address, _) =>
      id !in s.retired && exists key :: key in s.equipment && s.equipment[key].id == id && s.equipment[key].address == address
    case Proposal(b, _) => LegalBinding(s, b)
    case Finding(f) => exists b :: LegalFinding(s, f, b)
  }

  /** Neither retired nor flagged, and the recorded point matches scope, class and unit. */
  ghost predicate LegalBinding(s: Registry, b: Binding)
  {
    && b.equipment !in s.retired && b.equipment !in s.reassessment
    && PointKey(b.equipment, b.property) in s.points
    && var point := s.points[PointKey(b.equipment, b.property)];
       && b.pscope == point.scope == b.escope && b.class_ == point.class_ && b.unit == point.unit
       && b.requested == b.effective && b.feedback != Ambiguous && b.status != ObservedQualified
  }

  /** The cited binding is legal now and already proposed. */
  ghost predicate LegalFinding(s: Registry, f: FindingRecord, b: Binding)
  {
    LegalBinding(s, b) && b in s.bindings && ActorOk(f.actor) && f == FindingFor(b, s.revision, f.actor, f.digest)
  }

  ghost predicate LegalAt(h: History, p: nat)
    requires EntriesOk(h) && p < |h|
  {
    var before := ReplayOf(Table(h[..p]));
    && before.complete && LegalRow(before.state, h[p].row) && h[p].stamp.revision == before.state.revision
    && HasRoom(before.state, h[p].row) && Unused(h[..p], h[p].stamp.operation)
  }

  predicate IdsAscend(h: History) { forall i, j :: 0 <= i < j < |h| ==> h[i].id < h[j].id }

  ghost predicate Legal(h: History)
  {
    EntriesOk(h) && IdsAscend(h) && forall p :: 0 <= p < |h| ==> LegalAt(h, p)
  }

  lemma ResolveMeans(s: Registry, b: Binding)
    ensures Resolve(s, b).Success? <==> LegalBinding(s, b)
  {
  }

  lemma {:induction false} SuffixedIsUtf8(parts: seq<Text>)
    requires AllUtf8(parts)
    ensures Descriptor.IsUtf8(Suffixed(parts))
  {
    hide Descriptor.IsUtf8;
    if parts == [] {
      Descriptor.AsciiIsUtf8([]);
    } else {
      SuffixedIsUtf8(parts[1..]);
      Descriptor.AsciiIsUtf8([0x1F as char]);
      Descriptor.Utf8Concat([0x1F as char], parts[0]);
      Descriptor.Utf8Concat([0x1F as char] + parts[0], Suffixed(parts[1..]));
    }
  }

  lemma PartsAreUtf8(b: Binding)
    requires BindingOk(b)
    ensures AllUtf8(Parts(b))
  {
    hide Descriptor.IsUtf8, IsToken;
    EnumIsUtf8(b.class_, b.requested, b.feedback, b.status);
    EnumIsUtf8(b.class_, b.effective, b.feedback, b.status);
    Descriptor.AsciiIsUtf8("-");
    TokenIsUtf8(b.endpoint);
    TokenIsUtf8(b.escope);
    TokenIsUtf8(b.equipment);
    TokenIsUtf8(b.property);
    TokenIsUtf8(b.pscope);
    TokenIsUtf8(b.source);
  }

  lemma CanonicalIsUtf8(b: Binding)
    requires BindingOk(b)
    ensures Descriptor.IsUtf8(Canonical(b))
  {
    hide Descriptor.IsUtf8, BindingOk, Parts;
    PartsAreUtf8(b);
    SuffixedIsUtf8(Parts(b));
    Descriptor.AsciiIsUtf8("binding-canonical-v2");
    Descriptor.Utf8Concat("binding-canonical-v2", Suffixed(Parts(b)));
  }

  lemma TokenIsEscaped(t: Text)
    requires IsToken(t)
    ensures Escaped(t) == t && Descriptor.IsUtf8(t)
  {
    hide Descriptor.IsUtf8, IsToken;
    Descriptor.TokenIsPlain(t);
  }

  lemma ReferenceIsUtf8(a: Actor)
    requires ActorOk(a)
    ensures Descriptor.IsUtf8(ActorReference(a))
  {
    hide Descriptor.IsUtf8, Decimal, IsToken, Escaped;
    TokenIsEscaped(a.capability);
    TokenIsEscaped(a.scope);
    TokenIsEscaped(a.issuer);
    DecimalIsUtf8(a.generation);
    Descriptor.AsciiIsUtf8("capability=");
    Descriptor.AsciiIsUtf8(";scope=");
    Descriptor.AsciiIsUtf8(";capgen=");
    Descriptor.AsciiIsUtf8(";issuer=");
    var t1 := "capability=" + a.capability + ";scope=" + a.scope;
    Descriptor.Utf8Concat("capability=", a.capability);
    Descriptor.Utf8Concat("capability=" + a.capability, ";scope=");
    Descriptor.Utf8Concat("capability=" + a.capability + ";scope=", a.scope);
    Descriptor.Utf8Concat(t1, ";capgen=");
    Descriptor.Utf8Concat(t1 + ";capgen=", Decimal(a.generation));
    Descriptor.Utf8Concat(t1 + ";capgen=" + Decimal(a.generation), ";issuer=");
    Descriptor.Utf8Concat(t1 + ";capgen=" + Decimal(a.generation) + ";issuer=", a.issuer);
  }

  lemma SummaryIsUtf8(b: Binding, revision: nat, a: Actor)
    requires BindingOk(b) && ActorOk(a)
    ensures Descriptor.IsUtf8(Summary(b, revision, ActorReference(a)))
  {
    hide Descriptor.IsUtf8, Decimal, IsToken, ActorReference;
    var head := "binding " + PointKey(b.equipment, b.property) + " ";
    var middle := head + StatusText(b.status) + " [";
    SummaryHead(b);
    DecimalIsUtf8(revision);
    ReferenceIsUtf8(a);
    Descriptor.AsciiIsUtf8("] rev ");
    Descriptor.AsciiIsUtf8(" actor ");
    Descriptor.Utf8Concat(middle, b.unit);
    Descriptor.Utf8Concat(middle + b.unit, "] rev ");
    Descriptor.Utf8Concat(middle + b.unit + "] rev ", Decimal(revision));
    Descriptor.Utf8Concat(middle + b.unit + "] rev " + Decimal(revision), " actor ");
    Descriptor.Utf8Concat(middle + b.unit + "] rev " + Decimal(revision) + " actor ", ActorReference(a));
  }

  lemma SummaryHead(b: Binding)
    requires BindingOk(b)
    ensures Descriptor.IsUtf8("binding " + PointKey(b.equipment, b.property) + " " + StatusText(b.status) + " [")
  {
    hide Descriptor.IsUtf8, IsToken, StatusText;
    TokenIsUtf8(b.equipment);
    TokenIsUtf8(b.property);
    EnumIsUtf8(b.class_, b.requested, b.feedback, b.status);
    Descriptor.AsciiIsUtf8("binding ");
    Descriptor.AsciiIsUtf8(":");
    Descriptor.AsciiIsUtf8(" ");
    Descriptor.AsciiIsUtf8(" [");
    var key := b.equipment + ":" + b.property;
    Descriptor.Utf8Concat(b.equipment, ":");
    Descriptor.Utf8Concat(b.equipment + ":", b.property);
    Descriptor.Utf8Concat("binding ", key);
    Descriptor.Utf8Concat("binding " + key, " ");
    Descriptor.Utf8Concat("binding " + key + " ", StatusText(b.status));
    Descriptor.Utf8Concat("binding " + key + " " + StatusText(b.status), " [");
  }
}
