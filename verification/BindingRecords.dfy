/** The binding rows: what each descriptor says, and when it reads back. */
module BindingRecords {
  import opened Wrappers
  import opened Framing
  import opened Tokens
  import opened Descriptor
  import opened DescriptorFields
  import opened Actors
  import opened Bindings

  datatype EquipmentKind = Ahu | Vav

  datatype EquipmentRecord = EquipmentRecord(id: Text, kind: EquipmentKind, scope: Text, name: Text, address: Text)

  /** A space or a source: identity, scope and display label. */
  datatype PlaceRecord = PlaceRecord(id: Text, scope: Text, name: Text)

  datatype PointRecord = PointRecord(equipment: Text, property: Text, scope: Text, unit: Text, class_: Class)

  datatype FindingRecord = FindingRecord(
    fid: Text, digest: Text, summary: Text, actor: Actor, equipment: Text, property: Text, canonical: Text)

  datatype Row =
    | Equipment(equipment: EquipmentRecord)
    | Space(space: PlaceRecord)
    | Source(source: PlaceRecord)
    | Point(point: PointRecord)
    | Retire(id: Text, address: Text, reason: Text)
    | Proposal(binding: Binding, actor: Actor)
    | Finding(finding: FindingRecord)

  // ---------------------------------------------------------------- validity

  predicate NameOk(t: Text) { 0 < |t| <= 128 && IsUtf8(t) && forall i :: 0 <= i < |t| ==> t[i] as int != 0 }

  predicate RowOk(row: Row)
  {
    match row
    case Equipment(e) => IsToken(e.id) && IsToken(e.scope) && NameOk(e.name) && IsToken(e.address)
    case Space(p) => IsToken(p.id) && IsToken(p.scope) && NameOk(p.name)
    case Source(p) => IsToken(p.id) && IsToken(p.scope) && NameOk(p.name)
    case Point(p) => IsToken(p.equipment) && IsToken(p.property) && IsToken(p.scope) && IsName(p.unit)
    case Retire(id, address, reason) => IsToken(id) && IsToken(address) && reason != [] && IsUtf8(reason)
    case Proposal(b, a) => BindingOk(b) && ActorOk(a)
    case Finding(f) =>
      && IsToken(f.fid) && f.digest != [] && IsUtf8(f.digest) && f.summary != [] && IsUtf8(f.summary)
      && ActorOk(f.actor) && IsToken(f.equipment) && IsToken(f.property) && IsUtf8(f.canonical)
  }

  /** A mode travels unescaped, so only these labels survive the trip. */
  predicate ModeIsSafe(mode: Option<Text>)
  {
    mode.None?
    || (mode.value != "-" && forall i :: 0 <= i < |mode.value| ==> mode.value[i] != ';' && mode.value[i] != '%')
  }

  /** What a proposal's reader refuses beside its own fields. */
  const KEY_MATERIAL: set<Text> := {"fp", "key", "key_id"}

  /**
   The labels with which a proposal row can be read at all: `mode=` and the label
   split into parts of their own, under keys that neither name another field of
   the row nor key material, and the first part decodes to a mode.
   */
  predicate ModeIsRead(mode: Option<Text>)
  {
    match SplitDescriptor("mode=" + ModeText(mode))
    case Failure(_) => false
    case Success(m) =>
      && "mode" in m && ParseMode(m["mode"]).Success?
      && forall k :: k in m && k != "mode" ==> k !in PROPOSAL_KEYS && k !in KEY_MATERIAL
  }

  /** The mode that such a row reads back with. */
  function StoredMode(mode: Option<Text>): Option<Text>
    requires ModeIsRead(mode)
  {
    ParseMode(SplitDescriptor("mode=" + ModeText(mode)).value["mode"]).value
  }

  predicate Readable(row: Row) { row.Proposal? ==> ModeIsSafe(row.binding.mode) }

  // ------------------------------------------------------------------ writing

  /** The operation and input revision that every row carries. */
  datatype Stamp = Stamp(operation: Text, revision: nat)

  predicate StampOk(s: Stamp) { IsToken(s.operation) && s.revision <= U32_MAX }

  function KindText(k: EquipmentKind): Text { if k.Ahu? then "ahu" else "vav" }

  const EQUIPMENT_KEYS: seq<Text> :=
    ["v", "kind", "id", "ekind", "scope", "label", "address", "operation", "revision"]
  const PLACE_KEYS: seq<Text> := ["v", "kind", "id", "scope", "label", "operation", "revision"]
  const POINT_KEYS: seq<Text> :=
    ["v", "kind", "equipment", "property", "scope", "unit", "eclass", "operation", "revision"]
  const RETIRE_KEYS: seq<Text> := ["v", "kind", "id", "address", "reason", "operation", "revision"]
  const PROPOSAL_KEYS: seq<Text> :=
    ["v", "kind", "endpoint", "eclass", "escope", "equipment", "property", "pscope", "source", "unit", "mode",
     "requested", "effective", "feedback", "status", "operation", "revision", "capability", "scope", "capgen",
     "issuer"]
  const FINDING_KEYS: seq<Text> :=
    ["v", "kind", "operation", "fid", "generation", "revision", "digest", "summary", "capability", "scope",
     "capgen", "issuer", "equipment", "property", "binding"]

  function Keys(row: Row): seq<Text>
  {
    match row
    case Equipment(_) => EQUIPMENT_KEYS
    case Space(_) => PLACE_KEYS
    case Source(_) => PLACE_KEYS
    case Point(_) => POINT_KEYS
    case Retire(_, _, _) => RETIRE_KEYS
    case Proposal(_, _) => PROPOSAL_KEYS
    case Finding(_) => FINDING_KEYS
  }

  function ProposalValues(b: Binding, a: Actor, s: Stamp): seq<Text>
  {
    ["2", "propose", b.endpoint, ClassText(b.class_), b.escope, b.equipment, b.property, b.pscope, b.source, b.unit,
     ModeText(b.mode), RoleText(b.requested), RoleText(b.effective), FeedbackText(b.feedback),
     StatusText(b.status), s.operation, Decimal(s.revision), a.capability, a.scope, Decimal(a.generation),
     a.issuer]
  }

  function FindingValues(f: FindingRecord, s: Stamp): seq<Text>
  {
    ["2", "finding", s.operation, f.fid, Decimal(s.revision), Decimal(s.revision), f.digest, f.summary,
     f.actor.capability, f.actor.scope, Decimal(f.actor.generation), f.actor.issuer, f.equipment, f.property,
     f.canonical]
  }

  function Values(row: Row, s: Stamp): seq<Text>
  {
    match row
    case Equipment(e) =>
      ["2", "equipment", e.id, KindText(e.kind), e.scope, e.name, e.address, s.operation, Decimal(s.revision)]
    case Space(p) => ["2", "space", p.id, p.scope, p.name, s.operation, Decimal(s.revision)]
    case Source(p) => ["2", "source", p.id, p.scope, p.name, s.operation, Decimal(s.revision)]
    case Point(p) =>
      ["2", "point", p.equipment, p.property, p.scope, p.unit, ClassText(p.class_), s.operation, Decimal(s.revision)]
    case Retire(id, address, reason) => ["2", "retire", id, address, reason, s.operation, Decimal(s.revision)]
    case Proposal(b, a) => ProposalValues(b, a, s)
    case Finding(f) => FindingValues(f, s)
  }

  /** Position of the one field that is written as it stands. */
  const MODE: nat := 10

  /** The fields as written: everything escaped, except a proposal's mode. */
  function Written(row: Row, s: Stamp): seq<Field>
    requires RowOk(row) && StampOk(s)
  {
    ValuesAreUtf8(row, s);
    var fields := EscapedFields(Keys(row), Values(row, s));
    if row.Proposal? then fields[MODE := Field("mode", ModeText(row.binding.mode))] else fields
  }

  function EncodeRow(row: Row, s: Stamp): Text
    requires RowOk(row) && StampOk(s)
  {
    Render(Written(row, s))
  }

  // ------------------------------------------------------------------ reading

  /** `stored_actor`: a reference with no key material beside it. */
  function NeedActor(m: Fields): Result<Actor, Descriptor.Fault>
  {
    hide Need, NeedNumber;
    var capability :- Need(m, "capability");
    var scope :- Need(m, "scope");
    var raw :- Need(m, "capgen");
    var issuer :- Need(m, "issuer");
    var _ :- Check(IsToken(capability) && IsToken(scope) && IsToken(issuer));
    var generation :- NeedNumber(m, "capgen", U32_MAX);
    var _ :- Check(generation > 0 && "fp" !in m && "key" !in m && "key_id" !in m);
    Success(Actor(capability, scope, generation, issuer))
  }

  function NeedName(m: Fields): Result<Text, Descriptor.Fault>
  {
    var t :- Need(m, "label");
    if 0 < |t| <= 128 && forall i :: 0 <= i < |t| ==> t[i] as int != 0 then Success(t) else Failure(BadField)
  }

  function ParseKind(t: Text): Option<EquipmentKind>
  {
    if t == "ahu" then Some(Ahu) else if t == "vav" then Some(Vav) else None
  }

  function NeedEquipmentKind(m: Fields): Result<EquipmentKind, Descriptor.Fault>
  {
    var t :- Need(m, "ekind");
    Known(ParseKind(t))
  }

  function ReadEquipment(m: Fields): (r: Result<Row, Descriptor.Fault>)
    ensures r.Success? ==> r.value.Equipment?
  {
    hide NeedToken, NeedName, NeedEquipmentKind;
    var id :- NeedToken(m, "id");
    var kind :- NeedEquipmentKind(m);
    var scope :- NeedToken(m, "scope");
    var name :- NeedName(m);
    var address :- NeedToken(m, "address");
    Success(Equipment(EquipmentRecord(id, kind, scope, name, address)))
  }

  function ReadPlace(m: Fields): Result<PlaceRecord, Descriptor.Fault>
  {
    hide NeedToken, NeedName;
    var id :- NeedToken(m, "id");
    var scope :- NeedToken(m, "scope");
    var name :- NeedName(m);
    Success(PlaceRecord(id, scope, name))
  }

  function ReadPoint(m: Fields): (r: Result<Row, Descriptor.Fault>)
    ensures r.Success? ==> r.value.Point?
  {
    hide NeedToken, NeedUnit, NeedClass;
    var equipment :- NeedToken(m, "equipment");
    var property :- NeedToken(m, "property");
    var scope :- NeedToken(m, "scope");
    var unit :- NeedUnit(m);
    var class_ :- NeedClass(m, "eclass");
    Success(Point(PointRecord(equipment, property, scope, unit, class_)))
  }

  /** A retirement is believed as it stands. */
  function ReadRetire(m: Fields): (r: Result<Row, Descriptor.Fault>)
    ensures r.Success? ==> r.value.Retire?
  {
    hide Need;
    var id :- Need(m, "id");
    var address :- Need(m, "address");
    var reason :- Need(m, "reason");
    Success(Retire(id, address, reason))
  }

  function ReadProposal(m: Fields): (r: Result<Row, Descriptor.Fault>)
    ensures r.Success? ==> r.value.Proposal?
  {
    hide NeedActor, DecodeBinding;
    var actor :- NeedActor(m);
    var binding :- DecodeBinding(m);
    Success(Proposal(binding, actor))
  }

  function NeedText(m: Fields, key: Text): Result<Text, Descriptor.Fault>
  {
    var t :- Need(m, key);
    if t != [] then Success(t) else Failure(BadField)
  }

  function ReadFinding(m: Fields): (r: Result<Row, Descriptor.Fault>)
    ensures r.Success? ==> r.value.Finding?
  {
    hide Need, NeedToken, NeedNumber, NeedText, NeedActor;
    var fid :- NeedToken(m, "fid");
    var generation :- NeedNumber(m, "generation", U32_MAX);
    var revision :- NeedNumber(m, "revision", U32_MAX);
    var digest :- NeedText(m, "digest");
    var summary :- NeedText(m, "summary");
    var actor :- NeedActor(m);
    var _ :- Check(generation == revision);
    var equipment :- Need(m, "equipment");
    var property :- Need(m, "property");
    var canonical := if "binding" in m then m["binding"] else [];
    Success(Finding(FindingRecord(fid, digest, summary, actor, equipment, property, canonical)))
  }

  function ReadKind(m: Fields, kind: Text): Result<Row, Descriptor.Fault>
  {
    hide ReadEquipment, ReadPlace, ReadPoint, ReadRetire, ReadProposal, ReadFinding;
    if kind == "equipment" then ReadEquipment(m)
    else if kind == "space" then
      var p :- ReadPlace(m);
      Success(Space(p))
    else if kind == "source" then
      var p :- ReadPlace(m);
      Success(Source(p))
    else if kind == "point" then ReadPoint(m)
    else if kind == "propose" then ReadProposal(m)
    else if kind == "retire" then ReadRetire(m)
    else if kind == "finding" then ReadFinding(m)
    else Failure(BadField)
  }

  /** A descriptor as replay reads it: the row, and the revision it was written against. */
  datatype Signed = Signed(row: Row, revision: nat)

  function ReadFields(m: Fields): Result<Signed, Descriptor.Fault>
  {
    hide Need, NeedNumber, ReadKind;
    var version :- Need(m, "v");
    var _ :- Check(version == "2");
    var revision :- NeedNumber(m, "revision", U32_MAX);
    var kind :- Need(m, "kind");
    var row :- ReadKind(m, kind);
    Success(Signed(row, revision))
  }

  function DecodeRow(raw: Text): Result<Signed, Descriptor.Fault>
  {
    var m :- SplitDescriptor(raw);
    ReadFields(m)
  }

  // --------------------------------------------------------------- valid texts

  lemma ProposalIsUtf8(b: Binding, a: Actor, s: Stamp)
    requires BindingOk(b) && ActorOk(a) && StampOk(s)
    ensures AllUtf8(ProposalValues(b, a, s))
  {
    hide IsUtf8, IsToken, Decimal;
    AsciiIsUtf8("2");
    AsciiIsUtf8("propose");
    AsciiIsUtf8("-");
    EnumIsUtf8(b.class_, b.requested, b.feedback, b.status);
    EnumIsUtf8(b.class_, b.effective, b.feedback, b.status);
    TokenIsUtf8(b.endpoint);
    TokenIsUtf8(b.escope);
    TokenIsUtf8(b.equipment);
    TokenIsUtf8(b.property);
    TokenIsUtf8(b.pscope);
    TokenIsUtf8(b.source);
    StampIsUtf8(s);
    ActorIsUtf8(a);
  }

  lemma FeedbackIsUtf8(f: Feedback)
    ensures IsUtf8(FeedbackText(f))
  {
    hide IsUtf8;
    AsciiIsUtf8(FeedbackText(f));
  }

  lemma StatusIsUtf8(s: Status)
    ensures IsUtf8(StatusText(s))
  {
    hide IsUtf8;
    AsciiIsUtf8(StatusText(s));
  }

  lemma EnumIsUtf8(c: Class, r: Role, f: Feedback, s: Status)
    ensures IsUtf8(ClassText(c)) && IsUtf8(RoleText(r)) && IsUtf8(FeedbackText(f)) && IsUtf8(StatusText(s))
  {
    hide IsUtf8, FeedbackText, StatusText;
    AsciiIsUtf8(ClassText(c));
    AsciiIsUtf8(RoleText(r));
    FeedbackIsUtf8(f);
    StatusIsUtf8(s);
  }

  lemma ActorIsUtf8(a: Actor)
    requires ActorOk(a)
    ensures IsUtf8(a.capability) && IsUtf8(a.scope) && IsUtf8(a.issuer) && IsUtf8(Decimal(a.generation))
  {
    hide IsUtf8, IsToken, Decimal;
    TokenIsUtf8(a.capability);
    TokenIsUtf8(a.scope);
    TokenIsUtf8(a.issuer);
    DecimalIsUtf8(a.generation);
  }

  lemma StampIsUtf8(s: Stamp)
    requires StampOk(s)
    ensures IsUtf8(s.operation) && IsUtf8(Decimal(s.revision))
  {
    hide IsUtf8, IsToken, Decimal;
    TokenIsUtf8(s.operation);
    DecimalIsUtf8(s.revision);
  }

  lemma FindingIsUtf8(f: FindingRecord, s: Stamp)
    requires RowOk(Finding(f)) && StampOk(s)
    ensures AllUtf8(FindingValues(f, s))
  {
    hide IsUtf8, IsToken, Decimal;
    AsciiIsUtf8("2");
    AsciiIsUtf8("finding");
    TokenIsUtf8(f.fid);
    TokenIsUtf8(f.equipment);
    TokenIsUtf8(f.property);
    StampIsUtf8(s);
    ActorIsUtf8(f.actor);
  }

  lemma ValuesAreUtf8(row: Row, s: Stamp)
    requires RowOk(row) && StampOk(s)
    ensures |Keys(row)| == |Values(row, s)| && AllUtf8(Values(row, s))
  {
    hide IsUtf8, IsToken, Decimal, ProposalValues, FindingValues;
    StampIsUtf8(s);
    AsciiIsUtf8("2");
    match row
    case Equipment(e) =>
      AsciiIsUtf8("equipment");
      AsciiIsUtf8(KindText(e.kind));
      TokenIsUtf8(e.id);
      TokenIsUtf8(e.scope);
      TokenIsUtf8(e.address);
    case Space(p) =>
      AsciiIsUtf8("space");
      TokenIsUtf8(p.id);
      TokenIsUtf8(p.scope);
    case Source(p) =>
      AsciiIsUtf8("source");
      TokenIsUtf8(p.id);
      TokenIsUtf8(p.scope);
    case Point(p) =>
      AsciiIsUtf8("point");
      AsciiIsUtf8(ClassText(p.class_));
      TokenIsUtf8(p.equipment);
      TokenIsUtf8(p.property);
      TokenIsUtf8(p.scope);
    case Retire(id, address, _) =>
      AsciiIsUtf8("retire");
      TokenIsUtf8(id);
      TokenIsUtf8(address);
    case Proposal(b, a) =>
      ProposalIsUtf8(b, a, s);
      assert |PROPOSAL_KEYS| == |ProposalValues(b, a, s)| by { ValuesLength(b, a, s); }
    case Finding(f) =>
      FindingIsUtf8(f, s);
      FindingLength(f, s);
  }

  lemma ValuesLength(b: Binding, a: Actor, s: Stamp)
    ensures |PROPOSAL_KEYS| == |ProposalValues(b, a, s)|
  {
  }

  lemma FindingLength(f: FindingRecord, s: Stamp)
    ensures |FINDING_KEYS| == |FindingValues(f, s)|
  {
  }

  // ------------------------------------------------------------- reading back

  lemma TokenFinds(m: Fields, key: Text, t: Text)
    requires Holds(m, key, t) && IsToken(t)
    ensures NeedToken(m, key) == Success(t)
  {
  }

  lemma NameFinds(m: Fields, t: Text)
    requires Holds(m, "label", t) && NameOk(t)
    ensures NeedName(m) == Success(t)
  {
    hide IsUtf8;
  }

  /** Version, kind and revision, common to every row. */
  lemma HeaderReads(m: Fields, kind: Text, revision: nat, row: Row)
    requires Holds(m, "v", "2") && Holds(m, "kind", kind) && Holds(m, "revision", Decimal(revision))
    requires revision <= U32_MAX && ReadKind(m, kind) == Success(row)
    ensures ReadFields(m) == Success(Signed(row, revision))
  {
    hide Decimal, NeedNumber, ReadKind;
    NumberFinds(m, "revision", revision, U32_MAX);
  }

  lemma EquipmentReads(m: Fields, row: Row, s: Stamp)
    requires row.Equipment? && RowOk(row) && StampOk(s) && Gives(m, EQUIPMENT_KEYS, Values(row, s))
    ensures ReadFields(m) == Success(Signed(row, s.revision))
  {
    hide Decimal, NeedToken, NeedName, IsToken, NameOk, Gives, ReadFields;
    var e, values := row.equipment, Values(row, s);
    GivenAt(m, EQUIPMENT_KEYS, values, 0);
    GivenAt(m, EQUIPMENT_KEYS, values, 1);
    GivenAt(m, EQUIPMENT_KEYS, values, 2);
    GivenAt(m, EQUIPMENT_KEYS, values, 3);
    GivenAt(m, EQUIPMENT_KEYS, values, 4);
    GivenAt(m, EQUIPMENT_KEYS, values, 5);
    GivenAt(m, EQUIPMENT_KEYS, values, 6);
    GivenAt(m, EQUIPMENT_KEYS, values, 8);
    TokenFinds(m, "id", e.id);
    TokenFinds(m, "scope", e.scope);
    TokenFinds(m, "address", e.address);
    NameFinds(m, e.name);
    HeaderReads(m, "equipment", s.revision, row);
  }

  lemma PlaceReads(m: Fields, row: Row, s: Stamp)
    requires (row.Space? || row.Source?) && RowOk(row) && StampOk(s) && Gives(m, PLACE_KEYS, Values(row, s))
    ensures ReadFields(m) == Success(Signed(row, s.revision))
  {
    hide Decimal, NeedToken, NeedName, IsToken, NameOk, Gives, ReadFields;
    var p, values := if row.Space? then row.space else row.source, Values(row, s);
    GivenAt(m, PLACE_KEYS, values, 0);
    GivenAt(m, PLACE_KEYS, values, 1);
    GivenAt(m, PLACE_KEYS, values, 2);
    GivenAt(m, PLACE_KEYS, values, 3);
    GivenAt(m, PLACE_KEYS, values, 4);
    GivenAt(m, PLACE_KEYS, values, 6);
    TokenFinds(m, "id", p.id);
    TokenFinds(m, "scope", p.scope);
    NameFinds(m, p.name);
    HeaderReads(m, if row.Space? then "space" else "source", s.revision, row);
  }

  lemma PointReads(m: Fields, row: Row, s: Stamp)
    requires row.Point? && RowOk(row) && StampOk(s) && Gives(m, POINT_KEYS, Values(row, s))
    ensures ReadFields(m) == Success(Signed(row, s.revision))
  {
    hide Decimal, NeedToken, IsToken, Gives, ReadFields, IsUtf8;
    var p, values := row.point, Values(row, s);
    GivenAt(m, POINT_KEYS, values, 0);
    GivenAt(m, POINT_KEYS, values, 1);
    GivenAt(m, POINT_KEYS, values, 2);
    GivenAt(m, POINT_KEYS, values, 3);
    GivenAt(m, POINT_KEYS, values, 4);
    GivenAt(m, POINT_KEYS, values, 5);
    GivenAt(m, POINT_KEYS, values, 6);
    GivenAt(m, POINT_KEYS, values, 8);
    TokenFinds(m, "equipment", p.equipment);
    TokenFinds(m, "property", p.property);
    TokenFinds(m, "scope", p.scope);
    HeaderReads(m, "point", s.revision, row);
  }

  lemma RetireReads(m: Fields, row: Row, s: Stamp)
    requires row.Retire? && RowOk(row) && StampOk(s) && Gives(m, RETIRE_KEYS, Values(row, s))
    ensures ReadFields(m) == Success(Signed(row, s.revision))
  {
    hide Decimal, IsToken, Gives, ReadFields, IsUtf8;
    var values := Values(row, s);
    GivenAt(m, RETIRE_KEYS, values, 0);
    GivenAt(m, RETIRE_KEYS, values, 1);
    GivenAt(m, RETIRE_KEYS, values, 2);
    GivenAt(m, RETIRE_KEYS, values, 3);
    GivenAt(m, RETIRE_KEYS, values, 4);
    GivenAt(m, RETIRE_KEYS, values, 6);
    HeaderReads(m, "retire", s.revision, row);
  }

  predicate ActorNamed(m: Fields, a: Actor)
  {
    && Holds(m, "capability", a.capability) && Holds(m, "scope", a.scope) && Holds(m, "capgen", Decimal(a.generation))
    && Holds(m, "issuer", a.issuer)
  }

  /** No field carries key material. */
  predicate NoSecrets(m: Fields) { forall k :: k in m ==> k !in KEY_MATERIAL }

  lemma ActorReads(m: Fields, a: Actor)
    requires ActorOk(a) && ActorNamed(m, a)
    ensures NeedActor(m) == if NoSecrets(m) then Success(a) else Failure(BadField)
  {
    hide Decimal, IsToken, NeedNumber;
    NumberFinds(m, "capgen", a.generation, U32_MAX);
    assert KEY_MATERIAL == {"fp", "key", "key_id"};
    assert NoSecrets(m) <==> "fp" !in m && "key" !in m && "key_id" !in m;
  }

  lemma FindingsNameNoSecrets(m: Fields)
    requires KnownKeys(m, FINDING_KEYS)
    ensures NoSecrets(m)
  {
    assert "fp" !in FINDING_KEYS;
    assert "key" !in FINDING_KEYS;
    assert "key_id" !in FINDING_KEYS;
  }

  lemma FindingActor(m: Fields, f: FindingRecord, s: Stamp)
    requires Gives(m, FINDING_KEYS, FindingValues(f, s))
    ensures ActorNamed(m, f.actor) && NoSecrets(m)
  {
    hide Decimal, Gives, KnownKeys;
    var values := FindingValues(f, s);
    GivenAt(m, FINDING_KEYS, values, 8);
    GivenAt(m, FINDING_KEYS, values, 9);
    GivenAt(m, FINDING_KEYS, values, 10);
    GivenAt(m, FINDING_KEYS, values, 11);
    GivesKnown(m, FINDING_KEYS, values);
    FindingsNameNoSecrets(m);
  }

  lemma GivesKnown(m: Fields, keys: seq<Text>, values: seq<Text>)
    requires Gives(m, keys, values)
    ensures KnownKeys(m, keys)
  {
  }

  lemma FindingBody(m: Fields, f: FindingRecord, s: Stamp)
    requires RowOk(Finding(f)) && StampOk(s) && Gives(m, FINDING_KEYS, FindingValues(f, s))
    ensures ReadFinding(m) == Success(Finding(f))
  {
    hide Decimal, NeedToken, NeedNumber, NeedActor, IsToken, Gives, IsUtf8, ActorOk, ActorNamed, NoSecrets;
    var values := FindingValues(f, s);
    GivenAt(m, FINDING_KEYS, values, 3);
    GivenAt(m, FINDING_KEYS, values, 4);
    GivenAt(m, FINDING_KEYS, values, 5);
    GivenAt(m, FINDING_KEYS, values, 6);
    GivenAt(m, FINDING_KEYS, values, 7);
    GivenAt(m, FINDING_KEYS, values, 12);
    GivenAt(m, FINDING_KEYS, values, 13);
    GivenAt(m, FINDING_KEYS, values, 14);
    FindingActor(m, f, s);
    ActorReads(m, f.actor);
    TokenFinds(m, "fid", f.fid);
    NumberFinds(m, "generation", s.revision, U32_MAX);
    NumberFinds(m, "revision", s.revision, U32_MAX);
  }

  lemma FindingReads(m: Fields, f: FindingRecord, s: Stamp)
    requires RowOk(Finding(f)) && StampOk(s) && Gives(m, FINDING_KEYS, FindingValues(f, s))
    ensures ReadFields(m) == Success(Signed(Finding(f), s.revision))
  {
    hide Decimal, Gives, ReadFields, ReadFinding, RowOk;
    var values := FindingValues(f, s);
    GivenAt(m, FINDING_KEYS, values, 0);
    GivenAt(m, FINDING_KEYS, values, 1);
    GivenAt(m, FINDING_KEYS, values, 5);
    FindingBody(m, f, s);
    HeaderReads(m, "finding", s.revision, Finding(f));
  }

  /** Every field of a proposal is found under its key, the mode aside. */
  predicate GivesButMode(m: Fields, b: Binding, a: Actor, s: Stamp)
  {
    ValuesLength(b, a, s);
    forall i :: 0 <= i < |PROPOSAL_KEYS| && i != MODE ==> Holds(m, PROPOSAL_KEYS[i], ProposalValues(b, a, s)[i])
  }

  lemma GivenBeside(m: Fields, b: Binding, a: Actor, s: Stamp, i: nat)
    requires GivesButMode(m, b, a, s) && i < |PROPOSAL_KEYS| == |ProposalValues(b, a, s)| && i != MODE
    ensures Holds(m, PROPOSAL_KEYS[i], ProposalValues(b, a, s)[i])
  {
  }

  lemma ProposalParts(m: Fields, b: Binding, a: Actor, s: Stamp)
    requires GivesButMode(m, b, a, s)
    ensures PartsHeld(m, b)
  {
    hide Decimal, GivesButMode, Holds, ClassText, RoleText, FeedbackText, StatusText, ModeText;
    GivenBeside(m, b, a, s, 2);
    GivenBeside(m, b, a, s, 3);
    GivenBeside(m, b, a, s, 4);
    GivenBeside(m, b, a, s, 5);
    GivenBeside(m, b, a, s, 6);
    GivenBeside(m, b, a, s, 7);
    GivenBeside(m, b, a, s, 8);
    GivenBeside(m, b, a, s, 9);
    GivenBeside(m, b, a, s, 11);
    GivenBeside(m, b, a, s, 12);
    GivenBeside(m, b, a, s, 13);
    GivenBeside(m, b, a, s, 14);
  }

  lemma ProposalActor(m: Fields, b: Binding, a: Actor, s: Stamp)
    requires GivesButMode(m, b, a, s)
    ensures ActorNamed(m, a) && Holds(m, "v", "2") && Holds(m, "kind", "propose")
    ensures Holds(m, "revision", Decimal(s.revision))
  {
    hide Decimal, GivesButMode, Holds, ClassText, RoleText, FeedbackText, StatusText, ModeText;
    GivenBeside(m, b, a, s, 0);
    GivenBeside(m, b, a, s, 1);
    GivenBeside(m, b, a, s, 16);
    GivenBeside(m, b, a, s, 17);
    GivenBeside(m, b, a, s, 18);
    GivenBeside(m, b, a, s, 19);
    GivenBeside(m, b, a, s, 20);
  }

  /** A proposal whose other fields are in place reads as its mode does, beside no key material. */
  lemma ProposalReads(m: Fields, b: Binding, a: Actor, s: Stamp)
    requires BindingOk(b) && ActorOk(a) && StampOk(s) && GivesButMode(m, b, a, s) && "mode" in m
    ensures ReadFields(m).Success? <==> NoSecrets(m) && ParseMode(m["mode"]).Success?
    ensures ReadFields(m).Success? ==>
              ReadFields(m) == Success(Signed(Proposal(b.(mode := ParseMode(m["mode"]).value), a), s.revision))
  {
    hide Decimal, GivesButMode, PartsHeld, ActorNamed, NoSecrets, NeedActor, DecodeBinding, ActorOk, IsUtf8,
         ParseMode, IsToken, NeedNumber;
    ProposalParts(m, b, a, s);
    ProposalActor(m, b, a, s);
    ActorReads(m, a);
    PartsDecode(m, b);
    NumberFinds(m, "revision", s.revision, U32_MAX);
  }

  // --------------------------------------------------------------------- keys

  lemma EquipmentKeysDiffer()
    ensures Distinct(EQUIPMENT_KEYS)
  {
  }

  lemma EquipmentKeysAreOk()
    ensures KeysOk(EQUIPMENT_KEYS)
  {
    hide Distinct;
    EquipmentKeysDiffer();
  }

  lemma PlaceKeysAreOk()
    ensures KeysOk(PLACE_KEYS)
  {
  }

  lemma PointKeysAreOk()
    ensures KeysOk(POINT_KEYS)
  {
  }

  lemma RetireKeysAreOk()
    ensures KeysOk(RETIRE_KEYS)
  {
  }

  lemma FindingKeysDiffer()
    ensures Distinct(FINDING_KEYS)
  {
  }

  lemma FindingKeysAreClear()
    ensures forall i :: 0 <= i < |FINDING_KEYS| ==> KeyOk(FINDING_KEYS[i])
  {
  }

  lemma FirstProposalKeysDiffer()
    ensures forall i, j :: 0 <= i < j < |PROPOSAL_KEYS| && i < 6 ==> PROPOSAL_KEYS[i] != PROPOSAL_KEYS[j]
  {
  }

  lemma LastProposalKeysDiffer()
    ensures forall i, j :: 6 <= i < j < |PROPOSAL_KEYS| ==> PROPOSAL_KEYS[i] != PROPOSAL_KEYS[j]
  {
  }

  lemma ProposalKeysDiffer()
    ensures Distinct(PROPOSAL_KEYS)
  {
    hide PROPOSAL_KEYS;
    FirstProposalKeysDiffer();
    LastProposalKeysDiffer();
  }

  lemma ProposalKeysAreClear()
    ensures forall i :: 0 <= i < |PROPOSAL_KEYS| ==> KeyOk(PROPOSAL_KEYS[i])
  {
  }

  lemma KeysAreOk(row: Row)
    ensures KeysOk(Keys(row))
  {
    hide KeyOk, Distinct;
    match row
    case Equipment(_) => EquipmentKeysAreOk();
    case Space(_) => PlaceKeysAreOk();
    case Source(_) => PlaceKeysAreOk();
    case Point(_) => PointKeysAreOk();
    case Retire(_, _, _) => RetireKeysAreOk();
    case Proposal(_, _) =>
      ProposalKeysDiffer();
      ProposalKeysAreClear();
    case Finding(_) =>
      FindingKeysDiffer();
      FindingKeysAreClear();
  }

  /** An unescaped mode reads as itself when nothing in it is reserved. */
  lemma SafeModeReads(mode: Option<Text>)
    requires (mode.Some? ==> IsName(mode.value)) && ModeIsSafe(mode)
    ensures Reads(Field("mode", ModeText(mode)), ModeText(mode))
  {
    hide IsUtf8, Unescape;
    UnescapePlain(ModeText(mode));
    AsciiIsUtf8("-");
  }

  lemma EscapedRowGives(row: Row, s: Stamp)
    requires RowOk(row) && StampOk(s) && !row.Proposal?
    ensures SplitDescriptor(EncodeRow(row, s)).Success?
    ensures Gives(SplitDescriptor(EncodeRow(row, s)).value, Keys(row), Values(row, s))
  {
    hide SplitDescriptor, Render, Gives, KeysOk, RowOk, Keys, Values, AllUtf8, EscapedFields;
    ValuesAreUtf8(row, s);
    KeysAreOk(row);
    EscapedGives(Keys(row), Values(row, s));
  }

  lemma ProposalFields(b: Binding, a: Actor, s: Stamp)
    requires BindingOk(b) && ActorOk(a) && StampOk(s)
    ensures |Written(Proposal(b, a), s)| == |PROPOSAL_KEYS| == |ProposalValues(b, a, s)| > MODE
    ensures Written(Proposal(b, a), s)[MODE] == Field("mode", ModeText(b.mode))
    ensures PROPOSAL_KEYS[MODE] == "mode" && ProposalValues(b, a, s)[MODE] == ModeText(b.mode)
    ensures forall i :: 0 <= i < |PROPOSAL_KEYS| && i != MODE ==>
              Written(Proposal(b, a), s)[i].key == PROPOSAL_KEYS[i]
    ensures forall i :: 0 <= i < |PROPOSAL_KEYS| && i != MODE ==>
              Reads(Written(Proposal(b, a), s)[i], ProposalValues(b, a, s)[i])
  {
    hide IsUtf8, Escaped, Reads, BindingOk, ActorOk, Decimal, ModeText, ClassText, RoleText, FeedbackText,
         StatusText, KeyOk;
    var values := ProposalValues(b, a, s);
    ValuesAreUtf8(Proposal(b, a), s);
    ProposalKeysAreClear();
    forall i | 0 <= i < |PROPOSAL_KEYS| && i != MODE
      ensures Reads(Written(Proposal(b, a), s)[i], values[i])
    {
      TokenReads(PROPOSAL_KEYS[i], values[i]);
    }
  }

  lemma ModeKeyStandsAlone()
    ensures PROPOSAL_KEYS[MODE] == "mode"
    ensures forall i :: 0 <= i < |PROPOSAL_KEYS| && i != MODE ==> PROPOSAL_KEYS[i] != "mode"
  {
    hide PROPOSAL_KEYS;
    ProposalKeysDiffer();
    assert PROPOSAL_KEYS[MODE] == "mode" by { ModeKey(); }
  }

  lemma ModeKey()
    ensures |PROPOSAL_KEYS| == 21 && PROPOSAL_KEYS[MODE] == "mode"
  {
  }

  /** The text of a proposal around its mode. */
  lemma ProposalText(b: Binding, a: Actor, s: Stamp)
    requires BindingOk(b) && ActorOk(a) && StampOk(s)
    ensures var written := Written(Proposal(b, a), s);
            && |written| == |PROPOSAL_KEYS| == 21
            && EncodeRow(Proposal(b, a), s)
               == Render(written[..MODE]) + ";" + ("mode=" + ModeText(b.mode) + ";" + Render(written[MODE + 1..]))
  {
    hide Render, Written, BindingOk, ActorOk, PROPOSAL_KEYS, ModeText, ProposalValues;
    var written := Written(Proposal(b, a), s);
    ModeKey();
    ProposalFields(b, a, s);
    RenderJoined(written[..MODE], written[MODE..]);
    assert written[..MODE] + written[MODE..] == written;
    assert written[MODE..][1..] == written[MODE + 1..] && written[MODE..][0] == written[MODE];
    RenderHead(written[MODE..]);
    assert "mode" + "=" + ModeText(b.mode) + (";" + Render(written[MODE + 1..]))
        == "mode=" + ModeText(b.mode) + ";" + Render(written[MODE + 1..]);
  }

  /** A proposal's own keys, without the mode, are those around it. */
  lemma KeysAround(b: Binding, a: Actor, s: Stamp, k: Text)
    requires BindingOk(b) && ActorOk(a) && StampOk(s)
    requires |Written(Proposal(b, a), s)| == 21
    ensures var written := Written(Proposal(b, a), s);
            Names(written[..MODE], k) || Names(written[MODE + 1..], k) <==> k in PROPOSAL_KEYS && k != "mode"
  {
    hide Written, BindingOk, ActorOk, PROPOSAL_KEYS, ModeText, ProposalValues, StampOk;
    var written := Written(Proposal(b, a), s);
    ModeKey();
    ModeKeyStandsAlone();
    ProposalFields(b, a, s);
    if k in PROPOSAL_KEYS && k != "mode" {
      var i :| 0 <= i < |PROPOSAL_KEYS| && PROPOSAL_KEYS[i] == k;
      assert i < MODE ==> written[..MODE][i].key == k;
      assert i > MODE ==> written[MODE + 1..][i - MODE - 1].key == k;
    }
    if Names(written[..MODE], k) {
      var i :| 0 <= i < MODE && written[..MODE][i].key == k;
      assert PROPOSAL_KEYS[i] == k;
    }
    if Names(written[MODE + 1..], k) {
      var i :| 0 <= i < |written[MODE + 1..]| && written[MODE + 1..][i].key == k;
      assert PROPOSAL_KEYS[i + MODE + 1] == k;
    }
  }

  /** However the mode is spelt, the row splits exactly when the mode's own parts leave the other keys alone. */
  lemma ProposalSplits(b: Binding, a: Actor, s: Stamp)
    requires BindingOk(b) && ActorOk(a) && StampOk(s)
    ensures var whole := SplitDescriptor(EncodeRow(Proposal(b, a), s));
            var own := SplitDescriptor("mode=" + ModeText(b.mode));
            && (whole.Success? <==> own.Success? && forall k :: k in own.value && k != "mode" ==> k !in PROPOSAL_KEYS)
            && (whole.Success? ==>
                  && GivesButMode(whole.value, b, a, s)
                  && (forall k :: k in own.value ==> Holds(whole.value, k, own.value[k]))
                  && (forall k :: k in whole.value ==> k in own.value || k in PROPOSAL_KEYS))
  {
    hide SplitDescriptor, Render, Reads, Written, EncodeRow, ProposalValues, BindingOk, ActorOk, StampOk, PROPOSAL_KEYS,
         ModeText, Names, Holds;
    var written, values, text := Written(Proposal(b, a), s), ProposalValues(b, a, s), "mode=" + ModeText(b.mode);
    ModeKey();
    ProposalFields(b, a, s);
    ProposalText(b, a, s);
    ProposalKeysDiffer();
    var before, after := written[..MODE], written[MODE + 1..];
    forall k
      ensures Names(before, k) || Names(after, k) <==> k in PROPOSAL_KEYS && k != "mode"
    {
      KeysAround(b, a, s, k);
    }
    forall i | 0 <= i < |before|
      ensures !Names(after, before[i].key)
    {
      KeysApart(written, i);
    }
    SplitBetween(before, values[..MODE], text, after, values[MODE + 1..]);
    var whole := SplitDescriptor(EncodeRow(Proposal(b, a), s));
    if whole.Success? {
      forall i | 0 <= i < |PROPOSAL_KEYS| && i != MODE
        ensures Holds(whole.value, PROPOSAL_KEYS[i], values[i])
      {
        assert i < MODE ==> before[i].key == PROPOSAL_KEYS[i] && values[..MODE][i] == values[i];
        assert i > MODE ==> after[i - MODE - 1].key == PROPOSAL_KEYS[i];
        assert i > MODE ==> values[MODE + 1..][i - MODE - 1] == values[i];
      }
    }
  }

  lemma KeysApart(written: seq<Field>, i: nat)
    requires |written| == |PROPOSAL_KEYS| == 21 && i < MODE
    requires forall j :: 0 <= j < 21 && j != MODE ==> written[j].key == PROPOSAL_KEYS[j]
    ensures !Names(written[MODE + 1..], written[..MODE][i].key)
  {
    hide PROPOSAL_KEYS;
    ProposalKeysDiffer();
  }

  /**
   A proposal row reads exactly when its mode's label is one that can be read,
   and then it is the proposal, with the mode that the label was stored as.
   */
  lemma ProposalReadsExactly(b: Binding, a: Actor, s: Stamp)
    requires BindingOk(b) && ActorOk(a) && StampOk(s)
    ensures DecodeRow(EncodeRow(Proposal(b, a), s)).Success? <==> ModeIsRead(b.mode)
    ensures ModeIsRead(b.mode) ==>
              DecodeRow(EncodeRow(Proposal(b, a), s))
              == Success(Signed(Proposal(b.(mode := StoredMode(b.mode)), a), s.revision))
  {
    hide SplitDescriptor, EncodeRow, BindingOk, ActorOk, StampOk, PROPOSAL_KEYS, ModeText, ReadFields, GivesButMode,
         ParseMode, KEY_MATERIAL;
    ProposalSplits(b, a, s);
    var whole, own := SplitDescriptor(EncodeRow(Proposal(b, a), s)), SplitDescriptor("mode=" + ModeText(b.mode));
    if whole.Success? {
      ModeIsAField(b.mode);
      assert Holds(whole.value, "mode", own.value["mode"]);
      ProposalReads(whole.value, b, a, s);
      ProposalKeysAreNoSecrets();
      if NoSecrets(whole.value) {
        assert forall k :: k in own.value ==> Holds(whole.value, k, own.value[k]);
      }
    }
  }

  lemma ProposalKeysAreNoSecrets()
    ensures forall k :: k in PROPOSAL_KEYS ==> k !in KEY_MATERIAL
    ensures "mode" !in KEY_MATERIAL
  {
    assert "fp" !in PROPOSAL_KEYS;
    assert "key" !in PROPOSAL_KEYS;
    assert "key_id" !in PROPOSAL_KEYS;
  }

  lemma ModeIsAField(mode: Option<Text>)
    requires SplitDescriptor("mode=" + ModeText(mode)).Success?
    ensures PctDecode(Piece(ModeText(mode))).Success?
    ensures Holds(SplitDescriptor("mode=" + ModeText(mode)).value, "mode", PctDecode(Piece(ModeText(mode))).value)
  {
    hide SplitFrom, PctDecode, Piece, ModeText;
    assert Chain([], "mode" + "=" + ModeText(mode) + []) == "mode=" + ModeText(mode);
    SplitFindsPiece([], Field("mode", ModeText(mode)), [], map[]);
  }

  /** Exactly the safe labels are stored as themselves. */
  lemma SafeModesAreKept(mode: Option<Text>)
    requires mode.Some? ==> IsName(mode.value)
    ensures ModeIsSafe(mode) <==> ModeIsRead(mode) && StoredMode(mode) == mode
  {
    hide SplitDescriptor, PctDecode, Piece, PROPOSAL_KEYS, KEY_MATERIAL, IsUtf8, ParseMode;
    var text := "mode=" + ModeText(mode);
    if ModeIsSafe(mode) {
      SafeModeReads(mode);
      var field := Field("mode", ModeText(mode));
      assert Render([field]) == text;
      DescriptorReadsBack([field], [ModeText(mode)]);
      var m := SplitDescriptor(text).value;
      assert Holds(m, [field][0].key, [ModeText(mode)][0]);
      ModeParses(mode);
    } else if ModeIsRead(mode) && StoredMode(mode) == mode {
      ModeIsAField(mode);
      var v := PctDecode(Piece(ModeText(mode))).value;
      ParsedMode(v, mode);
      PieceIsWhole(v);
    }
  }

  lemma BindingMode(b: Binding)
    requires BindingOk(b)
    ensures b.mode.Some? ==> IsName(b.mode.value)
  {
  }

  /** Every readable row reads back as itself, with the revision it was written against. */
  lemma RowReadsBack(row: Row, s: Stamp)
    requires RowOk(row) && StampOk(s) && Readable(row)
    ensures DecodeRow(EncodeRow(row, s)) == Success(Signed(row, s.revision))
  {
    hide SplitDescriptor, ReadFields, Render, Written, Gives, ModeIsSafe, ModeIsRead, StoredMode, Values, BindingOk,
         ActorOk, EQUIPMENT_KEYS, PLACE_KEYS, POINT_KEYS, RETIRE_KEYS, PROPOSAL_KEYS, FINDING_KEYS;
    if row.Proposal? {
      BindingMode(row.binding);
      SafeModesAreKept(row.binding.mode);
      ProposalReadsExactly(row.binding, row.actor, s);
      assert row.binding.(mode := row.binding.mode) == row.binding;
    } else {
      EscapedRowGives(row, s);
      EscapedRowReads(SplitDescriptor(EncodeRow(row, s)).value, row, s);
    }
  }

  lemma EscapedRowReads(m: Fields, row: Row, s: Stamp)
    requires RowOk(row) && StampOk(s) && !row.Proposal? && Gives(m, Keys(row), Values(row, s))
    ensures ReadFields(m) == Success(Signed(row, s.revision))
  {
    hide ReadFields, Gives, Values, EQUIPMENT_KEYS, PLACE_KEYS, POINT_KEYS, RETIRE_KEYS, FINDING_KEYS;
    match row
    case Equipment(_) => EquipmentReads(m, row, s);
    case Space(_) => PlaceReads(m, row, s);
    case Source(_) => PlaceReads(m, row, s);
    case Point(_) => PointReads(m, row, s);
    case Retire(_, _, _) => RetireReads(m, row, s);
    case Finding(f) =>
      FindingValuesOf(row, s);
      FindingReads(m, f, s);
  }

  lemma FindingValuesOf(row: Row, s: Stamp)
    requires row.Finding?
    ensures Values(row, s) == FindingValues(row.finding, s)
  {
  }

  // -------------------------------------------------- the mode left unescaped

  lemma RenderHead(fields: seq<Field>)
    requires |fields| > 1
    ensures Render(fields) == fields[0].key + "=" + fields[0].text + (";" + Render(fields[1..]))
  {
    var head := fields[0].key + "=" + fields[0].text;
    assert head + ";" + Render(fields[1..]) == head + (";" + Render(fields[1..]));
  }

  /**
   A proposal row reads back with the mode it was written with exactly when the
   label needs no escape and is not the dash that stands for no mode; and then
   it reads back whole.
   */
  lemma ProposalReadsBackExactly(b: Binding, a: Actor, s: Stamp)
    requires BindingOk(b) && ActorOk(a) && StampOk(s)
    ensures ModeIsSafe(b.mode) <==>
              var read := DecodeRow(EncodeRow(Proposal(b, a), s));
              read.Success? && read.value.row.Proposal? && read.value.row.binding.mode == b.mode
    ensures ModeIsSafe(b.mode) ==>
              DecodeRow(EncodeRow(Proposal(b, a), s)) == Success(Signed(Proposal(b, a), s.revision))
  {
    hide DecodeRow, EncodeRow, BindingOk, ActorOk, StampOk, ModeIsSafe, ModeIsRead, StoredMode;
    BindingMode(b);
    SafeModesAreKept(b.mode);
    ProposalReadsExactly(b, a, s);
    assert b.(mode := b.mode) == b;
  }

  lemma ParsedMode(t: Text, mode: Option<Text>)
    requires ParseMode(t) == Success(mode) && mode.Some?
    ensures t == mode.value && t != "-"
  {
  }
}
