/**
 The binding registry as a fold of its durable rows, and the plans that decide,
 from that state, which row an operation may add.
 */
module Registry {
  import opened Wrappers
  import opened Framing
  import opened Tokens
  import opened DescriptorFields
  import opened Actors
  import opened Bindings
  import opened BindingRecords
  import opened Snapshot
  import Descriptor

  datatype Kind = EquipmentKind | SpaceKind | SourceKind | PointKind | ProposalKind | RetireKind | FindingKind

  /** The columns of a binding row that replay reads and the guard compares. */
  datatype Columns = Columns(operation: Kind, entity: Text, sequence: nat, descriptor: Text)

  type Raw = Stored<Columns>

  /** A finding as it is cited: identity, generation, digest and the actor's reference. */
  datatype Cited = Cited(fid: Text, generation: nat, digest: Text, summary: Text, reference: Text)

  datatype Registry = Registry(
    equipment: map<Text, EquipmentRecord>, spaces: map<Text, PlaceRecord>, sources: map<Text, PlaceRecord>,
    points: map<Text, PointRecord>, bindings: seq<Binding>, findings: seq<Cited>, retired: set<Text>,
    retiredAddresses: set<Text>, reassessment: set<Text>, revision: nat, sequence: nat)

  const EMPTY := Registry(map[], map[], map[], map[], [], [], {}, {}, {}, 0, 0)

  function KindOf(row: Row): Kind
  {
    match row
    case Equipment(_) => EquipmentKind
    case Space(_) => SpaceKind
    case Source(_) => SourceKind
    case Point(_) => PointKind
    case Retire(_, _, _) => RetireKind
    case Proposal(_, _) => ProposalKind
    case Finding(_) => FindingKind
  }

  function EntityOf(row: Row): Text
  {
    match row
    case Equipment(e) => e.id
    case Space(p) => p.id
    case Source(p) => p.id
    case Point(p) => p.equipment
    case Retire(id, _, _) => id
    case Proposal(b, _) => b.equipment
    case Finding(f) => f.equipment
  }

  // -------------------------------------------------------------------- replay

  function Bump(revision: nat): nat { if revision < U32_MAX then revision + 1 else U32_MAX }

  function PointKey(equipment: Text, property: Text): Text { equipment + ":" + property }

  /** The effect of one believed row. */
  function Apply(s: Registry, row: Row, revision: nat): Registry
  {
    match row
    case Equipment(e) =>
      s.(equipment := s.equipment[e.id := e], revision := Bump(s.revision),
         reassessment := if e.address in s.retiredAddresses then s.reassessment + {e.id} else s.reassessment)
    case Space(p) => s.(spaces := s.spaces[p.id := p], revision := Bump(s.revision))
    case Source(p) => s.(sources := s.sources[p.id := p], revision := Bump(s.revision))
    case Point(p) => s.(points := s.points[PointKey(p.equipment, p.property) := p], revision := Bump(s.revision))
    case Retire(id, address, _) =>
      s.(retired := s.retired + {id}, retiredAddresses := s.retiredAddresses + {address},
         revision := Bump(s.revision))
    case Proposal(b, _) => s.(bindings := s.bindings + [b], revision := Bump(s.revision))
    case Finding(f) => s.(findings := s.findings + [CitedOf(f, revision)])
  }

  function CitedOf(f: FindingRecord, revision: nat): Cited
  {
    Cited(f.fid, revision, f.digest, f.summary, ReferenceOf(f.actor))
  }

  function ReferenceOf(a: Actor): Text { if ActorOk(a) then ActorReference(a) else [] }

  /** Whether replay believes the next row, and what it then says. */
  function Believed(s: Registry, count: nat, raw: Raw): Option<Signed>
  {
    if raw.columns.sequence != count + 1 then None
    else
      match DecodeRow(raw.columns.descriptor)
      case Failure(_) => None
      case Success(signed) =>
        if signed.revision != s.revision || KindOf(signed.row) != raw.columns.operation then None else Some(signed)
  }

  /** A replay stops at the first row it does not believe, leaving what it has read. */
  datatype Replayed = Replayed(state: Registry, complete: bool)

  function ReplayFrom(s: Registry, count: nat, rows: seq<Raw>): Replayed
    decreases |rows|
  {
    hide Believed, Apply;
    if rows == [] then Replayed(s.(sequence := count), true)
    else
      match Believed(s, count, rows[0])
      case None => Replayed(s, false)
      case Some(signed) => ReplayFrom(Apply(s, signed.row, signed.revision), count + 1, rows[1..])
  }

  function ReplayOf(rows: seq<Raw>): Replayed { ReplayFrom(EMPTY, 0, rows) }

  // --------------------------------------------------------------------- plans

  datatype BindingError =
    | InvalidRecord
    | InvalidInput
    | DuplicateIdentity
    | Conflict
    | NeedsReassessment
    | Denied(refusal: Refusal)

  predicate IdentityTaken(s: Registry, id: Text) { id in s.equipment || id in s.spaces || id in s.sources }

  function PlanEquipment(s: Registry, e: EquipmentRecord): Result<Row, BindingError>
  {
    if IdentityTaken(s, e.id) then Failure(DuplicateIdentity)
    else if !RowOk(Equipment(e)) then Failure(InvalidInput)
    else Success(Equipment(e))
  }

  function PlanSpace(s: Registry, p: PlaceRecord): Result<Row, BindingError>
  {
    if IdentityTaken(s, p.id) then Failure(DuplicateIdentity)
    else if !RowOk(Space(p)) then Failure(InvalidInput)
    else Success(Space(p))
  }

  function PlanSource(s: Registry, p: PlaceRecord): Result<Row, BindingError>
  {
    if IdentityTaken(s, p.id) then Failure(DuplicateIdentity)
    else if !RowOk(Source(p)) then Failure(InvalidInput)
    else Success(Source(p))
  }

  function PlanPoint(s: Registry, p: PointRecord): Result<Row, BindingError>
  {
    if PointKey(p.equipment, p.property) in s.points then Failure(DuplicateIdentity)
    else if !RowOk(Point(p)) then Failure(InvalidInput)
    else Success(Point(p))
  }

  function PlanRetire(s: Registry, id: Text, reason: Text): Result<Row, BindingError>
  {
    if id !in s.equipment then Failure(InvalidRecord)
    else if reason == [] then Failure(InvalidInput)
    else if id in s.retired then Failure(InvalidRecord)
    else Success(Retire(s.equipment[id].id, s.equipment[id].address, reason))
  }

  /** `resolve`: a binding against the present truth of the registry. */
  function Resolve(s: Registry, b: Binding): Result<(), BindingError>
  {
    if b.equipment in s.retired then Failure(Conflict)
    else if b.equipment in s.reassessment then Failure(NeedsReassessment)
    else if PointKey(b.equipment, b.property) !in s.points then Failure(InvalidRecord)
    else
      var point := s.points[PointKey(b.equipment, b.property)];
      if b.pscope != point.scope then Failure(Conflict)
      else if b.status == ObservedQualified then Failure(Conflict)
      else
        match Propose(b, point.unit, point.class_)
        case Failure(refusal) => Failure(Denied(refusal))
        case Success(_) => Success(())
  }

  function PlanProposal(s: Registry, b: Binding, revision: nat, actor: Actor): Result<Row, BindingError>
  {
    if s.revision != revision then Failure(Conflict)
    else
      var _ :- Resolve(s, b);
      Success(Proposal(b, actor))
  }

  /** The versioned text of a binding that findings and seals are derived from. */
  function Canonical(b: Binding): Text { "binding-canonical-v2" + Suffixed(Parts(b)) }

  /** Each part behind a unit separator. */
  function Suffixed(parts: seq<Text>): Text
  {
    if parts == [] then [] else [0x1F as char] + parts[0] + Suffixed(parts[1..])
  }

  function Summary(b: Binding, revision: nat, reference: Text): Text
  {
    "binding " + PointKey(b.equipment, b.property) + " " + StatusText(b.status) + " [" + b.unit + "] rev "
    + Decimal(revision) + " actor " + reference
  }

  /** A finding's record; `digest` is the fingerprint of its canonical text. */
  function FindingFor(b: Binding, revision: nat, actor: Actor, digest: Text): FindingRecord
    requires ActorOk(actor)
  {
    FindingRecord("finding-" + digest, digest, Summary(b, revision, ActorReference(actor)), actor, b.equipment,
                  b.property, Canonical(b))
  }

  function PlanFinding(s: Registry, b: Binding, revision: nat, actor: Actor, digest: Text): Result<Row, BindingError>
    requires ActorOk(actor)
  {
    if s.revision != revision then Failure(Conflict)
    else
      var _ :- Resolve(s, b);
      if b !in s.bindings then Failure(Conflict) else Success(Finding(FindingFor(b, revision, actor, digest)))
  }

  /** `prepare_row`: the bounds every write is held to. */
  predicate HasRoom(s: Registry, row: Row)
  {
    s.sequence < 0xFFFF_FFFF_FFFF_FFFF && (!row.Finding? ==> s.revision < U32_MAX)
  }
}
