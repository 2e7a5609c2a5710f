/**
 The action tables and the admission batch: one insert, one generation step, one
 lifecycle row, decided inside one transaction.
 */
module ActionDb {
  import opened Wrappers
  import opened Framing
  import opened Tokens
  import opened GuardedStore

  const U32_MAX: nat := 0xFFFF_FFFF
  const I64_MIN: int := -0x8000_0000_0000_0000
  const I64_MAX: int := 0x7FFF_FFFF_FFFF_FFFF
  const RATE_MAX: nat := 6
  const RATE_WINDOW: int := 3600
  const DEADLINE: nat := 5
  const PUBLISH_CEILING: nat := 2

  /** A binary32 value as its 32 bits. */
  type Bits = n: nat | n <= U32_MAX

  datatype Kind = Set | Release

  datatype Life = Admitted | Dispatched | Terminal | Unresolved

  datatype Role = Reviewer | Publisher

  /** The exact 32 wire bits, the kind, and what a release may reveal. */
  datatype Identity = Identity(bits: Bits, kind: Kind, releaseAdmitted: bool, releaseTarget: Text)

  datatype Target = Target(scope: Text, equipment: Text)

  /** A journal row; rows are never edited. */
  datatype Row = Row(
    operation: Text, target: Target, binding: nat, accepted: nat, expected: nat, generation: nat, payload: Text,
    deadline: nat, ceiling: nat, actor: Text, created: int, identity: Identity)

  datatype Lifecycle = Lifecycle(state: Life, predecessor: Option<Text>)

  /** What a caller asks to be done: read-only and already validated. */
  datatype Preview = Preview(
    target: Target, binding: nat, accepted: nat, payload: Text, bits: Bits, releaseAdmitted: bool,
    releaseTarget: Text, sealed: bool, frozen: bool)

  datatype WriterError =
    | Ceiling
    | Invalid
    | ScopeDenied
    | StaleGeneration(expected: nat, current: nat)
    | RateExceeded(used: nat)
    | Conflict
    | NotFound
    | Unknown

  /** The retained ticket of one admission. */
  datatype Request = Request(
    operation: Text, target: Target, binding: nat, accepted: nat, expected: nat, payload: Text, ceiling: nat,
    actor: Text, identity: Identity, predecessor: Option<Text>)

  datatype Db = Db(
    rows: seq<Row>, generations: map<Target, nat>, life: map<Text, Lifecycle>, receipts: map<Text, Request>)

  const EMPTY := Db([], map[], map[], map[])

  function KindOf(p: Preview): Kind { if p.releaseAdmitted then Release else Set }

  function IdentityOf(p: Preview): Identity { Identity(p.bits, KindOf(p), p.releaseAdmitted, p.releaseTarget) }

  /** `prepare_with_predecessor`, refusals in order. */
  function Prepare(operation: Text, scope: Text, ceiling: nat, role: Role, actor: Text, p: Preview, expected: nat,
                   predecessor: Option<Text>, maxPayload: nat): Result<Request, WriterError>
  {
    if role.Reviewer? || ceiling < PUBLISH_CEILING then Failure(Ceiling)
    else if !IsToken(actor) || actor in {"VERDANT_BEGIN", "VERDANT_DATA", "VERDANT_END"} then Failure(Invalid)
    else if !p.frozen then Failure(Invalid)
    else if p.target.scope != scope then Failure(ScopeDenied)
    else if expected >= U32_MAX then Failure(Invalid)
    else if p.payload == [] || |p.payload| > maxPayload then Failure(Invalid)
    else
      Success(Request(operation, p.target, p.binding, p.accepted, expected, p.payload, ceiling, actor,
                      IdentityOf(p), predecessor))
  }

  // ----------------------------------------------------------------- admission

  /** The durable generation of a target; none recorded reads as zero. */
  function Current(db: Db, t: Target): nat { if t in db.generations then db.generations[t] else 0 }

  predicate CountsFor(r: Row, t: Target, since: int)
  {
    r.target == t && r.identity.kind.Set? && r.created >= since
  }

  /** SET rows of a target stamped at or after `since`. */
  function UsedSince(rows: seq<Row>, t: Target, since: int): nat
  {
    if rows == [] then 0
    else UsedSince(rows[..|rows| - 1], t, since) + if CountsFor(rows[|rows| - 1], t, since) then 1 else 0
  }

  predicate HasOperation(rows: seq<Row>, operation: Text)
  {
    exists i :: 0 <= i < |rows| && rows[i].operation == operation
  }

  /** Why the batch stops, checked in the order of its statements. */
  datatype BatchFailure = GenerationGuard | RateGuard | DuplicateOperation

  function BatchRefusal(db: Db, q: Request, guardNow: int): Option<BatchFailure>
  {
    if Current(db, q.target) != q.expected then Some(GenerationGuard)
    else if q.identity.kind.Set? && UsedSince(db.rows, q.target, guardNow - RATE_WINDOW) >= RATE_MAX
    then Some(RateGuard)
    else if HasOperation(db.rows, q.operation) then Some(DuplicateOperation)
    else None
  }

  function RowOf(q: Request, created: int): Row
  {
    Row(q.operation, q.target, q.binding, q.accepted, q.expected, q.expected + 1, q.payload, DEADLINE, q.ceiling,
        q.actor, created, q.identity)
  }

  /** The whole body: row, generation, lifecycle with its predecessor link, receipt. */
  function Insert(db: Db, q: Request, created: int): Db
  {
    Db(db.rows + [RowOf(q, created)], db.generations[q.target := q.expected + 1],
       db.life[q.operation := Lifecycle(Admitted, q.predecessor)], db.receipts[q.operation := q])
  }

  /** `submit` of an admission ticket; `guardNow` and `insertNow` are the clock readings of its two statements. */
  function Admission(db: Db, q: Request, guardNow: int): Verdict
  {
    Judge(db.receipts, q.operation, q, BatchRefusal(db, q, guardNow).None?)
  }

  function Admit(db: Db, q: Request, guardNow: int, insertNow: int): Db
  {
    if Admission(db, q, guardNow).Applied? then Insert(db, q, insertNow) else db
  }

  // ----------------------------------------------------------------- lifecycle

  function RowFor(rows: seq<Row>, operation: Text, scope: Text): Option<Row>
  {
    if rows == [] then None
    else if rows[0].operation == operation && rows[0].target.scope == scope then Some(rows[0])
    else RowFor(rows[1..], operation, scope)
  }

  /** A missing lifecycle row reads as admitted. */
  function State(db: Db, operation: Text): Life
  {
    if operation in db.life then db.life[operation].state else Admitted
  }

  function Predecessor(db: Db, operation: Text): Option<Text>
  {
    if operation in db.life then db.life[operation].predecessor else None
  }

  /** Upsert that keeps the predecessor link. */
  function Upsert(db: Db, operation: Text, state: Life): Db
  {
    db.(life := db.life[operation := Lifecycle(state, Predecessor(db, operation))])
  }

  /** `transition`: terminal is final, the same state writes nothing. */
  function Transition(db: Db, operation: Text, scope: Text, state: Life): Result<Db, WriterError>
  {
    if RowFor(db.rows, operation, scope).None? then Failure(NotFound)
    else if State(db, operation).Terminal? && !state.Terminal? then Failure(Conflict)
    else if State(db, operation) == state then Success(db)
    else Success(Upsert(db, operation, state))
  }
}
