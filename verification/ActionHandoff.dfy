/** The joined authorisation of one handoff: its gates in order, and the bytes it permits. */
module ActionHandoff {
  import opened Wrappers
  import opened Framing
  import opened ActionDb

  // ------------------------------------------------------------------- clocks

  datatype Expiry = Active | Expired | Indeterminate

  datatype Freshness = Fresh | Stale | UnknownTime

  /** `checked_sub` of 64-bit readings. */
  function CheckedSub(a: int, b: int): Option<int>
  {
    if I64_MIN <= a - b <= I64_MAX then Some(a - b) else None
  }

  function AssessWall(created: int, now: int, deadline: nat): Expiry
  {
    match CheckedSub(now, created)
    case None => Indeterminate
    case Some(elapsed) =>
      if elapsed < 0 then Indeterminate else if elapsed >= deadline then Expired else Active
  }

  function DecideSet(expiry: Expiry, freshness: Freshness): bool { expiry.Active? && freshness.Fresh? }

  /** Inside the wall means no earlier than the admission and less than the deadline after it. */
  lemma WallIsAWindow(created: int, now: int, deadline: nat)
    requires I64_MIN <= created <= I64_MAX && I64_MIN <= now <= I64_MAX && deadline <= I64_MAX
    ensures AssessWall(created, now, deadline).Active? <==> created <= now < created + deadline
  {
  }

  // -------------------------------------------------------------------- writes

  /** `0x44` and the four bytes of the bits, most significant first. */
  function RealBytes(bits: Bits): seq<nat>
  {
    [0x44, bits / 0x100_0000, bits / 0x1_0000 % 0x100, bits / 0x100 % 0x100, bits % 0x100]
  }

  const NULL_BYTES: seq<nat> := [0x00]

  /** The only encodable write: analog value 2, present value, priority 8. */
  datatype FrozenWrite = FrozenWrite(value: seq<nat>, bits: Option<Bits>, release: bool)

  // --------------------------------------------------------------------- gates

  /** The caller's current readings. */
  datatype Reading = Reading(actor: Text, ceiling: nat, role: Role, binding: nat, accepted: nat, qualified: bool,
                             generation: nat)

  /** Everything a handoff brings beside the durable row. */
  datatype Handoff = Handoff(
    operation: Text, scope: Text, preview: Preview, current: Reading, route: Text, cancelled: bool,
    pastDeadline: bool, expiry: Expiry, freshness: Freshness, held: set<Text>, excluded: Option<Text>,
    revoked: bool, preserved: bool, active: bool, wallNow: int, prepareNow: int)

  datatype Refusal =
    | SealOrder
    | Missing
    | UnknownOutcome
    | Terminated
    | PreviewDiffers
    | Publication
    | Held
    | BlockedCleanup
    | Revoked
    | Excluded
    | Impact
    | Wall
    | Content
    | Generation(expected: nat, current: nat)
    | NotSet
    | NullNotAdmitted
    | Cancelled

  /** `refuse_resend_without_qualified_recovery`. */
  function Brake(state: Life): Option<Refusal>
  {
    match state
    case Admitted => None
    case Dispatched => Some(UnknownOutcome)
    case Unresolved => Some(UnknownOutcome)
    case Terminal => Some(Terminated)
  }

  predicate PreviewMatches(row: Row, p: Preview)
  {
    row.payload == p.payload && row.identity.bits == p.bits && row.identity.kind == KindOf(p)
  }

  predicate NotExcluded(h: Handoff, actor: Text) { h.excluded != Some(actor) }

  /** Custody and publication gates shared by both kinds, after the hold gate. */
  function SharedGates(row: Row, h: Handoff): Option<Refusal>
  {
    if h.revoked then Some(Revoked)
    else if !NotExcluded(h, row.actor) || !NotExcluded(h, h.current.actor) then Some(Excluded)
    else if !h.preserved then Some(Impact)
    else None
  }

  /** `verify_content`. */
  predicate ContentMatches(row: Row, h: Handoff)
  {
    var p, c := h.preview, h.current;
    && c.role.Publisher? && c.ceiling >= PUBLISH_CEILING && row.ceiling >= PUBLISH_CEILING && c.actor == row.actor
    && row.target == p.target && h.route == row.target.equipment
    && row.binding == p.binding && row.accepted == p.accepted && c.binding == row.binding && c.accepted == row.accepted
    && !c.qualified && PreviewMatches(row, p)
    && row.identity.releaseAdmitted == p.releaseAdmitted && row.identity.releaseTarget == p.releaseTarget
    && row.deadline == DEADLINE
  }

  /** `verify_generation`: no admission came between, and the row is in order. */
  function GenerationGate(row: Row, c: Reading): Option<Refusal>
  {
    if c.generation != row.expected then Some(Generation(row.expected, c.generation))
    else if row.expected + 1 != row.generation then Some(Content)
    else None
  }

  /** `prepare_setpoint`. */
  function PrepareSet(row: Row, h: Handoff): Result<FrozenWrite, Refusal>
  {
    if !h.preview.frozen || !ContentMatches(row, h) then Failure(Content)
    else if GenerationGate(row, h.current).Some? then Failure(GenerationGate(row, h.current).value)
    else if !AssessWall(row.created, h.prepareNow, row.deadline).Active? then Failure(Wall)
    else if !row.identity.kind.Set? || !KindOf(h.preview).Set? then Failure(NotSet)
    else if h.pastDeadline || h.cancelled then Failure(Cancelled)
    else Success(FrozenWrite(RealBytes(row.identity.bits), Some(row.identity.bits), false))
  }

  /** `prepare_release`: only an admitted release may send NULL. */
  function PrepareRelease(row: Row, h: Handoff): Result<FrozenWrite, Refusal>
  {
    if !h.preview.frozen || !ContentMatches(row, h) then Failure(Content)
    else if GenerationGate(row, h.current).Some? then Failure(GenerationGate(row, h.current).value)
    else if h.pastDeadline || h.cancelled then Failure(Cancelled)
    else if !h.preview.releaseAdmitted then Failure(NullNotAdmitted)
    else Success(FrozenWrite(NULL_BYTES, None, true))
  }

  function SetGates(row: Row, h: Handoff): Result<FrozenWrite, Refusal>
  {
    if row.target.scope in h.held then Failure(Held)
    else if SharedGates(row, h).Some? then Failure(SharedGates(row, h).value)
    else if !AssessWall(row.created, h.wallNow, row.deadline).Active? || !DecideSet(h.expiry, h.freshness)
    then Failure(Wall)
    else PrepareSet(row, h)
  }

  /** A held scope still lets the admitted release of the original target through. */
  predicate OriginalRelease(row: Row, p: Preview)
  {
    && row.identity.kind.Release? && row.identity.releaseAdmitted && p.releaseAdmitted
    && row.identity.releaseTarget == p.releaseTarget && row.target.equipment == p.target.equipment
  }

  function ReleaseGates(row: Row, h: Handoff): Result<FrozenWrite, Refusal>
  {
    if row.target.scope in h.held && !OriginalRelease(row, h.preview) then Failure(BlockedCleanup)
    else if SharedGates(row, h).Some? then Failure(SharedGates(row, h).value)
    else PrepareRelease(row, h)
  }

  /**
   `authorize_joined_setpoint` and `authorize_joined_release` up to the mark:
   seal, fresh re-read, brake, preview, activation, the kind's gates, durable
   currency.
   */
  function Authorize(db: Db, h: Handoff, kind: Kind): Result<FrozenWrite, Refusal>
  {
    hide SetGates, ReleaseGates;
    if !h.preview.sealed then Failure(SealOrder)
    else
      match RowFor(db.rows, h.operation, h.scope)
      case None => Failure(Missing)
      case Some(row) =>
        if Brake(State(db, row.operation)).Some? then Failure(Brake(State(db, row.operation)).value)
        else if !PreviewMatches(row, h.preview) then Failure(PreviewDiffers)
        else if !h.active then Failure(Publication)
        else
          var write :- if kind.Set? then SetGates(row, h) else ReleaseGates(row, h);
          if row.generation != Current(db, row.target)
          then Failure(Generation(row.generation, Current(db, row.target)))
          else Success(write)
  }
}
