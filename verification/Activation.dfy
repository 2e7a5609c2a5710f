/**
 Staging, accepting and activating as runs of guarded submissions. A step names
 the earlier moments at which its preparation read the log, so the preparations
 of any number of contenders interleave freely with the commits of the others.
 */
module Activation {
  import opened Wrappers
  import opened Framing
  import opened Tokens
  import opened AcceptRecords
  import opened Acceptance
  import opened GuardedStore
  import opened Actors

  // ------------------------------------------------------------------ tickets

  /** A prepared write: what it will insert, and the exact condition of its guard. */
  datatype Ticket =
    | StageTicket(staged: Staged)
    | AcceptTicket(request: AcceptanceRequest, actor: Text, sealed: Staged, foreign: Text)
    | ActivateTicket(activation: ActivationRequest, sealed: Staged, accepted: Accepted, foreign: Text)
    | OtherTicket(text: Text)

  datatype Store = Store(log: Log, receipts: map<Text, Ticket>)

  function Value(e: Event): Text
  {
    match e
    case AcceptEvent(request, actor) => AcceptedBytes(request, actor)
    case ActiveEvent(activation) => ActiveBytes(activation)
    case StageEvent(staged) => staged.content
    case OtherEvent(text) => text
  }

  /** `EXISTS(SELECT 1 FROM outbox WHERE id=… AND value_json=…)`. */
  predicate HasRow(log: Log, id: nat, value: Text) { 0 < id <= |log| && Value(log[id - 1]) == value }

  /**
   The guard a ticket evaluates inside its transaction. `foreignHolds` is the
   value, at that moment, of the conjuncts owned by other components: the
   authority, the binding rows, the actor's expiry and the seal rows.
   */
  ghost predicate Guard(log: Log, ticket: Ticket, foreignHolds: bool)
  {
    match ticket
    case StageTicket(staged) => StagedUnder(log, staged.operation) == []
    case AcceptTicket(request, _, sealed, _) =>
      && foreignHolds && StagedUnder(log, sealed.operation) == [sealed]
      && |Accepts(log, request.scope)| == request.expected
    case ActivateTicket(activation, sealed, accepted, _) =>
      && |Actives(log, activation.acceptance.scope)| == activation.expected
      && |Accepts(log, activation.acceptance.scope)| == accepted.revision
      && HasRow(log, accepted.id, AcceptedBytes(accepted.request, accepted.actor))
      && foreignHolds && StagedUnder(log, sealed.operation) == [sealed]
    case OtherTicket(_) => foreignHolds
  }

  function Body(ticket: Ticket): Event
  {
    match ticket
    case StageTicket(staged) => StageEvent(staged)
    case AcceptTicket(request, actor, _, _) => AcceptEvent(request, actor)
    case ActivateTicket(activation, _, _, _) => ActiveEvent(activation)
    case OtherTicket(text) => OtherEvent(text)
  }

  ghost function Submit(s: Store, operation: Text, ticket: Ticket, foreignHolds: bool): Store
  {
    if Judge(s.receipts, operation, ticket, Guard(s.log, ticket, foreignHolds)).Applied?
    then Store(s.log + [Body(ticket)], s.receipts[operation := ticket])
    else s
  }

  // -------------------------------------------------------------- preparation

  /** `read_staged`: exactly one row under the staging operation. */
  ghost function ReadStaged(log: Log, operation: Text): Result<Staged, Error>
  {
    if |StagedUnder(log, operation)| == 1 then Success(StagedUnder(log, operation)[0]) else Failure(Invalid)
  }

  ghost function History(log: Log, scope: Text): Result<seq<Accepted>, Error>
  {
    AcceptedOf(scope, AcceptedRows(log, scope))
  }

  /** Active rows from one moment joined with accepted rows from a later one. */
  ghost function ActivationHistory(early: Log, late: Log, scope: Text): Result<seq<Activated>, Error>
  {
    ActiveOf(scope, ActiveRows(early, scope), AcceptedRows(late, scope))
  }

  ghost function PrepareAcceptance(request: AcceptanceRequest, actor: Actor, sealed: Staged,
                                   foreign: Text, atHistory: Log, atSeal: Log): Result<Ticket, Error>
    requires ActorOk(actor)
  {
    if request.expected >= MAX_ACCEPTED then Failure(Limit)
    else
      var _ :- History(atHistory, request.scope);
      var staged :- ReadStaged(atSeal, request.staged);
      if staged != sealed then Failure(Conflict)
      else Success(AcceptTicket(request, ActorReference(actor), sealed, foreign))
  }

  /** Three moments, in the order of the reads: active rows, their join, current acceptance. */
  datatype Moments = Moments(active: nat, join: nat, current: nat)

  predicate Ordered(m: Moments, now: nat) { m.active <= m.join <= m.current <= now }

  /** `check_activation_order` for a request that has not committed yet. */
  ghost function CheckOrder(request: ActivationRequest, log: Log, m: Moments): Result<Accepted, Error>
    requires Ordered(m, |log|)
  {
    var scope := request.acceptance.scope;
    var active :- ActivationHistory(log[..m.active], log[..m.join], scope);
    var generation := if active == [] then 0 else active[|active| - 1].generation;
    if request.expected != generation then Failure(StaleGeneration(request.expected, generation))
    else
      var accepted :- History(log[..m.current], scope);
      if accepted == [] then Failure(Invalid)
      else
        var current := accepted[|accepted| - 1];
        if current.request != request.acceptance then
          Failure(Superseded(request.acceptance.expected + 1, current.revision))
        else if active != [] && active[|active| - 1].revision == current.revision then Failure(Conflict)
        else Success(current)
  }

  ghost function PrepareActivation(request: ActivationRequest, foreign: Text, log: Log, m: Moments,
                                   atSeal: nat): Result<Ticket, Error>
    requires Ordered(m, |log|) && atSeal <= |log|
  {
    if request.expected >= MAX_ACCEPTED then Failure(Limit)
    else
      var accepted :- CheckOrder(request, log, m);
      match ReadStaged(log[..atSeal], request.acceptance.staged)
      case Failure(_) => Failure(Blocked)
      case Success(sealed) => Success(ActivateTicket(request, sealed, accepted, foreign))
  }

  // --------------------------------------------------------------------- runs

  /** One dispatch by one of any number of contenders. */
  datatype Step =
    | DoStage(staged: Staged)
    | DoAccept(request: AcceptanceRequest, actor: Actor, sealed: Staged, foreign: Text,
               atHistory: nat, atSeal: nat, foreignHolds: bool)
    | DoActivate(activation: ActivationRequest, foreign: Text, prepared: Moments, atSeal: nat,
                 rechecked: Moments, foreignHolds: bool)
    | DoOther(operation: Text, text: Text, foreignHolds: bool)

  ghost predicate Enabled(s: Store, step: Step)
  {
    match step
    case DoStage(_) => true
    case DoAccept(request, actor, sealed, foreign, atHistory, atSeal, _) =>
      && IsToken(request.operation) && IsToken(request.scope) && IsToken(request.staged)
      && IsDigest(request.seal) && ActorOk(actor)
      && atHistory <= atSeal <= |s.log|
      && PrepareAcceptance(request, actor, sealed, foreign, s.log[..atHistory], s.log[..atSeal]).Success?
    case DoActivate(activation, foreign, prepared, atSeal, rechecked, _) =>
      && IsToken(activation.operation)
      && Ordered(prepared, atSeal) && atSeal <= rechecked.active && Ordered(rechecked, |s.log|)
      && PrepareActivation(activation, foreign, s.log, prepared, atSeal).Success?
      && CheckOrder(activation, s.log, rechecked).Success?
    case DoOther(_, _, _) => true
  }

  ghost function Apply(s: Store, step: Step): Store
    requires Enabled(s, step)
  {
    match step
    case DoStage(staged) => Submit(s, staged.operation, StageTicket(staged), true)
    case DoAccept(request, actor, sealed, foreign, atHistory, atSeal, foreignHolds) =>
      Submit(s, request.operation,
             PrepareAcceptance(request, actor, sealed, foreign, s.log[..atHistory], s.log[..atSeal]).value,
             foreignHolds)
    case DoActivate(activation, foreign, prepared, atSeal, _, foreignHolds) =>
      Submit(s, activation.operation, PrepareActivation(activation, foreign, s.log, prepared, atSeal).value,
             foreignHolds)
    case DoOther(operation, text, foreignHolds) => Submit(s, operation, OtherTicket(text), foreignHolds)
  }

  const EMPTY := Store([], map[])

  /**
   The store after a run, starting from a fresh one. A step whose preparation
   refuses dispatches nothing, so every sequence of steps is a run.
   */
  ghost function After(steps: seq<Step>): Store
  {
    if steps == [] then EMPTY
    else
      var s, step := After(steps[..|steps| - 1]), steps[|steps| - 1];
      if Enabled(s, step) then Apply(s, step) else s
  }
}
