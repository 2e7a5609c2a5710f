/**
 The handoff barrier: reads, at different moments, of the accepted chain, the
 active chain and the staged configuration, and the one instant they agree on.
 */
module Handoff {
  import opened Wrappers
  import opened Framing
  import opened AcceptRecords
  import opened Acceptance
  import opened Activation
  import opened ChainSafety
  import opened ActivationSafety

  datatype Refusal = FromAccept(error: Error) | PublicationBlocked

  datatype Unit = Unit

  /** When each read of the barrier ran. */
  datatype Reads = Reads(current: nat, active: nat, join: nat, staged: nat)

  predicate InOrder(r: Reads, now: nat) { r.current <= r.active <= r.join <= r.staged <= now }

  /** `require_activation_current_for_handoff`. */
  ghost function Barrier(log: Log, r: Reads, scope: Text, binding: nat, revision: nat): Result<Unit, Refusal>
    requires InOrder(r, |log|)
  {
    match History(log[..r.current], scope)
    case Failure(error) => Failure(FromAccept(error))
    case Success(accepted) =>
      if accepted == [] then Failure(FromAccept(Invalid))
      else
        var current := accepted[|accepted| - 1];
        if current.revision != revision then Failure(FromAccept(Superseded(revision, current.revision)))
        else
          match ActivationHistory(log[..r.active], log[..r.join], scope)
          case Failure(error) => Failure(FromAccept(error))
          case Success(active) =>
            if active == [] then Failure(FromAccept(Invalid))
            else if active[|active| - 1].revision != revision then Failure(PublicationBlocked)
            else if active[|active| - 1].generation == 0 then Failure(FromAccept(Invalid))
            else
              match ReadStaged(log[..r.staged], current.request.staged)
              case Failure(error) => Failure(FromAccept(error))
              case Success(staged) =>
                if staged.binding != binding then Failure(PublicationBlocked) else Success(Unit)
  }

  /** The binding revision of the publication that is newest accepted, if any. */
  ghost function PublishedBinding(log: Log, scope: Text): Option<nat>
  {
    var chain := Accepts(log, scope);
    if chain == [] || |StagedUnder(log, chain[|chain| - 1].request.staged)| != 1 then None
    else Some(StagedUnder(log, chain[|chain| - 1].request.staged)[0].binding)
  }

  /** All three revisions of a handoff hold together in this log. */
  ghost predicate Current(log: Log, scope: Text, binding: nat, revision: nat)
  {
    && AcceptedRevision(log, scope) == revision && ActiveRevision(log, scope) == revision
    && PublishedBinding(log, scope) == Some(binding)
  }

  lemma {:induction false} StagedStays(log: Log, t: nat, operation: Text)
    requires LogOk(log) && t <= |log| && |StagedUnder(log[..t], operation)| == 1
    ensures StagedUnder(log, operation) == StagedUnder(log[..t], operation)
  {
    hide Accepts, Actives, AcceptOk, ActiveOk;
    if t == |log| {
      assert log[..t] == log;
    } else {
      var short := log[..|log| - 1];
      LogOkPrefix(log, |log| - 1);
      assert short[..t] == log[..t];
      StagedStays(short, t, operation);
      assert EventOk(short, log[|log| - 1]);
    }
  }

  /** An accepted publication's staged row is there from then on, and stays unique. */
  lemma PublicationIsStaged(log: Log, scope: Text, i: nat)
    requires LogOk(log) && i < |Accepts(log, scope)|
    ensures |StagedUnder(log, Accepts(log, scope)[i].request.staged)| == 1
  {
    hide Accepts, Actives, ActiveOk, Fresh, RequestOk;
    AcceptsAt(log, scope, i);
    var a := Accepts(log, scope)[i];
    assert EventOk(log[..a.id - 1], log[a.id - 1]);
    StagedStays(log, a.id - 1, a.request.staged);
  }

  /** Between two instants with the same newest acceptance, the published binding is the same. */
  lemma BindingStays(log: Log, t: nat, scope: Text)
    requires LogOk(log) && t <= |log| && AcceptedRevision(log[..t], scope) == AcceptedRevision(log, scope) > 0
    ensures PublishedBinding(log[..t], scope) == PublishedBinding(log, scope)
    ensures PublishedBinding(log, scope).Some?
  {
    hide Accepts, LogOk, StagedUnder;
    LogOkPrefix(log, t);
    AcceptsGrow(log, t, scope);
    var chain := Accepts(log[..t], scope);
    assert chain == Accepts(log, scope);
    PublicationIsStaged(log[..t], scope, |chain| - 1);
    StagedStays(log, t, chain[|chain| - 1].request.staged);
  }

  /** The barrier freed of its readers: every answer, from the three facts it compares. */
  ghost function Verdict(accepted: nat, active: nat, published: Option<nat>, binding: nat, revision: nat)
    : Result<Unit, Refusal>
  {
    if accepted == 0 then Failure(FromAccept(Invalid))
    else if accepted != revision then Failure(FromAccept(Superseded(revision, accepted)))
    else if active == 0 then Failure(FromAccept(Invalid))
    else if active != revision then Failure(PublicationBlocked)
    else if published != Some(binding) then Failure(PublicationBlocked)
    else Success(Unit)
  }

  lemma StagedReadLater(log: Log, t: nat, late: nat, scope: Text)
    requires LogOk(log) && t <= late <= |log| && Accepts(log[..t], scope) != []
    ensures var chain := Accepts(log[..t], scope);
            var staged := ReadStaged(log[..late], chain[|chain| - 1].request.staged);
            staged.Success? && PublishedBinding(log[..t], scope) == Some(staged.value.binding)
  {
    hide Accepts, LogOk, StagedUnder;
    var chain := Accepts(log[..t], scope);
    LogOkPrefix(log, t);
    LogOkPrefix(log, late);
    assert log[..late][..t] == log[..t];
    PublicationIsStaged(log[..t], scope, |chain| - 1);
    StagedStays(log[..late], t, chain[|chain| - 1].request.staged);
  }

  lemma BarrierReads(log: Log, r: Reads, scope: Text, binding: nat, revision: nat)
    requires LogOk(log) && InOrder(r, |log|)
    ensures Barrier(log, r, scope, binding, revision)
         == Verdict(AcceptedRevision(log[..r.current], scope), ActiveRevision(log[..r.active], scope),
                    PublishedBinding(log[..r.current], scope), binding, revision)
  {
    hide Accepts, Actives, LogOk, History, ActivationHistory, ReadStaged, PublishedBinding, RequestOk, ActivationOk;
    LogOkPrefix(log, r.current);
    LogOkPrefix(log, r.active);
    HistoryReads(log[..r.current], scope);
    ActivationHistoryReads(log, r.active, r.join, scope);
    var accepted, active := Accepts(log[..r.current], scope), Actives(log[..r.active], scope);
    if accepted != [] {
      AcceptedEntry(log[..r.current], scope, |accepted| - 1);
      StagedReadLater(log, r.current, r.staged, scope);
    }
    if active != [] {
      ActivatedEntry(log[..r.active], scope, |active| - 1);
    }
  }

  /**
   Exactly when a handoff passes and why it refuses, in every run: the readers
   themselves never turn it down.
   */
  lemma BarrierDecides(steps: seq<Step>, r: Reads, scope: Text, binding: nat, revision: nat)
    requires InOrder(r, |After(steps).log|)
    ensures Barrier(After(steps).log, r, scope, binding, revision)
         == Verdict(AcceptedRevision(After(steps).log[..r.current], scope),
                    ActiveRevision(After(steps).log[..r.active], scope),
                    PublishedBinding(After(steps).log[..r.current], scope), binding, revision)
  {
    hide LogOk, Barrier, Verdict;
    EveryRunIsLegal(steps);
    BarrierReads(After(steps).log, r, scope, binding, revision);
  }

  /**
   The two chains were read at different moments, yet some instant between them
   had both at the admitted revision: just after the activation if it came in
   between, and the first read otherwise.
   */
  lemma AgreedInstant(log: Log, first: nat, second: nat, scope: Text) returns (t: nat)
    requires LogOk(log) && first <= second <= |log|
    requires AcceptedRevision(log[..first], scope) == ActiveRevision(log[..second], scope) > 0
    ensures first <= t <= second
    ensures ActiveRevision(log[..t], scope) == AcceptedRevision(log[..t], scope)
         == AcceptedRevision(log[..first], scope)
  {
    hide Accepts, Actives, LogOk;
    var early, late := log[..first], log[..second];
    LogOkPrefix(log, second);
    var chain := Actives(late, scope);
    var last := |chain| - 1;
    RevisionAtCommit(late, scope, last);
    ActivatedEntry(late, scope, last);
    var row := chain[last].id;
    assert late[..first] == early;
    if row <= first {
      t := first;
      ActivesStill(late, first, scope);
    } else {
      t := row;
      ActivationInstant(late, scope, last);
      assert late[..row] == log[..row];
    }
  }

  /** A chain whose last row is already there has not grown since. */
  lemma ActivesStill(log: Log, t: nat, scope: Text)
    requires LogOk(log) && t <= |log| && Actives(log, scope) != []
    requires Actives(log, scope)[|Actives(log, scope)| - 1].id <= t
    ensures Actives(log[..t], scope) == Actives(log, scope)
  {
    hide Accepts, Actives, LogOk;
    var chain := Actives(log, scope);
    ActivesGrow(log, t, scope);
    ActivatedEntry(log, scope, |chain| - 1);
    var row := chain[|chain| - 1].id;
    ActivesGrow(log[..t], row, scope);
    assert log[..t][..row] == log[..row];
    ActivationInstant(log, scope, |chain| - 1);
  }

  /** Immediately after its commit an activation is the pointer, and is newest accepted. */
  lemma ActivationInstant(log: Log, scope: Text, i: nat)
    requires LogOk(log) && i < |Actives(log, scope)|
    ensures var a := Actives(log, scope)[i];
            && 0 < a.id <= |log| && |Actives(log[..a.id], scope)| == i + 1
            && ActiveRevision(log[..a.id], scope) == a.revision == AcceptedRevision(log[..a.id], scope)
  {
    hide ActiveOk, ActivatedOk, LogOk;
    ActivatedEntry(log, scope, i);
    RevisionAtCommit(log, scope, i);
    var a := Actives(log, scope)[i];
    assert log[..a.id][..a.id - 1] == log[..a.id - 1];
  }

  /**
   Linearizability: whatever commits between its reads, a handoff that passes
   had one instant, during the call, at which the last accepted revision, the
   active revision and the admitted revision were the same, and the accepted
   publication carried the admitted binding revision.
   */
  lemma HandoffIsLinearizable(steps: seq<Step>, r: Reads, scope: Text, binding: nat, revision: nat)
    returns (t: nat)
    requires InOrder(r, |After(steps).log|)
    requires Barrier(After(steps).log, r, scope, binding, revision).Success?
    ensures r.current <= t <= r.active
    ensures Current(After(steps).log[..t], scope, binding, revision)
  {
    hide LogOk, Barrier, AcceptedRevision, ActiveRevision, PublishedBinding;
    var log := After(steps).log;
    EveryRunIsLegal(steps);
    BarrierReads(log, r, scope, binding, revision);
    t := AgreedInstant(log, r.current, r.active, scope);
    LogOkPrefix(log, t);
    assert log[..t][..r.current] == log[..r.current];
    BindingStays(log[..t], r.current, scope);
  }

  /** Conversely, a publication that stays current throughout the call passes. */
  lemma StableHandoffPasses(steps: seq<Step>, r: Reads, scope: Text, binding: nat, revision: nat)
    requires InOrder(r, |After(steps).log|) && revision > 0
    requires Current(After(steps).log[..r.current], scope, binding, revision)
    requires ActiveRevision(After(steps).log[..r.active], scope) == revision
    ensures Barrier(After(steps).log, r, scope, binding, revision) == Success(Unit)
  {
    hide LogOk, Barrier, AcceptedRevision, ActiveRevision, PublishedBinding;
    BarrierDecides(steps, r, scope, binding, revision);
  }
}
