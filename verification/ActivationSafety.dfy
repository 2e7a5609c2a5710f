/**
 The results about every run of stagings, acceptances and activations: readers
 never refuse what the writers wrote, and stale preparation reads are harmless.
 */
module ActivationSafety {
  import opened Wrappers
  import opened Framing
  import opened Tokens
  import opened AcceptRecords
  import opened Acceptance
  import opened Activation
  import opened ChainSafety
  import opened Actors
  import opened GuardedStore

  // ---------------------------------------------------------------- readers

  ghost function AcceptedOperations(chain: seq<Accepted>): set<Text>
  {
    set i | 0 <= i < |chain| :: chain[i].request.operation
  }

  ghost function ActiveOperations(chain: seq<Activated>): set<Text>
  {
    set i | 0 <= i < |chain| :: chain[i].request.operation
  }

  lemma AcceptedOperationsStep(chain: seq<Accepted>, i: nat)
    requires i < |chain|
    ensures AcceptedOperations(chain[..i + 1])
         == AcceptedOperations(chain[..i]) + {chain[i].request.operation}
  {
    var more, fewer := chain[..i + 1], chain[..i];
    forall o | o in AcceptedOperations(more)
      ensures o in AcceptedOperations(fewer) + {chain[i].request.operation}
    {
      var k :| 0 <= k < |more| && more[k].request.operation == o;
      assert k < i ==> fewer[k] == more[k];
    }
    forall o | o in AcceptedOperations(fewer)
      ensures o in AcceptedOperations(more)
    {
      var k :| 0 <= k < |fewer| && fewer[k].request.operation == o;
      assert more[k] == fewer[k];
    }
    assert more[i].request.operation in AcceptedOperations(more);
  }

  lemma ActiveOperationsStep(chain: seq<Activated>, i: nat)
    requires i < |chain|
    ensures ActiveOperations(chain[..i + 1]) == ActiveOperations(chain[..i]) + {chain[i].request.operation}
  {
    var more, fewer := chain[..i + 1], chain[..i];
    forall o | o in ActiveOperations(more)
      ensures o in ActiveOperations(fewer) + {chain[i].request.operation}
    {
      var k :| 0 <= k < |more| && more[k].request.operation == o;
      assert k < i ==> fewer[k] == more[k];
    }
    forall o | o in ActiveOperations(fewer)
      ensures o in ActiveOperations(more)
    {
      var k :| 0 <= k < |fewer| && fewer[k].request.operation == o;
      assert more[k] == fewer[k];
    }
    assert more[i].request.operation in ActiveOperations(more);
  }

  lemma {:induction false} AcceptedChainReads(scope: Text, chain: seq<Accepted>, i: nat)
    requires AcceptChainOk(scope, chain) && i <= |chain|
    ensures AcceptedFrom(scope, AcceptedTable(chain), i, AcceptedOperations(chain[..i])) == Success(chain[i..])
    decreases |chain| - i
  {
    hide ReadAccepted, RequestOk, AcceptedBytes;
    if i < |chain| {
      var a := chain[i];
      assert AcceptedOk(scope, i, a);
      AcceptedReadsBack(a.request, a.actor, a.id, AcceptedOperations(chain[..i]));
      AcceptedOperationsStep(chain, i);
      AcceptedChainReads(scope, chain, i + 1);
      assert chain[i..] == [a] + chain[i + 1..];
    } else {
      assert chain[i..] == [];
    }
  }

  lemma ActiveRowReads(scope: Text, chain: seq<Activated>, accepted: seq<Accepted>, i: nat)
    requires ActiveChainOk(scope, chain) && i < |chain|
    requires Joins(accepted, chain[i].request.acceptance, chain[i].id)
    ensures ReadActive(scope, i, ActiveTable(chain)[i], ActiveOperations(chain[..i]),
                       if i == 0 then 0 else chain[i - 1].revision, accepted) == Success(chain[i])
  {
    hide ReadActive, ActivationOk, ActiveBytes, Joins;
    var a := chain[i];
    assert ActivatedOk(scope, i, a);
    assert i > 0 ==> chain[i - 1].revision < a.revision;
    ActiveReadsBack(a.request, a.id, ActiveOperations(chain[..i]),
                    if i == 0 then 0 else chain[i - 1].revision, accepted);
  }

  lemma {:induction false} ActiveChainReads(scope: Text, chain: seq<Activated>, accepted: seq<Accepted>, i: nat)
    requires ActiveChainOk(scope, chain) && i <= |chain|
    requires forall k :: 0 <= k < |chain| ==> Joins(accepted, chain[k].request.acceptance, chain[k].id)
    ensures ActiveFrom(scope, ActiveTable(chain), accepted, i, ActiveOperations(chain[..i]),
                       if i == 0 then 0 else chain[i - 1].revision)
         == Success(chain[i..])
    decreases |chain| - i
  {
    hide ReadActive, ActiveChainOk, ActiveOperations, ActiveRow, Joins;
    if i < |chain| {
      ActiveRowReads(scope, chain, accepted, i);
      ActiveOperationsStep(chain, i);
      ActiveChainReads(scope, chain, accepted, i + 1);
      assert chain[i..] == [chain[i]] + chain[i + 1..];
    } else {
      assert chain[i..] == [];
    }
  }

  /** The accepted-history reader returns the whole chain of a legal log. */
  lemma HistoryReads(log: Log, scope: Text)
    requires LogOk(log)
    ensures History(log, scope) == Success(Accepts(log, scope))
  {
    hide LogOk, Accepts, AcceptedFrom;
    var chain := Accepts(log, scope);
    AcceptChainIsOk(log, scope);
    AcceptedChainReads(scope, chain, 0);
    assert chain[..0] == [] && chain[0..] == chain;
    assert AcceptedOperations(chain[..0]) == {};
  }

  lemma ActivationJoins(log: Log, early: nat, late: nat, scope: Text, k: nat)
    requires LogOk(log) && early <= late <= |log| && k < |Actives(log[..early], scope)|
    ensures var a := Actives(log[..early], scope)[k];
            Joins(Accepts(log[..late], scope), a.request.acceptance, a.id)
  {
    hide Accepts, Actives, LogOk, AcceptedOk, ActivatedOk;
    LogOkPrefix(log, early);
    var a := Actives(log[..early], scope)[k];
    ActivatedEntry(log[..early], scope, k);
    var before := log[..a.id - 1];
    assert log[..early][..a.id - 1] == before && log[..late][..a.id - 1] == before;
    AcceptsGrow(log[..late], a.id - 1, scope);
    var last := |Accepts(before, scope)| - 1;
    AcceptsAt(before, scope, last);
    assert Accepts(log[..late], scope)[last] == Accepts(before, scope)[last];
  }

  /** Reading active rows first and accepted rows later never makes a row unreadable. */
  lemma ActivationHistoryReads(log: Log, early: nat, late: nat, scope: Text)
    requires LogOk(log) && early <= late <= |log|
    ensures ActivationHistory(log[..early], log[..late], scope) == Success(Actives(log[..early], scope))
  {
    hide LogOk, Accepts, Actives, AcceptedFrom, ActiveFrom, Joins;
    var chain, accepted := Actives(log[..early], scope), Accepts(log[..late], scope);
    LogOkPrefix(log, early);
    LogOkPrefix(log, late);
    ActiveChainIsOk(log[..early], scope);
    HistoryReads(log[..late], scope);
    forall k | 0 <= k < |chain|
      ensures Joins(accepted, chain[k].request.acceptance, chain[k].id)
    {
      ActivationJoins(log, early, late, scope, k);
    }
    ActiveChainReads(scope, chain, accepted, 0);
    assert chain[..0] == [] && chain[0..] == chain;
    assert ActiveOperations(chain[..0]) == {};
  }

  // ------------------------------------------------------------- reachability

  /** Every committed event left a receipt under its operation. */
  ghost predicate Receipted(s: Store)
  {
    forall o :: o !in s.receipts ==> Fresh(s.log, o)
  }

  /** The order check, freed of its readers: what it compares and what it answers. */
  ghost function Order(request: ActivationRequest, active: seq<Activated>, accepted: seq<Accepted>)
    : Result<Accepted, Error>
  {
    if request.expected != |active| then Failure(StaleGeneration(request.expected, |active|))
    else if accepted == [] then Failure(Invalid)
    else
      var current := accepted[|accepted| - 1];
      if current.request != request.acceptance
      then Failure(Superseded(request.acceptance.expected + 1, |accepted|))
      else if active != [] && active[|active| - 1].revision == |accepted| then Failure(Conflict)
      else Success(current)
  }

  lemma CheckOrderReads(request: ActivationRequest, log: Log, m: Moments)
    requires LogOk(log) && Ordered(m, |log|)
    ensures CheckOrder(request, log, m)
         == Order(request, Actives(log[..m.active], request.acceptance.scope),
                  Accepts(log[..m.current], request.acceptance.scope))
  {
    hide LogOk, Accepts, Actives, ActivationHistory, History, RequestOk, ActivationOk;
    var scope := request.acceptance.scope;
    var active, accepted := Actives(log[..m.active], scope), Accepts(log[..m.current], scope);
    ActivationHistoryReads(log, m.active, m.join, scope);
    LogOkPrefix(log, m.active);
    LogOkPrefix(log, m.current);
    HistoryReads(log[..m.current], scope);
    if active != [] {
      ActivatedEntry(log[..m.active], scope, |active| - 1);
    }
    if accepted != [] {
      AcceptedEntry(log[..m.current], scope, |accepted| - 1);
    }
  }

  ghost predicate Inv(s: Store) { LogOk(s.log) && Receipted(s) }

  /** An activation's revision counts the acceptances that preceded it. */
  lemma RevisionAtCommit(log: Log, scope: Text, k: nat)
    requires LogOk(log) && k < |Actives(log, scope)|
    ensures var a := Actives(log, scope)[k];
            && 0 < a.id <= |log| && log[a.id - 1] == ActiveEvent(a.request)
            && 0 < a.revision == |Accepts(log[..a.id - 1], scope)| <= |Accepts(log, scope)|
            && Accepts(log, scope)[a.revision - 1].request == a.request.acceptance
  {
    hide LogOk, Accepts, Actives, ActivationOk, Fresh;
    ActivatedEntry(log, scope, k);
    AcceptsGrow(log, Actives(log, scope)[k].id - 1, scope);
  }

  /**
   The heart of the protocol: reads that were stale when they were made are
   harmless, because equal counts at commit pin both chains to what was read.
   */
  lemma StaleReadsAreHarmless(log: Log, q: ActivationRequest, m: Moments)
    requires LogOk(log) && Ordered(m, |log|)
    requires IsToken(q.operation) && q.expected < MAX_ACCEPTED && Fresh(log, q.operation)
    requires CheckOrder(q, log, m).Success?
    requires |Actives(log, q.acceptance.scope)| == q.expected
    requires |Accepts(log, q.acceptance.scope)| == CheckOrder(q, log, m).value.revision
    ensures ActiveOk(log, q)
  {
    hide LogOk, Accepts, Actives, CheckOrder, RequestOk, Fresh;
    var scope := q.acceptance.scope;
    CheckOrderReads(q, log, m);
    ActivesGrow(log, m.active, scope);
    AcceptsGrow(log, m.current, scope);
    LogOkPrefix(log, m.current);
    var accepts, actives := Accepts(log, scope), Actives(log, scope);
    AcceptedEntry(log[..m.current], scope, |Accepts(log[..m.current], scope)| - 1);
    assert accepts == Accepts(log[..m.current], scope);
    AcceptedEntry(log, scope, |accepts| - 1);
    assert actives == Actives(log[..m.active], scope);
    if actives != [] {
      RevisionAtCommit(log, scope, |actives| - 1);
    }
  }

  lemma FreshAfter(s: Store, operation: Text, ticket: Ticket)
    requires Receipted(s) && operation !in s.receipts
    requires ticket.AcceptTicket? ==> ticket.request.operation == operation
    requires ticket.ActivateTicket? ==> ticket.activation.operation == operation
    ensures Receipted(Store(s.log + [Body(ticket)], s.receipts[operation := ticket]))
  {
  }

  /** Any one dispatch, whatever it read and whenever, leaves a legal log. */
  lemma StepKeeps(s: Store, step: Step)
    requires Inv(s) && Enabled(s, step)
    ensures Inv(Apply(s, step))
  {
    hide LogOk, Accepts, Actives, CheckOrder, History, RequestOk, Fresh, Receipted, ActorReference, StagedUnder;
    match step
    case DoStage(staged) =>
      if Apply(s, step) != s {
        LogOkAppend(s.log, StageEvent(staged));
        FreshAfter(s, staged.operation, StageTicket(staged));
      }
    case DoOther(operation, text, _) =>
      if Apply(s, step) != s {
        LogOkAppend(s.log, OtherEvent(text));
        FreshAfter(s, operation, OtherTicket(text));
      }
    case DoAccept(_, _, _, _, _, _, _) => AcceptKeeps(s, step);
    case DoActivate(_, _, _, _, _, _) => ActivateKeeps(s, step);
  }

  lemma AcceptKeeps(s: Store, step: Step)
    requires Inv(s) && Enabled(s, step) && step.DoAccept?
    ensures Inv(Apply(s, step))
  {
    hide LogOk, Accepts, Actives, History, ActorReference, StagedUnder, Fresh;
    var request := step.request;
    var ticket := PrepareAcceptance(request, step.actor, step.sealed, step.foreign,
                                    s.log[..step.atHistory], s.log[..step.atSeal]).value;
    if Apply(s, step) != s {
      ActorReferenceFits(step.actor);
      StagedName(s.log[..step.atSeal], request.staged, 0);
      assert Fresh(s.log, request.operation);
      LogOkAppend(s.log, AcceptEvent(request, ActorReference(step.actor)));
      FreshAfter(s, request.operation, ticket);
    }
  }

  lemma ActivateKeeps(s: Store, step: Step)
    requires Inv(s) && Enabled(s, step) && step.DoActivate?
    ensures Inv(Apply(s, step))
  {
    hide LogOk, Accepts, Actives, CheckOrder, StagedUnder, ActiveOk, Fresh, RequestOk;
    var q := step.activation;
    var ticket := PrepareActivation(q, step.foreign, s.log, step.prepared, step.atSeal).value;
    if Apply(s, step) != s {
      assert Fresh(s.log, q.operation);
      StaleReadsAreHarmless(s.log, q, step.prepared);
      LogOkAppend(s.log, ActiveEvent(q));
      FreshAfter(s, q.operation, ticket);
    }
  }

  lemma {:induction false} StagedName(log: Log, operation: Text, i: nat)
    requires i < |StagedUnder(log, operation)|
    ensures StagedUnder(log, operation)[i].operation == operation
  {
    var short := log[..|log| - 1];
    if i < |StagedUnder(short, operation)| {
      StagedName(short, operation, i);
    }
  }

  /** Every row of every reachable log was legal at the instant it committed. */
  lemma {:induction false} EveryRunIsLegal(steps: seq<Step>)
    ensures LogOk(After(steps).log) && Receipted(After(steps))
  {
    hide Accepts, Actives, Enabled, Apply, EventOk;
    if steps != [] {
      var s, step := After(steps[..|steps| - 1]), steps[|steps| - 1];
      EveryRunIsLegal(steps[..|steps| - 1]);
      if Enabled(s, step) {
        StepKeeps(s, step);
      }
    }
  }

  // ------------------------------------------------------------ main results

  /**
   In any run, with any commits between the two reads, both validating readers
   return their full chains.
   */
  lemma ReadersNeverRefuse(steps: seq<Step>, early: nat, late: nat, scope: Text)
    requires early <= late <= |After(steps).log|
    ensures var log := After(steps).log;
            && History(log[..late], scope) == Success(Accepts(log[..late], scope))
            && ActivationHistory(log[..early], log[..late], scope) == Success(Actives(log[..early], scope))
  {
    hide LogOk, History, ActivationHistory;
    EveryRunIsLegal(steps);
    LogOkPrefix(After(steps).log, late);
    HistoryReads(After(steps).log[..late], scope);
    ActivationHistoryReads(After(steps).log, early, late, scope);
  }

  /**
   Whatever contenders interleave: each committed activation names the revision
   that was newest accepted at its commit, and revisions strictly increase.
   */
  lemma ActivationsNameTheNewest(steps: seq<Step>, scope: Text, i: nat)
    requires i < |Actives(After(steps).log, scope)|
    ensures var log := After(steps).log;
            var a := Actives(log, scope)[i];
            && 0 < a.id <= |log| && log[a.id - 1] == ActiveEvent(a.request)
            && a.generation == i + 1
            && a.revision == |Accepts(log[..a.id - 1], scope)| > 0
            && Accepts(log[..a.id - 1], scope)[a.revision - 1].request == a.request.acceptance
            && (forall j :: 0 <= j < i ==> Actives(log, scope)[j].revision < a.revision)
  {
    hide LogOk, Accepts, Actives, ActivationOk, Fresh;
    var log := After(steps).log;
    EveryRunIsLegal(steps);
    RevisionAtCommit(log, scope, i);
    ActivatedEntry(log, scope, i);
    forall j | 0 <= j < i
      ensures Actives(log, scope)[j].revision < Actives(log, scope)[i].revision
    {
      RevisionsRise(log, scope, j, i);
    }
  }

  lemma {:induction false} RevisionAtLeastGeneration(log: Log, scope: Text, i: nat)
    requires LogOk(log) && i < |Actives(log, scope)|
    ensures i + 1 <= Actives(log, scope)[i].revision
  {
    hide Accepts, Actives, LogOk;
    ActivatedEntry(log, scope, i);
    if i > 0 {
      RevisionAtLeastGeneration(log, scope, i - 1);
      RevisionsRise(log, scope, i - 1, i);
    }
  }

  ghost function GenerationOf(log: Log, scope: Text): nat { |Actives(log, scope)| }

  ghost function ActiveRevision(log: Log, scope: Text): nat
  {
    var chain := Actives(log, scope);
    if chain == [] then 0 else chain[|chain| - 1].revision
  }

  ghost function AcceptedRevision(log: Log, scope: Text): nat { |Accepts(log, scope)| }

  lemma BoundsOf(log: Log, scope: Text)
    requires LogOk(log)
    ensures GenerationOf(log, scope) <= ActiveRevision(log, scope) <= AcceptedRevision(log, scope) <= MAX_ACCEPTED
  {
    hide Accepts, Actives, LogOk;
    AcceptChainIsOk(log, scope);
    var chain := Actives(log, scope);
    if chain != [] {
      RevisionAtLeastGeneration(log, scope, |chain| - 1);
      RevisionAtCommit(log, scope, |chain| - 1);
    }
  }

  /** At every instant of every run: generation, active and accepted revision, and the bound. */
  lemma PointerBounds(steps: seq<Step>, now: nat, scope: Text)
    requires now <= |After(steps).log|
    ensures var log := After(steps).log[..now];
            GenerationOf(log, scope) <= ActiveRevision(log, scope) <= AcceptedRevision(log, scope) <= MAX_ACCEPTED
  {
    hide LogOk, GenerationOf, ActiveRevision, AcceptedRevision;
    EveryRunIsLegal(steps);
    LogOkPrefix(After(steps).log, now);
    BoundsOf(After(steps).log[..now], scope);
  }

  /** Neither counter nor pointer ever goes back between two instants of a run. */
  lemma PointerNeverGoesBack(steps: seq<Step>, early: nat, late: nat, scope: Text)
    requires early <= late <= |After(steps).log|
    ensures var before, now := After(steps).log[..early], After(steps).log[..late];
            && GenerationOf(before, scope) <= GenerationOf(now, scope)
            && ActiveRevision(before, scope) <= ActiveRevision(now, scope)
            && AcceptedRevision(before, scope) <= AcceptedRevision(now, scope)
  {
    hide LogOk, GenerationOf, ActiveRevision, AcceptedRevision;
    var now := After(steps).log[..late];
    EveryRunIsLegal(steps);
    LogOkPrefix(After(steps).log, late);
    PointerGrows(now, early, scope);
    assert now[..early] == After(steps).log[..early];
  }

  lemma PointerGrows(log: Log, early: nat, scope: Text)
    requires LogOk(log) && early <= |log|
    ensures ActiveRevision(log[..early], scope) <= ActiveRevision(log, scope)
    ensures AcceptedRevision(log[..early], scope) <= AcceptedRevision(log, scope)
    ensures GenerationOf(log[..early], scope) <= GenerationOf(log, scope)
  {
    hide Accepts, Actives, LogOk;
    AcceptsGrow(log, early, scope);
    ActivesGrow(log, early, scope);
    var before, now := Actives(log[..early], scope), Actives(log, scope);
    if before != [] && |before| < |now| {
      RevisionsRise(log, scope, |before| - 1, |now| - 1);
    }
  }
}
