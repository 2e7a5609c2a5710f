/**
 What every reachable acceptance log satisfies: each row was legal against the
 rows before it, hence the validating readers return the whole chains.
 */
module ChainSafety {
  import opened Wrappers
  import opened Framing
  import opened Tokens
  import opened AcceptRecords
  import opened Acceptance

  // -------------------------------------------------------- legality of a log

  ghost predicate Fresh(log: Log, operation: Text)
  {
    && (forall p :: 0 <= p < |log| && log[p].AcceptEvent? ==> log[p].request.operation != operation)
    && (forall p :: 0 <= p < |log| && log[p].ActiveEvent? ==> log[p].activation.operation != operation)
  }

  ghost predicate AcceptOk(log: Log, r: AcceptanceRequest, actor: Text)
  {
    && RequestOk(r) && |actor| <= MAX_FIELD && Fresh(log, r.operation)
    && |Accepts(log, r.scope)| == r.expected && |StagedUnder(log, r.staged)| == 1
  }

  /** The activated revision is the newest accepted one, and newer than the active one. */
  ghost predicate ActiveOk(log: Log, q: ActivationRequest)
  {
    var accepts, actives := Accepts(log, q.acceptance.scope), Actives(log, q.acceptance.scope);
    && ActivationOk(q) && Fresh(log, q.operation) && |actives| == q.expected
    && |accepts| == q.acceptance.expected + 1 && accepts[|accepts| - 1].request == q.acceptance
    && (actives != [] ==> actives[|actives| - 1].revision < |accepts|)
  }

  ghost predicate EventOk(log: Log, e: Event)
  {
    match e
    case AcceptEvent(request, actor) => AcceptOk(log, request, actor)
    case ActiveEvent(activation) => ActiveOk(log, activation)
    case StageEvent(staged) => StagedUnder(log, staged.operation) == []
    case OtherEvent(_) => true
  }

  /** Every row was legal against its own prefix. */
  ghost predicate LogOk(log: Log) { forall p :: 0 <= p < |log| ==> EventOk(log[..p], log[p]) }

  lemma LogOkPrefix(log: Log, t: nat)
    requires LogOk(log) && t <= |log|
    ensures LogOk(log[..t])
  {
    hide EventOk;
    forall p | 0 <= p < t
      ensures EventOk(log[..t][..p], log[..t][p])
    {
      assert log[..t][..p] == log[..p];
    }
  }

  lemma LogOkAppend(log: Log, e: Event)
    requires LogOk(log) && EventOk(log, e)
    ensures LogOk(log + [e])
  {
    hide EventOk;
    var more := log + [e];
    forall p | 0 <= p < |more|
      ensures EventOk(more[..p], more[p])
    {
      assert more[..p] == if p < |log| then log[..p] else log;
    }
  }

  // ------------------------------------------------------------- projections

  /** What was accepted at an earlier moment is still there, in the same places. */
  lemma {:induction false} AcceptsGrow(log: Log, t: nat, scope: Text)
    requires t <= |log|
    ensures Accepts(log[..t], scope) <= Accepts(log, scope)
  {
    if t == |log| {
      assert log[..t] == log;
    } else {
      AcceptsGrow(log[..|log| - 1], t, scope);
      assert log[..|log| - 1][..t] == log[..t];
    }
  }

  lemma {:induction false} ActivesGrow(log: Log, t: nat, scope: Text)
    requires t <= |log|
    ensures Actives(log[..t], scope) <= Actives(log, scope)
  {
    if t == |log| {
      assert log[..t] == log;
    } else {
      ActivesGrow(log[..|log| - 1], t, scope);
      assert log[..|log| - 1][..t] == log[..t];
    }
  }

  /** The row an accepted entry came from, and how many preceded it. */
  ghost predicate AcceptedAt(log: Log, scope: Text, i: nat, a: Accepted)
  {
    && 0 < a.id <= |log| && log[a.id - 1] == AcceptEvent(a.request, a.actor)
    && a.request.scope == scope && a.revision == a.request.expected + 1
    && |Accepts(log[..a.id - 1], scope)| == i
  }

  lemma {:induction false} AcceptsAt(log: Log, scope: Text, i: nat)
    requires i < |Accepts(log, scope)|
    ensures AcceptedAt(log, scope, i, Accepts(log, scope)[i])
  {
    var short := log[..|log| - 1];
    if i < |Accepts(short, scope)| {
      AcceptsAt(short, scope, i);
      var a := Accepts(short, scope)[i];
      assert short[..a.id - 1] == log[..a.id - 1];
    }
  }

  ghost predicate ActivatedAt(log: Log, scope: Text, i: nat, a: Activated)
  {
    && 0 < a.id <= |log| && log[a.id - 1] == ActiveEvent(a.request)
    && a.request.acceptance.scope == scope && a.generation == a.request.expected + 1
    && a.revision == a.request.acceptance.expected + 1
    && |Actives(log[..a.id - 1], scope)| == i
  }

  lemma {:induction false} ActivesAt(log: Log, scope: Text, i: nat)
    requires i < |Actives(log, scope)|
    ensures ActivatedAt(log, scope, i, Actives(log, scope)[i])
  {
    var short := log[..|log| - 1];
    if i < |Actives(short, scope)| {
      ActivesAt(short, scope, i);
      var a := Actives(short, scope)[i];
      assert short[..a.id - 1] == log[..a.id - 1];
    }
  }

  // ------------------------------------------------------- well-formed chains

  ghost predicate AcceptedOk(scope: Text, i: nat, a: Accepted)
  {
    && a.id > 0 && a.revision == i + 1 && a.request.expected == i && a.request.scope == scope
    && RequestOk(a.request) && |a.actor| <= MAX_FIELD
  }

  ghost predicate AcceptChainOk(scope: Text, chain: seq<Accepted>)
  {
    && (forall i :: 0 <= i < |chain| ==> AcceptedOk(scope, i, chain[i]))
    && (forall i, j :: 0 <= i < j < |chain| ==> chain[i].request.operation != chain[j].request.operation)
  }

  ghost predicate ActivatedOk(scope: Text, i: nat, a: Activated)
  {
    && a.id > 0 && a.generation == i + 1 && a.request.expected == i && a.request.acceptance.scope == scope
    && ActivationOk(a.request) && a.revision == a.request.acceptance.expected + 1
  }

  ghost predicate ActiveChainOk(scope: Text, chain: seq<Activated>)
  {
    && (forall i :: 0 <= i < |chain| ==> ActivatedOk(scope, i, chain[i]))
    && (forall i, j :: 0 <= i < j < |chain| ==>
          chain[i].request.operation != chain[j].request.operation && chain[i].revision < chain[j].revision)
  }

  lemma AcceptedEntry(log: Log, scope: Text, i: nat)
    requires LogOk(log) && i < |Accepts(log, scope)|
    ensures AcceptedOk(scope, i, Accepts(log, scope)[i]) && AcceptedAt(log, scope, i, Accepts(log, scope)[i])
  {
    hide Accepts;
    AcceptsAt(log, scope, i);
    var a := Accepts(log, scope)[i];
    assert EventOk(log[..a.id - 1], log[a.id - 1]);
  }

  lemma ActivatedEntry(log: Log, scope: Text, i: nat)
    requires LogOk(log) && i < |Actives(log, scope)|
    ensures ActivatedOk(scope, i, Actives(log, scope)[i]) && ActivatedAt(log, scope, i, Actives(log, scope)[i])
    ensures ActiveOk(log[..Actives(log, scope)[i].id - 1], Actives(log, scope)[i].request)
  {
    hide Actives, Accepts;
    ActivesAt(log, scope, i);
    var a := Actives(log, scope)[i];
    assert EventOk(log[..a.id - 1], log[a.id - 1]);
  }

  /** Rows of a chain lie in order, so the later operation was fresh when it came. */
  lemma AcceptedPair(log: Log, scope: Text, i: nat, j: nat)
    requires LogOk(log) && i < j < |Accepts(log, scope)|
    ensures Accepts(log, scope)[i].id < Accepts(log, scope)[j].id
    ensures Accepts(log, scope)[i].request.operation != Accepts(log, scope)[j].request.operation
  {
    hide Accepts, Actives, RequestOk, ActiveOk;
    var a, b := Accepts(log, scope)[i], Accepts(log, scope)[j];
    AcceptsAt(log, scope, i);
    AcceptsAt(log, scope, j);
    var before := log[..b.id - 1];
    AcceptsGrow(log, b.id - 1, scope);
    AcceptsAt(before, scope, i);
    assert EventOk(before, log[b.id - 1]);
    assert before[a.id - 1].AcceptEvent?;
  }

  lemma ActivatedPair(log: Log, scope: Text, i: nat, j: nat)
    requires LogOk(log) && i < j < |Actives(log, scope)|
    ensures Actives(log, scope)[i].id < Actives(log, scope)[j].id
    ensures Actives(log, scope)[i].request.operation != Actives(log, scope)[j].request.operation
  {
    hide Accepts, Actives, ActivationOk, AcceptOk;
    var a, b := Actives(log, scope)[i], Actives(log, scope)[j];
    ActivesAt(log, scope, i);
    ActivesAt(log, scope, j);
    var before := log[..b.id - 1];
    ActivesGrow(log, b.id - 1, scope);
    ActivesAt(before, scope, i);
    assert EventOk(before, log[b.id - 1]);
    assert before[a.id - 1].ActiveEvent?;
  }

  /** Each activation names a revision above every earlier one: the pointer never goes back. */
  lemma {:induction false} RevisionsRise(log: Log, scope: Text, i: nat, j: nat)
    requires LogOk(log) && i < j < |Actives(log, scope)|
    ensures Actives(log, scope)[i].revision < Actives(log, scope)[j].revision
    decreases j
  {
    hide Accepts, Actives;
    var b := Actives(log, scope)[j];
    ActivatedEntry(log, scope, j);
    ActivesGrow(log, b.id - 1, scope);
    if i + 1 < j {
      RevisionsRise(log, scope, i, j - 1);
    }
  }

  lemma AcceptChainIsOk(log: Log, scope: Text)
    requires LogOk(log)
    ensures AcceptChainOk(scope, Accepts(log, scope)) && |Accepts(log, scope)| <= MAX_ACCEPTED
  {
    hide LogOk, Accepts, AcceptedAt;
    var chain := Accepts(log, scope);
    forall i | 0 <= i < |chain|
      ensures AcceptedOk(scope, i, chain[i])
    {
      AcceptedEntry(log, scope, i);
    }
    forall i, j | 0 <= i < j < |chain|
      ensures chain[i].request.operation != chain[j].request.operation
    {
      AcceptedPair(log, scope, i, j);
    }
    if chain != [] {
      assert AcceptedOk(scope, |chain| - 1, chain[|chain| - 1]);
    }
  }

  lemma ActiveChainIsOk(log: Log, scope: Text)
    requires LogOk(log)
    ensures ActiveChainOk(scope, Actives(log, scope)) && |Actives(log, scope)| <= MAX_ACCEPTED
  {
    hide LogOk, Actives, ActivatedAt, ActiveOk;
    var chain := Actives(log, scope);
    forall i | 0 <= i < |chain|
      ensures ActivatedOk(scope, i, chain[i])
    {
      ActivatedEntry(log, scope, i);
    }
    forall i, j | 0 <= i < j < |chain|
      ensures chain[i].request.operation != chain[j].request.operation && chain[i].revision < chain[j].revision
    {
      ActivatedPair(log, scope, i, j);
      RevisionsRise(log, scope, i, j);
    }
    if chain != [] {
      assert ActivatedOk(scope, |chain| - 1, chain[|chain| - 1]);
    }
  }
}
