/**
 The API's intent journal: drafts, edits and seals remembered by compare-and-swap
 on a scope's history, each preparation reading an earlier moment of the log.
 */
module Drafts {
  import opened Wrappers
  import opened Framing
  import opened Tokens
  import opened Intents

  const MAX_WORK: nat := 256

  /** The store's bound on a quoted value. */
  const MAX_VALUE: nat := 65536

  type Log = seq<Intent>

  /** A stored intent: the scope it is filed under, and its text. */
  datatype IntentRow = IntentRow(entity: Text, content: Text)

  /** The rows that hold these intents. */
  function Table(log: Log): seq<IntentRow>
  {
    seq(|log|, i requires 0 <= i < |log| => IntentRow(log[i].scope, Bytes(log[i])))
  }

  predicate IsRevision(i: Intent) { i.kind.Draft? || i.kind.Edit? }

  /** The intents of one scope, in row order. */
  function History(log: Log, scope: Text): Log
  {
    if log == [] then []
    else
      var before, last := History(log[..|log| - 1], scope), log[|log| - 1];
      if last.scope == scope then before + [last] else before
  }

  function Lookup(history: Log, operation: Text): Option<Intent>
  {
    if history == [] then None
    else if history[0].operation == operation then Some(history[0])
    else Lookup(history[1..], operation)
  }

  /** The revisions, draft and edits, of one subject. */
  function Revisions(history: Log, subject: Text): Log
  {
    if history == [] then []
    else
      var before, last := Revisions(history[..|history| - 1], subject), history[|history| - 1];
      if last.subject == subject && IsRevision(last) then before + [last] else before
  }

  predicate IsSealOf(i: Intent, subject: Text) { i.kind.Seal? && i.subject == subject }

  predicate HasSeal(history: Log, subject: Text)
  {
    exists k :: 0 <= k < |history| && IsSealOf(history[k], subject)
  }

  /** The rows filed under one scope, in row order. */
  function RowsOf(table: seq<IntentRow>, scope: Text): seq<IntentRow>
  {
    if table == [] then []
    else
      var before, last := RowsOf(table[..|table| - 1], scope), table[|table| - 1];
      if last.entity == scope then before + [last] else before
  }

  /** Decode row by row; a foreign scope or a repeated operation refuses the whole. */
  function Collect(rows: seq<IntentRow>, scope: Text, seen: set<Text>): Result<Log, Error>
    decreases |rows|
  {
    hide DecodeIntent;
    if rows == [] then Success([])
    else
      var i :- DecodeIntent(rows[0].content);
      if i.scope != scope || i.operation in seen then Failure(Invalid)
      else
        var more :- Collect(rows[1..], scope, seen + {i.operation});
        Success([i] + more)
  }

  /** `intents`: the bounded history of a scope, read back from its rows. */
  function Read(table: seq<IntentRow>, scope: Text): Result<Log, Error>
  {
    var rows := RowsOf(table, scope);
    if |rows| > MAX_WORK then Failure(Limit) else Collect(rows, scope, {})
  }

  /** The reading loop, collecting operations as it goes. */
  method ReadLoop(table: seq<IntentRow>, scope: Text) returns (r: Result<Log, Error>)
    ensures r == Read(table, scope)
  {
    hide DecodeIntent, RowsOf;
    var rows := RowsOf(table, scope);
    if |rows| > MAX_WORK {
      return Failure(Limit);
    }
    var seen: set<Text>, out: Log, k := {}, [], 0;
    ghost var all := Collect(rows, scope, {});
    assert rows[0..] == rows;
    assert all.Success? ==> out + all.value == all.value;
    while k < |rows|
      invariant k <= |rows|
      invariant all
             == match Collect(rows[k..], scope, seen)
                case Success(more) => Success(out + more)
                case Failure(error) => Failure(error)
    {
      assert rows[k..][1..] == rows[k + 1..];
      var i := DecodeIntent(rows[k].content);
      if i.Failure? {
        return Failure(i.error);
      }
      if i.value.scope != scope || i.value.operation in seen {
        return Failure(Invalid);
      }
      ghost var more := Collect(rows[k + 1..], scope, seen + {i.value.operation});
      assert more.Success? ==> out + ([i.value] + more.value) == out + [i.value] + more.value;
      seen := seen + {i.value.operation};
      out := out + [i.value];
      k := k + 1;
    }
    assert out + [] == out;
    return Success(out);
  }

  /** What remembering comes to: the row that is already there, or one more. */
  datatype Decision = Existing(intent: Intent) | Append(intent: Intent, count: nat)

  /** `remember` after its history read. */
  function Remember(history: Log, i: Intent): Result<Decision, Error>
  {
    match Lookup(history, i.operation)
    case Some(original) =>
      if original.kind != i.kind || original.subject != i.subject || original.parent != i.parent
         || original.request != i.request
      then Failure(Conflict) else Success(Existing(original))
    case None =>
      if |history| == MAX_WORK then Failure(Limit)
      else if i.kind.Edit? || i.kind.Seal? then
        var revisions := Revisions(history, i.subject);
        if i.parent.None? then Failure(Invalid)
        else if revisions == [] then Failure(Missing)
        else if revisions[|revisions| - 1].operation != i.parent.value then Failure(Conflict)
        else if HasSeal(history, i.subject) then Failure(SealedMutation)
        else Success(Append(i, |history|))
      else Success(Append(i, |history|))
  }

  // --------------------------------------------------------------------- steps

  /** Who calls, which fixes kind, subject and parent. */
  datatype Caller =
    | NewDraft
    | EditOf(revision: Text)
    | SealOf(revision: Text)
    | Other(kind: Kind, subject: Text, parent: Option<Text>)

  /**
   One call: a draft revision was looked up at `looked`, the history was read at
   `read`, and the append commits now. `foreign` is what the access rows and the
   actor's expiry say at commit, `quoted` the length of the row's text as JSON.
   */
  datatype Step = Step(caller: Caller, operation: Text, scope: Text, request: Text, actor: Text, looked: nat,
                       read: nat, foreign: bool, quoted: nat)

  predicate CallerOk(c: Caller)
  {
    c.Other? ==>
      && !(c.kind.Draft? || c.kind.Edit? || c.kind.Seal?)
      && IsOperation(c.subject) && (c.parent.Some? ==> IsOperation(c.parent.value))
  }

  /** The intent a caller asks to have remembered. */
  function Wanted(log: Log, s: Step): Option<Intent>
  {
    match s.caller
    case NewDraft => Some(Intent(s.operation, s.scope, Draft, s.operation, None, s.request, s.actor))
    case Other(kind, subject, parent) => Some(Intent(s.operation, s.scope, kind, subject, parent, s.request, s.actor))
    case EditOf(revision) => OnRevision(log, s, Edit, revision)
    case SealOf(revision) => OnRevision(log, s, Seal, revision)
  }

  function OnRevision(log: Log, s: Step, kind: Kind, revision: Text): Option<Intent>
  {
    match Read(Table(log), s.scope)
    case Failure(_) => None
    case Success(history) =>
      match Lookup(history, revision)
      case Some(i) =>
        if IsRevision(i) then Some(Intent(s.operation, s.scope, kind, i.subject, Some(revision), s.request, s.actor))
        else None
      case None => None
  }

  predicate Enabled(log: Log, s: Step)
  {
    && CallerOk(s.caller) && IsOperation(s.operation) && IsToken(s.scope) && s.looked <= s.read <= |log|
    && Wanted(log[..s.looked], s).Some? && Read(Table(log[..s.read]), s.scope).Success?
  }

  function Plan(log: Log, s: Step): Result<Decision, Error>
    requires Enabled(log, s)
  {
    Remember(Read(Table(log[..s.read]), s.scope).value, Wanted(log[..s.looked], s).value)
  }

  predicate Unused(log: Log, operation: Text) { forall k :: 0 <= k < |log| ==> log[k].operation != operation }

  /** The store refuses a value whose JSON is too long; quoting adds at least its two quotes. */
  predicate Fits(i: Intent, quoted: nat) { |Bytes(i)| + 2 <= quoted <= MAX_VALUE }

  /** The guarded append: count of the scope's intents unchanged, no receipt under the operation. */
  function Next(log: Log, s: Step): Log
  {
    if !Enabled(log, s) then log
    else
      match Plan(log, s)
      case Success(Append(i, count)) =>
        if s.foreign && Fits(i, s.quoted) && |RowsOf(Table(log), s.scope)| == count && Unused(log, s.operation)
        then log + [i]
        else log
      case _ => log
  }

  function After(steps: seq<Step>): Log
  {
    if steps == [] then [] else Next(After(steps[..|steps| - 1]), steps[|steps| - 1])
  }

  // ------------------------------------------------------------------ legality

  /** The draft starts its own subject; an edit names the newest revision; a seal comes once, and last. */
  predicate Legal(history: Log, i: Intent)
  {
    match i.kind
    case Draft => i.subject == i.operation && i.parent.None?
    case Edit => FollowsNewest(history, i) && !HasSeal(history, i.subject)
    case Seal => FollowsNewest(history, i) && !HasSeal(history, i.subject)
    case _ => true
  }

  predicate FollowsNewest(history: Log, i: Intent)
  {
    var revisions := Revisions(history, i.subject);
    revisions != [] && i.parent == Some(revisions[|revisions| - 1].operation)
  }

  ghost predicate LogOk(log: Log)
  {
    && (forall p :: 0 <= p < |log| ==>
          Legal(History(log[..p], log[p].scope), log[p]) && |History(log[..p], log[p].scope)| < MAX_WORK)
    && (forall p, q :: 0 <= p < q < |log| ==> log[p].operation != log[q].operation)
    && (forall p :: 0 <= p < |log| ==> Storable(log[p]))
  }

  /** An intent whose text decodes to it. */
  predicate Storable(i: Intent) { IntentOk(i) && |Bytes(i)| <= MAX_INTENT }

  lemma {:induction false} HistoryGrows(log: Log, t: nat, scope: Text)
    requires t <= |log|
    ensures History(log[..t], scope) <= History(log, scope)
  {
    if t == |log| {
      assert log[..t] == log;
    } else {
      HistoryGrows(log[..|log| - 1], t, scope);
      assert log[..|log| - 1][..t] == log[..t];
    }
  }

  /** An equal count means the scope's history is the one that was read. */
  lemma CountPinsHistory(log: Log, t: nat, scope: Text)
    requires t <= |log| && |History(log[..t], scope)| == |History(log, scope)|
    ensures History(log[..t], scope) == History(log, scope)
  {
    HistoryGrows(log, t, scope);
  }

  lemma LogOkAppend(log: Log, i: Intent)
    requires LogOk(log) && Legal(History(log, i.scope), i) && |History(log, i.scope)| < MAX_WORK
    requires Unused(log, i.operation) && Storable(i)
    ensures LogOk(log + [i])
  {
    hide Legal, History, Storable;
    var more := log + [i];
    forall p | 0 <= p < |more|
      ensures Legal(History(more[..p], more[p].scope), more[p]) && |History(more[..p], more[p].scope)| < MAX_WORK
    {
      assert more[..p] == if p < |log| then log[..p] else log;
    }
  }

  // -------------------------------------------------------- one scope's history

  ghost predicate HistoryOk(h: Log)
  {
    && (forall k :: 0 <= k < |h| ==> Legal(h[..k], h[k]))
    && (forall j, k :: 0 <= j < k < |h| ==> h[j].operation != h[k].operation)
  }

  lemma {:induction false} HistoryHolds(log: Log, scope: Text, i: Intent)
    ensures i in History(log, scope) ==> i in log && i.scope == scope
  {
    if log != [] {
      HistoryHolds(log[..|log| - 1], scope, i);
    }
  }

  lemma LogPrefixOk(log: Log, t: nat)
    requires LogOk(log) && t <= |log|
    ensures LogOk(log[..t])
  {
    hide Legal, History, Storable;
    var short := log[..t];
    forall p | 0 <= p < t
      ensures Legal(History(short[..p], short[p].scope), short[p]) && |History(short[..p], short[p].scope)| < MAX_WORK
    {
      assert short[..p] == log[..p];
    }
  }

  lemma HistoryAppend(h: Log, i: Intent)
    requires HistoryOk(h) && Legal(h, i) && Unused(h, i.operation)
    ensures HistoryOk(h + [i])
  {
    hide Legal;
    var more := h + [i];
    forall k | 0 <= k < |more|
      ensures Legal(more[..k], more[k])
    {
      assert more[..k] == if k < |h| then h[..k] else h;
    }
  }

  /** The newest intent reuses no operation of its scope's history. */
  lemma NewestIsUnused(log: Log, scope: Text)
    requires LogOk(log) && log != []
    ensures Unused(History(log[..|log| - 1], scope), log[|log| - 1].operation)
  {
    hide Legal, History;
    var n := |log| - 1;
    var h := History(log[..n], scope);
    forall j | 0 <= j < |h|
      ensures h[j].operation != log[n].operation
    {
      HistoryHolds(log[..n], scope, h[j]);
      var q :| 0 <= q < n && log[..n][q] == h[j];
      assert log[q].operation != log[n].operation;
    }
  }

  lemma {:induction false} HistoryIsOk(log: Log, scope: Text)
    requires LogOk(log)
    ensures HistoryOk(History(log, scope)) && |History(log, scope)| <= MAX_WORK
  {
    hide Legal, HistoryOk;
    if log == [] {
      NoHistory();
    } else {
      var n := |log| - 1;
      LogPrefixOk(log, n);
      HistoryIsOk(log[..n], scope);
      if log[n].scope == scope {
        NewestIsUnused(log, scope);
        assert Legal(History(log[..n], log[n].scope), log[n]);
        HistoryAppend(History(log[..n], scope), log[n]);
      }
    }
  }

  lemma NoHistory()
    ensures HistoryOk([])
  {
  }

  lemma HistoryPrefixOk(h: Log, t: nat)
    requires HistoryOk(h) && t <= |h|
    ensures HistoryOk(h[..t])
  {
    hide Legal;
    forall k | 0 <= k < t
      ensures Legal(h[..t][..k], h[..t][k])
    {
      assert h[..t][..k] == h[..k];
    }
  }

  // -------------------------------------------------------- reading the rows

  lemma {:induction false} RowsOfTable(log: Log, scope: Text)
    ensures RowsOf(Table(log), scope) == Table(History(log, scope))
  {
    hide Bytes;
    if log != [] {
      var n := |log| - 1;
      RowsOfTable(log[..n], scope);
      assert Table(log)[..n] == Table(log[..n]);
      assert Table(History(log[..n], scope)) + Table([log[n]]) == Table(History(log[..n], scope) + [log[n]]);
    }
  }

  function Operations(h: Log): set<Text> { set k | 0 <= k < |h| :: h[k].operation }

  lemma {:induction false} CollectReads(h: Log, scope: Text, k: nat)
    requires k <= |h| && forall i :: 0 <= i < |h| ==> Storable(h[i]) && h[i].scope == scope
    requires forall i, j :: 0 <= i < j < |h| ==> h[i].operation != h[j].operation
    ensures Collect(Table(h)[k..], scope, Operations(h[..k])) == Success(h[k..])
    decreases |h| - k
  {
    hide IntentOk, Bytes, DecodeIntent;
    if k < |h| {
      assert Storable(h[k]);
      IntentReadsBackExactly(Bytes(h[k]), h[k]);
      CollectReads(h, scope, k + 1);
      assert Table(h)[k..][0] == Table(h)[k] && Table(h)[k..][1..] == Table(h)[k + 1..];
      assert Operations(h[..k + 1]) == Operations(h[..k]) + {h[k].operation} by {
        assert h[..k + 1] == h[..k] + [h[k]];
        forall o | o in Operations(h[..k]) + {h[k].operation}
          ensures o in Operations(h[..k + 1])
        {
          if o in Operations(h[..k]) {
            var j :| 0 <= j < k && h[..k][j].operation == o;
            assert h[..k + 1][j].operation == o;
          } else {
            assert h[..k + 1][k].operation == o;
          }
        }
      }
      assert [h[k]] + h[k + 1..] == h[k..];
    }
  }

  /** Every legal log reads back, row by row, as the history it holds. */
  lemma HistoryReads(log: Log, scope: Text)
    requires LogOk(log)
    ensures Read(Table(log), scope) == Success(History(log, scope))
  {
    hide Legal, Bytes, IntentOk, Collect, Table, RowsOf;
    var h := History(log, scope);
    RowsOfTable(log, scope);
    HistoryIsOk(log, scope);
    forall k | 0 <= k < |h|
      ensures Storable(h[k]) && h[k].scope == scope
    {
      HistoryHolds(log, scope, h[k]);
    }
    CollectReads(h, scope, 0);
    TableLength(h);
    assert h[..0] == [] && h[0..] == h && Table(h)[0..] == Table(h) && Operations([]) == {};
  }

  lemma TableLength(log: Log)
    ensures |Table(log)| == |log|
  {
  }

  // -------------------------------------------------------------- every run

  lemma {:induction false} LookupFinds(h: Log, operation: Text)
    ensures Lookup(h, operation).Some? ==>
              Lookup(h, operation).value in h && Lookup(h, operation).value.operation == operation
  {
    if h != [] {
      LookupFinds(h[1..], operation);
    }
  }

  lemma WantedNames(log: Log, s: Step)
    requires LogOk(log) && CallerOk(s.caller) && IsOperation(s.operation) && IsToken(s.scope) && Wanted(log, s).Some?
    ensures Wanted(log, s).value.operation == s.operation && Wanted(log, s).value.scope == s.scope
    ensures IntentOk(Wanted(log, s).value)
    ensures Wanted(log, s).value.kind.Draft? ==>
              Wanted(log, s).value.subject == s.operation && Wanted(log, s).value.parent.None?
  {
    hide Lookup, History, LogOk, IsOperation, IsToken, Read, Table;
    HistoryReads(log, s.scope);
    if s.caller.EditOf? || s.caller.SealOf? {
      var h := History(log, s.scope);
      LookupFinds(h, s.caller.revision);
      var i := Lookup(h, s.caller.revision).value;
      HistoryHolds(log, s.scope, i);
      LoggedIsOk(log, i);
    }
  }

  lemma LoggedIsOk(log: Log, i: Intent)
    requires LogOk(log) && i in log
    ensures IntentOk(i)
  {
    hide Legal, History, IsOperation, IsToken, Bytes;
  }

  lemma StepKeeps(log: Log, s: Step)
    requires LogOk(log)
    ensures LogOk(Next(log, s))
  {
    hide LogOk, History, Lookup, Revisions, HasSeal, Wanted, Unused, Read, Table, RowsOf, IntentOk, Bytes, IsOperation;
    if Next(log, s) != log {
      var i := Wanted(log[..s.looked], s).value;
      LogPrefixOk(log, s.looked);
      LogPrefixOk(log, s.read);
      WantedNames(log[..s.looked], s);
      HistoryReads(log[..s.read], s.scope);
      RowsOfTable(log, s.scope);
      TableLength(History(log, s.scope));
      CountPinsHistory(log, s.read, s.scope);
      HistoryIsOk(log, s.scope);
      LogOkAppend(log, i);
    }
  }

  lemma {:induction false} EveryRunIsLegal(steps: seq<Step>)
    ensures LogOk(After(steps))
  {
    hide LogOk, Next;
    if steps == [] {
      NothingIsLegal();
    } else {
      EveryRunIsLegal(steps[..|steps| - 1]);
      StepKeeps(After(steps[..|steps| - 1]), steps[|steps| - 1]);
    }
  }

  lemma NothingIsLegal()
    ensures LogOk([])
  {
  }

  // ------------------------------------------------------------ drafts and seals

  /** Where a revision stands: it is the draft itself or names the one right before it. */
  predicate ChainOk(revisions: Log, subject: Text)
  {
    && (revisions != [] ==> revisions[0].kind.Draft? && revisions[0].operation == subject && revisions[0].parent.None?)
    && forall k :: 0 < k < |revisions| ==>
         revisions[k].kind.Edit? && revisions[k].parent == Some(revisions[k - 1].operation)
  }

  lemma {:induction false} RevisionsHold(h: Log, subject: Text, i: Intent)
    ensures i in Revisions(h, subject) ==> i in h && IsRevision(i) && i.subject == subject
  {
    if h != [] {
      RevisionsHold(h[..|h| - 1], subject, i);
    }
  }

  /** The newest intent never reuses the operation of an earlier revision. */
  lemma EarlierRevision(h: Log, subject: Text, i: Intent)
    requires HistoryOk(h) && h != [] && i in Revisions(h[..|h| - 1], subject)
    ensures i.operation != h[|h| - 1].operation
  {
    hide Legal;
    RevisionsHold(h[..|h| - 1], subject, i);
    var q :| 0 <= q < |h| - 1 && h[..|h| - 1][q] == i;
    assert h[q].operation != h[|h| - 1].operation;
  }

  lemma {:induction false} RevisionsChain(h: Log, subject: Text)
    requires HistoryOk(h)
    ensures ChainOk(Revisions(h, subject), subject)
  {
    if h != [] {
      var n := |h| - 1;
      var before, last := Revisions(h[..n], subject), h[n];
      HistoryPrefixOk(h, n);
      RevisionsChain(h[..n], subject);
      assert Legal(h[..n], h[n]);
      if before != [] {
        EarlierRevision(h, subject, before[0]);
      }
    }
  }

  /** The seal of a subject, if any, names its last revision, and is its only one. */
  ghost predicate SealOk(h: Log, subject: Text, p: nat)
    requires p < |h|
  {
    && Revisions(h, subject) != [] && Revisions(h[..p], subject) == Revisions(h, subject)
    && h[p].parent == Some(Revisions(h, subject)[|Revisions(h, subject)| - 1].operation)
    && forall q :: 0 <= q < |h| && IsSealOf(h[q], subject) ==> q == p
  }

  lemma NoSealBefore(h: Log, n: nat, subject: Text)
    requires n <= |h| && !HasSeal(h[..n], subject)
    ensures forall q :: 0 <= q < n ==> !IsSealOf(h[q], subject)
  {
    forall q | 0 <= q < n
      ensures !IsSealOf(h[q], subject)
    {
      assert h[..n][q] == h[q];
    }
  }

  lemma {:induction false} SealIsLast(h: Log, subject: Text, p: nat)
    requires HistoryOk(h) && p < |h| && IsSealOf(h[p], subject)
    ensures SealOk(h, subject, p)
  {
    hide HistoryOk, SealOk, Revisions, Legal, HasSeal;
    var n := |h| - 1;
    HistoryPrefixOk(h, n);
    if p == n {
      NewestSeal(h, subject);
    } else {
      SealFreezes(h, subject, p);
      SealIsLast(h[..n], subject, p);
      SealStays(h, subject, p);
    }
  }

  lemma NewestSeal(h: Log, subject: Text)
    requires HistoryOk(h) && h != [] && IsSealOf(h[|h| - 1], subject)
    ensures SealOk(h, subject, |h| - 1)
  {
    hide HasSeal;
    var n := |h| - 1;
    assert Legal(h[..n], h[n]);
    NoSealBefore(h, n, subject);
  }

  /** A later row that cannot revise or seal a subject again leaves its seal in place. */
  lemma SealStays(h: Log, subject: Text, p: nat)
    requires p < |h| - 1 && SealOk(h[..|h| - 1], subject, p)
    requires !(h[|h| - 1].subject == subject && h[|h| - 1].kind in {Edit, Seal})
    requires h[|h| - 1].kind.Draft? ==> h[|h| - 1].subject != subject || Revisions(h[..|h| - 1], subject) == []
    ensures SealOk(h, subject, p)
  {
    var n := |h| - 1;
    assert h[..n][..p] == h[..p];
    assert forall q :: 0 <= q < n ==> h[q] == h[..n][q];
  }

  lemma SealFreezes(h: Log, subject: Text, p: nat)
    requires HistoryOk(h) && h != [] && p < |h| - 1 && IsSealOf(h[p], subject)
    ensures !(h[|h| - 1].subject == subject && h[|h| - 1].kind in {Edit, Seal})
    ensures h[|h| - 1].kind.Draft? ==> h[|h| - 1].subject != subject || Revisions(h[..|h| - 1], subject) == []
  {
    var n := |h| - 1;
    assert IsSealOf(h[..n][p], subject);
    assert Legal(h[..n], h[n]);
    if Revisions(h[..n], subject) != [] {
      HistoryPrefixOk(h, n);
      RevisionsChain(h[..n], subject);
      EarlierRevision(h, subject, Revisions(h[..n], subject)[0]);
    }
  }

  // ------------------------------------------------------------------- results

  /**
   In every reachable log the draft and edits of a subject are one chain, each
   edit naming the revision immediately before it.
   */
  lemma DraftChainsAreLinear(steps: seq<Step>, scope: Text, subject: Text)
    ensures ChainOk(Revisions(History(After(steps), scope), subject), subject)
  {
    hide LogOk, After, History, Revisions, HistoryOk, ChainOk;
    EveryRunIsLegal(steps);
    HistoryIsOk(After(steps), scope);
    RevisionsChain(History(After(steps), scope), subject);
  }

  /** At most one seal per subject; it names the last revision, and nothing edits after it. */
  lemma SealsFreeze(steps: seq<Step>, scope: Text, subject: Text, p: nat)
    requires p < |History(After(steps), scope)| && IsSealOf(History(After(steps), scope)[p], subject)
    ensures SealOk(History(After(steps), scope), subject, p)
  {
    hide LogOk, After, History, HistoryOk, SealOk;
    EveryRunIsLegal(steps);
    HistoryIsOk(After(steps), scope);
    SealIsLast(History(After(steps), scope), subject, p);
  }

  lemma {:induction false} LookupIsUnique(h: Log, k: nat)
    requires HistoryOk(h) && k < |h|
    ensures Lookup(h, h[k].operation) == Some(h[k])
  {
    hide Legal;
    if k > 0 {
      assert h[0].operation != h[k].operation;
      LookupTail(h[1..], h, k);
    }
  }

  lemma {:induction false} LookupTail(tail: Log, h: Log, k: nat)
    requires 0 < k < |h| && |tail| <= |h| && tail == h[|h| - |tail|..] && |h| - |tail| <= k
    requires forall i, j :: 0 <= i < j < |h| ==> h[i].operation != h[j].operation
    ensures Lookup(tail, h[k].operation) == Some(h[k])
  {
    var at := |h| - |tail|;
    assert tail[0] == h[at];
    if at != k {
      assert h[at].operation != h[k].operation;
      LookupTail(tail[1..], h, k);
    }
  }

  /**
   The rows of every reachable log read back, and repeating a past request finds
   the original. No step under a used operation, of any kind, from any scope and
   with reads however stale, adds a row.
   */
  lemma RepeatsReturnTheOriginal(steps: seq<Step>, scope: Text, k: nat, again: Intent, s: Step)
    requires k < |History(After(steps), scope)|
    requires again == History(After(steps), scope)[k].(actor := again.actor)
    requires s.operation == again.operation
    ensures Read(Table(After(steps)), scope) == Success(History(After(steps), scope))
    ensures Remember(History(After(steps), scope), again) == Success(Existing(History(After(steps), scope)[k]))
    ensures Next(After(steps), s) == After(steps)
  {
    hide LogOk, After, History, Legal, Lookup, Read, Enabled, Plan;
    EveryRunIsLegal(steps);
    HistoryIsOk(After(steps), scope);
    HistoryReads(After(steps), scope);
    LookupIsUnique(History(After(steps), scope), k);
    HistoryHolds(After(steps), scope, History(After(steps), scope)[k]);
    assert !Unused(After(steps), s.operation);
  }
}
