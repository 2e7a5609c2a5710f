/** Scoped holds, and exactly what a held scope still lets through. */
module Custody {
  import opened Wrappers
  import opened Framing
  import opened Tokens
  import opened ActionDb
  import opened ActionHandoff

  datatype HoldKind = ActiveHold | MaskedHold

  datatype Hold = Hold(kind: HoldKind, reason: Text)

  predicate ScopeOk(scope: Text)
  {
    IsToken(scope) && scope !in {"VERDANT_BEGIN", "VERDANT_DATA", "VERDANT_END"}
  }

  /** One to 256 bytes without control characters. */
  predicate ReasonOk(reason: Text)
  {
    && 0 < |reason| <= 256
    && forall i :: 0 <= i < |reason| ==>
         && reason[i] as int >= 0x20 && reason[i] as int != 0x7F
         && !(reason[i] as int == 0xC2 && i + 1 < |reason| && reason[i + 1] as int < 0xA0)
  }

  class ScopeHolds {
    var held: map<Text, Hold>

    constructor ()
      ensures held == map[]
    {
      held := map[];
    }

    /** The scopes that a handoff finds held. */
    function Scopes(): set<Text>
      reads this
    {
      held.Keys
    }

    /**
     Hold one scope. From then on no SET of that scope is authorised, whatever
     its row and readings, and handoffs of other scopes fare as they did before.
     */
    method HoldScope(scope: Text, kind: HoldKind, reason: Text) returns (ok: bool)
      modifies this
      ensures ok <==> ScopeOk(scope) && ReasonOk(reason)
      ensures held == if ok then old(held)[scope := Hold(kind, reason)] else old(held)
      ensures ok ==> forall db, h :: Meets(h, scope, Scopes()) ==> Authorize(db, h, Set).Failure?
      ensures forall db, h: Handoff, k :: h.held == Scopes() && h.scope != scope ==>
                Authorize(db, h, k) == Authorize(db, h.(held := old(Scopes())), k)
    {
      hide Authorize;
      ok := ScopeOk(scope) && ReasonOk(reason);
      if ok {
        held := held[scope := Hold(kind, reason)];
      }
      HeldScopesStop(scope, Scopes());
      OtherScopesProceed(scope, Scopes(), old(Scopes()));
    }

    /**
     Release one scope. Its handoffs then fare as if nothing were held, and
     those of other scopes as they did before; an unheld scope may be released.
     */
    method ReleaseScope(scope: Text) returns (ok: bool)
      modifies this
      ensures ok <==> 0 < |scope| <= 128
      ensures held == if ok then old(held) - {scope} else old(held)
      ensures ok ==> forall db, h, k :: Meets(h, scope, Scopes()) ==>
                Authorize(db, h, k) == Authorize(db, h.(held := {}), k)
      ensures forall db, h: Handoff, k :: h.held == Scopes() && h.scope != scope ==>
                Authorize(db, h, k) == Authorize(db, h.(held := old(Scopes())), k)
    {
      hide Authorize;
      ok := 0 < |scope| <= 128;
      if ok {
        held := held - {scope};
      }
      OtherScopesProceed(scope, Scopes(), old(Scopes()));
      if ok {
        ReleasedScopesProceed(scope, Scopes());
      }
    }
  }

  /** A handoff of one scope that finds exactly these scopes held. */
  predicate Meets(h: Handoff, scope: Text, held: set<Text>) { h.scope == scope && h.held == held }

  lemma HeldScopesStop(scope: Text, held: set<Text>)
    ensures scope in held ==> forall db, h :: Meets(h, scope, held) ==> Authorize(db, h, Set).Failure?
  {
    hide Authorize;
    forall db, h | scope in held && Meets(h, scope, held)
      ensures Authorize(db, h, Set).Failure?
    {
      if Authorize(db, h, Set).Success? {
        HeldScopeStops(db, h, Set);
      }
    }
  }

  lemma ReleasedScopesProceed(scope: Text, held: set<Text>)
    requires scope !in held
    ensures forall db, h, k :: Meets(h, scope, held) ==> Authorize(db, h, k) == Authorize(db, h.(held := {}), k)
  {
    hide Authorize;
    forall db, h, k | Meets(h, scope, held)
      ensures Authorize(db, h, k) == Authorize(db, h.(held := {}), k)
    {
      HoldsAreScoped(db, h, k, {});
    }
  }

  lemma OtherScopesProceed(scope: Text, held: set<Text>, before: set<Text>)
    requires forall other :: other != scope ==> (other in held <==> other in before)
    ensures forall db, h: Handoff, k :: h.held == held && h.scope != scope ==>
              Authorize(db, h, k) == Authorize(db, h.(held := before), k)
  {
    hide Authorize;
    forall db, h: Handoff, k | h.held == held && h.scope != scope
      ensures Authorize(db, h, k) == Authorize(db, h.(held := before), k)
    {
      HoldsAreScoped(db, h, k, before);
    }
  }

  /** A SET never passes a held scope; a release passes only for its admitted original target. */
  lemma HeldScopeStops(db: Db, h: Handoff, kind: Kind)
    requires h.scope in h.held && Authorize(db, h, kind).Success?
    ensures kind.Release? && RowFor(db.rows, h.operation, h.scope).Some?
    ensures OriginalRelease(RowFor(db.rows, h.operation, h.scope).value, h.preview)
  {
    hide PrepareSet, PrepareRelease, SharedGates, OriginalRelease;
    RowForScope(db.rows, h.operation, h.scope);
  }

  lemma {:induction false} RowForScope(rows: seq<Row>, operation: Text, scope: Text)
    ensures RowFor(rows, operation, scope).Some? ==> RowFor(rows, operation, scope).value.target.scope == scope
  {
    if rows != [] && !(rows[0].operation == operation && rows[0].target.scope == scope) {
      RowForScope(rows[1..], operation, scope);
    }
  }

  /** Holds elsewhere change nothing: a handoff depends only on whether its own scope is held. */
  lemma HoldsAreScoped(db: Db, h: Handoff, kind: Kind, other: set<Text>)
    requires h.scope in h.held <==> h.scope in other
    ensures Authorize(db, h.(held := other), kind) == Authorize(db, h, kind)
  {
    hide RowFor;
    RowForScope(db.rows, h.operation, h.scope);
    if RowFor(db.rows, h.operation, h.scope).Some? {
      SameGates(RowFor(db.rows, h.operation, h.scope).value, h, other);
    }
  }

  lemma SameGates(row: Row, h: Handoff, other: set<Text>)
    requires row.target.scope in h.held <==> row.target.scope in other
    ensures SetGates(row, h.(held := other)) == SetGates(row, h)
    ensures ReleaseGates(row, h.(held := other)) == ReleaseGates(row, h)
  {
  }
}
