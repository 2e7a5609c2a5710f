/**
 The exact-snapshot guard shared by access, binding and acceptance writers: the
 row count is what it was, and every captured row is still there.
 */
module Snapshot {
  /** A stored row: its id, and the columns that the guard compares. */
  datatype Stored<C> = Stored(id: nat, columns: C)

  /** Row ids strictly increase. */
  predicate Ascending<C>(table: seq<Stored<C>>)
  {
    forall i, j :: 0 <= i < j < |table| ==> table[i].id < table[j].id
  }

  /** The guard's truth at commit. */
  predicate GuardHolds<C(==)>(captured: seq<Stored<C>>, table: seq<Stored<C>>)
  {
    |table| == |captured| && forall k :: 0 <= k < |captured| ==> captured[k] in table
  }

  /** The rows before the last captured one lie before it in the table too. */
  lemma EarlierRows<C>(a: seq<Stored<C>>, b: seq<Stored<C>>) returns (k: nat)
    requires a != [] && Ascending(a) && Ascending(b)
    requires forall i :: 0 <= i < |a| ==> a[i] in b
    ensures k < |b| && b[k] == a[|a| - 1]
    ensures forall i :: 0 <= i < |a| - 1 ==> a[i] in b[..k]
  {
    var n := |a| - 1;
    assert a[n] in b;
    k :| 0 <= k < |b| && b[k] == a[n];
    forall i | 0 <= i < n
      ensures a[i] in b[..k]
    {
      var j :| 0 <= j < |b| && b[j] == a[i];
      assert b[..k][j] == a[i];
    }
  }

  lemma {:induction false} AscendingWithin<C>(a: seq<Stored<C>>, b: seq<Stored<C>>)
    requires Ascending(a) && Ascending(b)
    requires forall k :: 0 <= k < |a| ==> a[k] in b
    ensures |a| <= |b| && (|a| == |b| ==> a == b)
  {
    if a != [] {
      var n := |a| - 1;
      var k := EarlierRows(a, b);
      AscendingWithin(a[..n], b[..k]);
      if |a| == |b| {
        assert b[..k] + [b[k]] == b;
        assert a[..n] + [a[n]] == a;
      }
    }
  }

  /**
   Count plus membership is equality: between id-ordered tables the guard holds
   exactly when nothing was added, removed or edited.
   */
  lemma GuardIsEquality<C>(captured: seq<Stored<C>>, table: seq<Stored<C>>)
    requires Ascending(captured) && Ascending(table)
    ensures GuardHolds(captured, table) <==> captured == table
  {
    if GuardHolds(captured, table) {
      AscendingWithin(captured, table);
    }
  }
}
