/** `ORDER BY id DESC` over a set of row ids, and reading rows out of a table in a given id order. */
module Sorting {
  import opened Domain

  /** No id of `s` exceeds `m`. */
  predicate Bounds(m: int, s: set<int>)
  {
    forall y :: y in s ==> y <= m
  }

  /** Set extensionality, stated so that a non-empty set yields an element. */
  lemma NoElementsIsEmpty(s: set<int>)
    ensures (forall y :: y !in s) ==> s == {}
  {
    if forall y :: y !in s {
      var none: set<int> := {};
      assert forall y :: y in s <==> y in none;
    }
  }

  /** A finite non-empty set of ids has a largest element. */
  lemma {:induction false} LargestId(s: set<int>) returns (top: int)
    requires s != {}
    ensures top in s && Bounds(top, s)
    decreases |s|
  {
    NoElementsIsEmpty(s);
    var x: int :| x in s;
    var rest := s - {x};
    if rest == {} {
      top := x;
      forall y | y in s ensures y <= x { assert y !in rest; }
    } else {
      var m := LargestId(rest);
      top := if x > m then x else m;
      forall y | y in s ensures y <= top {
        if y != x { assert y in rest; }
      }
    }
  }

  function MaxOf(s: set<int>): (m: int)
    requires s != {}
    ensures m in s && Bounds(m, s)
  {
    assert exists m :: m in s && Bounds(m, s) by { var top := LargestId(s); }
    var m :| m in s && Bounds(m, s);
    m
  }

  predicate Descending(ids: seq<int>)
  {
    forall i, j :: 0 <= i < j < |ids| ==> ids[i] > ids[j]
  }

  /** The ids of `s`, each once, largest first. */
  function SortedDesc(s: set<int>): (ids: seq<int>)
    ensures |ids| == |s|
    ensures forall x :: x in ids <==> x in s
    ensures Descending(ids)
    decreases |s|
  {
    if s == {} then []
    else
      var m := MaxOf(s);
      var rest := SortedDesc(s - {m});
      PrependLargest(m, s - {m}, rest);
      [m] + rest
  }

  lemma PrependLargest(m: int, s: set<int>, rest: seq<int>)
    requires m !in s && Bounds(m, s)
    requires forall x :: x in rest <==> x in s
    requires Descending(rest)
    ensures Descending([m] + rest)
  {
    var ids := [m] + rest;
    forall i, j | 0 <= i < j < |ids| ensures ids[i] > ids[j] {
      assert ids[j] == rest[j - 1] && rest[j - 1] in s;
      if i > 0 { assert ids[i] == rest[i - 1]; }
    }
  }

  /** The ids of a list of rows. */
  function RowIds<V>(rows: seq<Row<V>>): set<int>
  {
    set k | 0 <= k < |rows| :: rows[k].id
  }

  /** The rows of `table` under `ids`, in that order. */
  function RowsOf<V>(table: map<int, V>, ids: seq<int>): (rows: seq<Row<V>>)
    requires forall i :: 0 <= i < |ids| ==> ids[i] in table
    ensures |rows| == |ids|
    ensures forall k :: 0 <= k < |ids| ==> rows[k] == Row(ids[k], table[ids[k]])
  {
    if ids == [] then [] else [Row(ids[0], table[ids[0]])] + RowsOf(table, ids[1..])
  }

  lemma SameIds<V>(rows: seq<Row<V>>, order: seq<int>, ids: set<int>)
    requires |rows| == |order| && forall k :: 0 <= k < |order| ==> rows[k].id == order[k]
    requires forall x :: x in order <==> x in ids
    ensures RowIds(rows) == ids
  {
    forall x | x in ids ensures x in RowIds(rows) {
      var k :| 0 <= k < |order| && order[k] == x;
      assert rows[k].id == x;
    }
  }

  /** `SELECT ... WHERE id IN ids ORDER BY id DESC`: exactly the rows of `ids`, each with the
      data stored under its id, newest (largest id) first. */
  function RowsDesc<V>(table: map<int, V>, ids: set<int>): (rows: seq<Row<V>>)
    requires ids <= table.Keys
    ensures RowIds(rows) == ids
    ensures forall k :: 0 <= k < |rows| ==> rows[k].id in ids && rows[k].id in table && rows[k].data == table[rows[k].id]
    ensures forall i, j :: 0 <= i < j < |rows| ==> rows[i].id > rows[j].id
  {
    var order := SortedDesc(ids);
    var rows := RowsOf(table, order);
    SameIds(rows, order, ids);
    rows
  }
}
