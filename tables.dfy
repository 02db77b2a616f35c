/** A database table as the model keeps it: a map from row id to row, and the
    ids in ascending order, which is the order SQLite hands rows back when a
    query or a relationship gives no ORDER BY. A new row takes the largest id
    plus one, as an INTEGER PRIMARY KEY without AUTOINCREMENT does. */
module Tables {

  predicate Increasing(s: seq<int>) {
    forall i, j :: 0 <= i < j < |s| ==> s[i] < s[j]
  }

  /** `order` lists the keys of `m`, each once, in ascending order. */
  predicate Keys<T>(order: seq<int>, m: map<int, T>) {
    Increasing(order) && (forall k :: k in m ==> k in order) && (forall k :: k in order ==> k in m)
  }

  /** The id SQLite gives the next row. */
  function NextId(order: seq<int>): (n: int)
    ensures Increasing(order) ==> forall k :: k in order ==> k < n
  {
    if order == [] then 1
    else
      assert forall i :: 0 <= i < |order| ==> order[i] in order;
      order[|order| - 1] + 1
  }

  /** The rows of the table, in id order. */
  function Rows<T(==)>(order: seq<int>, m: map<int, T>): (rs: seq<T>)
    ensures |rs| <= |order|
    ensures forall x :: x in rs ==> x in m.Values
  {
    if order == [] then []
    else
      var init, k := order[..|order| - 1], order[|order| - 1];
      if k in m then Rows(init, m) + [m[k]] else Rows(init, m)
  }

  /** The key a row of the table is stored under. */
  lemma {:induction false} RowKey<T>(order: seq<int>, m: map<int, T>, x: T) returns (k: int)
    requires x in Rows(order, m)
    ensures k in order && k in m && m[k] == x
  {
    var init, last := order[..|order| - 1], order[|order| - 1];
    if last in m && x == m[last] {
      k := last;
    } else {
      k := RowKey(init, m, x);
      assert order[..|order| - 1] == init;
    }
  }

  /** The ids of `order` other than `id`, in order. */
  function Without(order: seq<int>, id: int): (r: seq<int>)
    ensures forall k :: k in r <==> k in order && k != id
  {
    if order == [] then []
    else
      var init, k := order[..|order| - 1], order[|order| - 1];
      assert forall x :: x in order <==> x in init || x == k;
      if k == id then Without(init, id) else Without(init, id) + [k]
  }

  /** Removing an id keeps the order ascending. */
  lemma {:induction false} WithoutIncreasing(order: seq<int>, id: int)
    requires Increasing(order)
    ensures Increasing(Without(order, id))
  {
    if order != [] {
      var init, k := order[..|order| - 1], order[|order| - 1];
      WithoutIncreasing(init, id);
      var head := Without(init, id);
      forall i | 0 <= i < |head| ensures head[i] < k {
        assert head[i] in head;
        var j :| 0 <= j < |init| && init[j] == head[i];
        assert order[j] == init[j];
      }
    }
  }

  /** Inserting a row under the next id keeps the table well formed. */
  lemma InsertNext<T>(order: seq<int>, m: map<int, T>, v: T)
    requires Keys(order, m)
    ensures NextId(order) !in m
    ensures Keys(order + [NextId(order)], m[NextId(order) := v])
  {
  }

  /** A row inserted under the next id comes last in the table's order. */
  lemma InsertNextRows<T>(order: seq<int>, m: map<int, T>, v: T)
    requires Keys(order, m)
    ensures Rows(order + [NextId(order)], m[NextId(order) := v]) == Rows(order, m) + [v]
  {
    var n := NextId(order);
    var o := order + [n];
    assert o[..|o| - 1] == order;
    RowsFrame(order, m, n, v);
  }

  /** Changing the row under a key the order does not list leaves the rows
      as they are. */
  lemma {:induction false} RowsFrame<T>(order: seq<int>, m: map<int, T>, n: int, v: T)
    requires n !in order
    ensures Rows(order, m[n := v]) == Rows(order, m)
  {
    if order != [] {
      RowsFrame(order[..|order| - 1], m, n, v);
    }
  }

  /** Overwriting a row keeps the table well formed. */
  lemma UpdateKeeps<T>(order: seq<int>, m: map<int, T>, id: int, v: T)
    requires Keys(order, m) && id in m
    ensures Keys(order, m[id := v])
  {
  }

  /** Deleting a row keeps the table well formed. */
  lemma RemoveKeeps<T>(order: seq<int>, m: map<int, T>, id: int)
    requires Keys(order, m)
    ensures Keys(Without(order, id), m - {id})
  {
    WithoutIncreasing(order, id);
  }
}
