/** A keyed collection that also remembers insertion order, as a JavaScript
    `Map` does: `set` on a new key appends it, `set` on an existing key keeps
    its position, `delete` removes it, and `values()` iterates in that order. */
module Tables {
  import opened Basics
  import opened Seqs

  /** Entity identifiers (the source uses UUID strings). */
  type Id = string

  datatype Table<T> = Table(rows: map<Id, T>, order: seq<Id>)

  /** The order lists every key exactly once. */
  ghost predicate Valid<T>(t: Table<T>) {
    && Distinct(t.order)
    && (forall k :: k in t.rows <==> k in t.order)
  }

  type WfTable<T> = t: Table<T> | Valid(t) witness Table(map[], [])

  function Empty<T>(): (t: WfTable<T>)
    ensures t.rows == map[]
  {
    Table(map[], [])
  }

  /** `Map.prototype.get`. */
  function Get<T>(t: WfTable<T>, k: Id): (r: Option<T>)
    ensures r.Some? <==> k in t.rows
    ensures r.Some? ==> r.value == t.rows[k]
  {
    if k in t.rows then Some(t.rows[k]) else None
  }

  /** `Map.prototype.set`: a new key goes to the end of the order. */
  function Put<T>(t: WfTable<T>, k: Id, v: T): (r: WfTable<T>)
    ensures r.rows == t.rows[k := v]
    ensures k in t.rows ==> r.order == t.order
    ensures k !in t.rows ==> r.order == t.order + [k]
  {
    if k in t.rows then Table(t.rows[k := v], t.order)
    else
      assert Distinct(t.order + [k]) by {
        var o := t.order + [k];
        forall i, j | 0 <= i < j < |o| ensures o[i] != o[j] {
          if j == |o| - 1 {
            assert o[i] == t.order[i] && o[i] in t.order;
          }
        }
      }
      Table(t.rows[k := v], t.order + [k])
  }

  /** `Map.prototype.delete`: the key leaves both the rows and the order; the
      other keys keep their relative order, and a missing key changes nothing. */
  function Remove<T>(t: WfTable<T>, k: Id): (r: WfTable<T>)
    ensures r.rows == t.rows - {k}
    ensures IsSubseq(r.order, t.order)
    ensures k !in t.rows ==> r == t
  {
    var order := Filter(t.order, (x: Id) => x != k);
    FilterMembership(t.order, (x: Id) => x != k);
    FilterDistinct(t.order, (x: Id) => x != k);
    FilterIsSubseq(t.order, (x: Id) => x != k);
    if k !in t.rows then
      FilterKeepsAll(t.order, (x: Id) => x != k);
      assert t.rows - {k} == t.rows;
      Table(t.rows - {k}, order)
    else
      Table(t.rows - {k}, order)
  }

  /** The stored values of `rows` in the order of `order`, skipping keys
      without a row. */
  function ValuesOf<T>(rows: map<Id, T>, order: seq<Id>): (r: seq<T>)
    ensures |r| <= |order|
  {
    if |order| == 0 then []
    else if order[0] in rows then [rows[order[0]]] + ValuesOf(rows, order[1..])
    else ValuesOf(rows, order[1..])
  }

  /** `Array.from(map.values())`. */
  function Values<T>(t: WfTable<T>): seq<T> {
    ValuesOf(t.rows, t.order)
  }

  lemma {:induction false} ValuesOfMembership<T>(rows: map<Id, T>, order: seq<Id>)
    ensures forall v :: v in ValuesOf(rows, order) <==>
      exists i :: 0 <= i < |order| && order[i] in rows && rows[order[i]] == v
  {
    if |order| > 0 {
      ValuesOfMembership(rows, order[1..]);
      forall v ensures v in ValuesOf(rows, order) <==>
        exists i :: 0 <= i < |order| && order[i] in rows && rows[order[i]] == v
      {
        if exists i :: 0 <= i < |order| && order[i] in rows && rows[order[i]] == v {
          var i :| 0 <= i < |order| && order[i] in rows && rows[order[i]] == v;
          if i > 0 {
            assert order[1..][i - 1] == order[i];
          }
        }
        if v in ValuesOf(rows, order[1..]) {
          var i :| 0 <= i < |order[1..]| && order[1..][i] in rows && rows[order[1..][i]] == v;
          assert order[i + 1] == order[1..][i];
        }
      }
    }
  }

  /** The listed values are exactly the stored ones. */
  lemma ValuesMembership<T>(t: WfTable<T>)
    ensures forall v :: v in Values(t) <==> v in t.rows.Values
  {
    ValuesOfMembership(t.rows, t.order);
    forall v | v in t.rows.Values ensures v in Values(t) {
      var k :| k in t.rows && t.rows[k] == v;
      var i :| 0 <= i < |t.order| && t.order[i] == k;
    }
  }

  /** A value is listed once per key that holds it: the listing has one
      entry per stored row. */
  lemma {:induction false} ValuesOfLength<T>(rows: map<Id, T>, order: seq<Id>)
    requires Distinct(order)
    requires forall k :: k in rows <==> k in order
    ensures |ValuesOf(rows, order)| == |rows|
    decreases |order|
  {
    if |order| > 0 {
      var k := order[0];
      var rest := rows - {k};
      assert Distinct(order[1..]) by {
        forall i, j | 0 <= i < j < |order[1..]| ensures order[1..][i] != order[1..][j] {
          assert order[1..][i] == order[i + 1] && order[1..][j] == order[j + 1];
        }
      }
      assert forall x :: x in rest <==> x in order[1..] by {
        forall x ensures x in rest <==> x in order[1..] {
          if x in order[1..] {
            var j :| 0 <= j < |order[1..]| && order[1..][j] == x;
            assert order[j + 1] == x;
          }
          if x in rows && x != k {
            var j :| 0 <= j < |order| && order[j] == x;
            assert order[1..][j - 1] == x;
          }
        }
      }
      ValuesOfLength(rest, order[1..]);
      ValuesOfAgree(rows, rest, order[1..]);
      assert |rest| == |rows| - 1;
    }
  }

  /** Rows outside `order` do not affect the listing. */
  lemma {:induction false} ValuesOfAgree<T>(rows: map<Id, T>, rows': map<Id, T>, order: seq<Id>)
    requires forall k :: k in order ==> (k in rows <==> k in rows') && (k in rows ==> rows[k] == rows'[k])
    ensures ValuesOf(rows, order) == ValuesOf(rows', order)
  {
    if |order| > 0 {
      assert order[0] in order;
      assert forall k :: k in order[1..] ==> k in order;
      ValuesOfAgree(rows, rows', order[1..]);
    }
  }

  lemma ValuesLength<T>(t: WfTable<T>)
    ensures |Values(t)| == |t.rows|
  {
    ValuesOfLength(t.rows, t.order);
  }
}
