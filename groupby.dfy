/**
 * pandas' `groupby(keys)[col].agg(...)`, generically: the rows are folded
 * one by one into a list of groups kept sorted by key (pandas sorts group
 * keys by default), creating a group the first time a key is seen and
 * updating it afterwards.
 */
module GroupBy {
  import opened Meter

  datatype Group<K, A> = Group(key: K, value: A)

  /** The order pandas uses to sort the group keys. */
  ghost predicate StrictTotalOrder<K(!new)>(lt: (K, K) -> bool)
  {
    && (forall a :: !lt(a, a))
    && (forall a, b, c :: lt(a, b) && lt(b, c) ==> lt(a, c))
    && (forall a, b :: a == b || lt(a, b) || lt(b, a))
  }

  predicate Sorted<K, A>(gs: seq<Group<K, A>>, lt: (K, K) -> bool)
  {
    forall i, j :: 0 <= i < j < |gs| ==> lt(gs[i].key, gs[j].key)
  }

  ghost function Keys<K, A>(gs: seq<Group<K, A>>): set<K>
  {
    set g | g in gs :: g.key
  }

  /** The keys that occur in the rows. */
  function RowKeys<K>(rows: seq<Row>, key: Row -> K): set<K>
  {
    set r | r in rows :: key(r)
  }

  /** The rows of one group, in table order. */
  function Where<K(==)>(rows: seq<Row>, key: Row -> K, k: K): (s: seq<Row>)
    ensures |s| <= |rows|
  {
    if |rows| == 0 then []
    else
      var w := Where(rows[..|rows| - 1], key, k);
      if key(rows[|rows| - 1]) == k then w + [rows[|rows| - 1]] else w
  }

  /** The aggregate of a non-empty group: `first` on its first row, then `step` on each further row. */
  function Fold<A>(s: seq<Row>, first: Row -> A, step: (A, Row) -> A): A
    requires |s| > 0
  {
    if |s| == 1 then first(s[0]) else step(Fold(s[..|s| - 1], first, step), s[|s| - 1])
  }

  /** The position of key `k` in a sorted group list, or where it belongs. */
  function Slot<K, A>(gs: seq<Group<K, A>>, k: K, lt: (K, K) -> bool): (p: nat)
    ensures p <= |gs|
    ensures forall i :: 0 <= i < p ==> lt(gs[i].key, k)
    ensures p < |gs| ==> !lt(gs[p].key, k)
  {
    if |gs| == 0 || !lt(gs[0].key, k) then 0 else 1 + Slot(gs[1..], k, lt)
  }

  /** Adds row `r` under key `k`: updates the group of `k`, or inserts a new one in key order. */
  function Upsert<K(==), A>(gs: seq<Group<K, A>>, k: K, r: Row, lt: (K, K) -> bool,
                            first: Row -> A, step: (A, Row) -> A): seq<Group<K, A>>
  {
    var p := Slot(gs, k, lt);
    if p < |gs| && gs[p].key == k then gs[p := Group(k, step(gs[p].value, r))]
    else gs[..p] + [Group(k, first(r))] + gs[p..]
  }

  /** The grouped and aggregated table. */
  function Aggregate<K(==), A>(rows: seq<Row>, key: Row -> K, lt: (K, K) -> bool,
                               first: Row -> A, step: (A, Row) -> A): seq<Group<K, A>>
  {
    if |rows| == 0 then []
    else
      var r := rows[|rows| - 1];
      Upsert(Aggregate(rows[..|rows| - 1], key, lt, first, step), key(r), r, lt, first, step)
  }

  /** A group holds the aggregate of exactly the rows that carry its key. */
  ghost predicate Summarises<K, A>(g: Group<K, A>, rows: seq<Row>, key: Row -> K,
                                       first: Row -> A, step: (A, Row) -> A)
  {
    var s := Where(rows, key, g.key);
    |s| > 0 && g.value == Fold(s, first, step)
  }

  lemma {:induction false} WhereOfAbsentKey<K>(rows: seq<Row>, key: Row -> K, k: K)
    requires k !in RowKeys(rows, key)
    ensures Where(rows, key, k) == []
    decreases |rows|
  {
    if |rows| > 0 {
      var pre := rows[..|rows| - 1];
      assert RowKeys(pre, key) <= RowKeys(rows, key) by {
        forall x | x in RowKeys(pre, key) ensures x in RowKeys(rows, key) {
          var r :| r in pre && key(r) == x;
          assert r in rows;
        }
      }
      assert rows[|rows| - 1] in rows;
      WhereOfAbsentKey(pre, key, k);
    }
  }

  lemma RowKeysSnoc<K>(rows: seq<Row>, key: Row -> K)
    requires |rows| > 0
    ensures RowKeys(rows, key) == RowKeys(rows[..|rows| - 1], key) + {key(rows[|rows| - 1])}
  {
    var pre := rows[..|rows| - 1];
    assert rows == pre + [rows[|rows| - 1]];
    forall x | x in RowKeys(rows, key) ensures x in RowKeys(pre, key) + {key(rows[|rows| - 1])} {
      var r :| r in rows && key(r) == x;
    }
    forall x | x in RowKeys(pre, key) ensures x in RowKeys(rows, key) {
      var r :| r in pre && key(r) == x;
      assert r in rows;
    }
  }

  /** Inserting or updating keeps the list sorted, adds exactly `k`, and touches only the group of `k`. */
  lemma UpsertShape<K(!new), A>(gs: seq<Group<K, A>>, k: K, r: Row, lt: (K, K) -> bool,
                              first: Row -> A, step: (A, Row) -> A)
    requires StrictTotalOrder(lt) && Sorted(gs, lt)
    ensures var u := Upsert(gs, k, r, lt, first, step);
      && Sorted(u, lt)
      && Keys(u) == Keys(gs) + {k}
      && (forall g :: g in u && g.key != k ==> g in gs)
      && (forall g :: g in gs && g.key != k ==> g in u)
      && (forall g :: g in u && g.key == k ==>
            (exists g0 :: g0 in gs && g0.key == k && g.value == step(g0.value, r))
            || (k !in Keys(gs) && g.value == first(r)))
  {
    var p := Slot(gs, k, lt);
    var u := Upsert(gs, k, r, lt, first, step);
    if p < |gs| && gs[p].key == k {
      assert u == gs[p := Group(k, step(gs[p].value, r))];
      forall i | 0 <= i < |gs| && i != p ensures gs[i].key != k {
        if i < p { assert lt(gs[i].key, gs[p].key); } else { assert lt(gs[p].key, gs[i].key); }
      }
      forall g | g in u && g.key != k ensures g in gs {
        var i :| 0 <= i < |u| && u[i] == g;
      }
      forall g | g in gs && g.key != k ensures g in u {
        var i :| 0 <= i < |gs| && gs[i] == g;
        assert u[i] == g;
      }
      forall g | g in u && g.key == k
        ensures exists g0 :: g0 in gs && g0.key == k && g.value == step(g0.value, r)
      {
        var i :| 0 <= i < |u| && u[i] == g;
        assert i == p;
        assert gs[p] in gs;
      }
      assert Keys(u) == Keys(gs) + {k} by {
        forall x | x in Keys(u) ensures x in Keys(gs) + {k} {
          var g :| g in u && g.key == x;
          if x != k { assert g in gs; }
        }
        forall x | x in Keys(gs) ensures x in Keys(u) {
          var g :| g in gs && g.key == x;
          if x != k { assert g in u; } else { assert u[p] in u; }
        }
        assert u[p] in u;
      }
    } else {
      var ng := Group(k, first(r));
      assert u == gs[..p] + [ng] + gs[p..];
      forall i | 0 <= i < |gs| ensures gs[i].key != k {
        if i < p {
          assert lt(gs[i].key, k);
        } else {
          assert gs[p].key != k && !lt(gs[p].key, k);
          assert lt(k, gs[p].key);
          if i > p { assert lt(gs[p].key, gs[i].key); }
        }
      }
      assert k !in Keys(gs);
      forall i | p <= i < |gs| ensures lt(k, gs[i].key) {
        assert lt(k, gs[p].key);
        if i > p { assert lt(gs[p].key, gs[i].key); }
      }
      assert |u| == |gs| + 1;
      assert forall i :: 0 <= i < p ==> u[i] == gs[i];
      assert u[p] == ng;
      assert forall i :: p < i < |u| ==> u[i] == gs[i - 1];
      forall i, j | 0 <= i < j < |u| ensures lt(u[i].key, u[j].key) {
        if j < p {
        } else if j == p {
        } else if i < p {
          assert lt(gs[i].key, k) && lt(k, gs[j - 1].key);
        } else if i == p {
        } else {
          assert lt(gs[i - 1].key, gs[j - 1].key);
        }
      }
      forall g | g in u && g.key != k ensures g in gs {
        var i :| 0 <= i < |u| && u[i] == g;
        if i < p { assert g == gs[i]; } else { assert i > p && g == gs[i - 1]; }
      }
      forall g | g in gs && g.key != k ensures g in u {
        var i :| 0 <= i < |gs| && gs[i] == g;
        if i < p { assert u[i] == g; } else { assert u[i + 1] == g; }
      }
      assert forall i :: 0 <= i < |u| && i != p ==> u[i].key != k;
      forall g | g in u && g.key == k ensures g.value == first(r) {
        var i :| 0 <= i < |u| && u[i] == g;
      }
      assert Keys(u) == Keys(gs) + {k} by {
        forall x | x in Keys(u) ensures x in Keys(gs) + {k} {
          var g :| g in u && g.key == x;
          if x != k { assert g in gs; }
        }
        forall x | x in Keys(gs) ensures x in Keys(u) {
          var g :| g in gs && g.key == x;
          assert g in u;
        }
        assert u[p] in u;
      }
    }
  }

  lemma FoldSnoc<A>(s: seq<Row>, r: Row, first: Row -> A, step: (A, Row) -> A)
    requires |s| > 0
    ensures Fold(s + [r], first, step) == step(Fold(s, first, step), r)
  {
    assert (s + [r])[..|s + [r]| - 1] == s;
  }

  /**
   * What pandas' groupby promises: the groups are sorted by key, there is one
   * per key present in the rows and none other, and each holds the aggregate
   * of exactly the rows with its key.
   */
  lemma {:induction false} AggregateSpec<K(!new), A>(rows: seq<Row>, key: Row -> K, lt: (K, K) -> bool,
                                                   first: Row -> A, step: (A, Row) -> A)
    requires StrictTotalOrder(lt)
    ensures var gs := Aggregate(rows, key, lt, first, step);
      && Sorted(gs, lt)
      && Keys(gs) == RowKeys(rows, key)
      && (forall g :: g in gs ==> Summarises(g, rows, key, first, step))
    decreases |rows|
  {
    if |rows| > 0 {
      var pre := rows[..|rows| - 1];
      var r := rows[|rows| - 1];
      var k := key(r);
      var gs := Aggregate(pre, key, lt, first, step);
      AggregateSpec(pre, key, lt, first, step);
      UpsertShape(gs, k, r, lt, first, step);
      RowKeysSnoc(rows, key);
      var u := Aggregate(rows, key, lt, first, step);
      assert u == Upsert(gs, k, r, lt, first, step);
      forall g | g in u ensures Summarises(g, rows, key, first, step) {
        if g.key != k {
          assert g in gs;
          assert Where(rows, key, g.key) == Where(pre, key, g.key);
        } else {
          assert Where(rows, key, k) == Where(pre, key, k) + [r];
          if g0 :| g0 in gs && g0.key == k && g.value == step(g0.value, r) {
            assert Summarises(g0, pre, key, first, step);
            FoldSnoc(Where(pre, key, k), r, first, step);
          } else {
            assert k !in RowKeys(pre, key);
            WhereOfAbsentKey(pre, key, k);
            assert Where(rows, key, k) == [r];
          }
        }
      }
    }
  }

  /** In a sorted group list every key occurs once, so there are as many groups as keys. */
  lemma {:induction false} SortedKeysCount<K(!new), A>(gs: seq<Group<K, A>>, lt: (K, K) -> bool)
    requires forall a :: !lt(a, a)
    requires Sorted(gs, lt)
    ensures |Keys(gs)| == |gs|
    decreases |gs|
  {
    if |gs| > 0 {
      var pre := gs[..|gs| - 1];
      var last := gs[|gs| - 1];
      assert gs == pre + [last];
      assert Sorted(pre, lt);
      SortedKeysCount(pre, lt);
      KeysSnoc(pre, last);
      assert last.key !in Keys(pre) by {
        forall g | g in pre ensures g.key != last.key {
          var i :| 0 <= i < |pre| && pre[i] == g;
          assert lt(gs[i].key, gs[|gs| - 1].key);
        }
      }
    }
  }

  lemma KeysSnoc<K, A>(gs: seq<Group<K, A>>, g: Group<K, A>)
    ensures Keys(gs + [g]) == Keys(gs) + {g.key}
  {
    forall x | x in Keys(gs + [g]) ensures x in Keys(gs) + {g.key} {
      var h :| h in gs + [g] && h.key == x;
    }
    forall x | x in Keys(gs) ensures x in Keys(gs + [g]) {
      var h :| h in gs && h.key == x;
      assert h in gs + [g];
    }
    assert g in gs + [g];
  }

  // Conservation: aggregates that carry a running kwh total.

  /** Sum, over the groups whose key satisfies `sel`, of the total that `val` reads off each aggregate. */
  function SumSelected<K, A>(gs: seq<Group<K, A>>, sel: K -> bool, val: A -> int): int
  {
    if |gs| == 0 then 0
    else SumSelected(gs[..|gs| - 1], sel, val) + (if sel(gs[|gs| - 1].key) then val(gs[|gs| - 1].value) else 0)
  }

  /** Sum of the kwh of the rows whose key satisfies `sel`. */
  function SumWhere<K>(rows: seq<Row>, key: Row -> K, sel: K -> bool): int
  {
    if |rows| == 0 then 0
    else SumWhere(rows[..|rows| - 1], key, sel) + (if sel(key(rows[|rows| - 1])) then rows[|rows| - 1].kwh else 0)
  }

  /** `first` and `step` keep, readable through `val`, the running total of the kwh folded in. */
  ghost predicate CarriesTotal<A(!new)>(first: Row -> A, step: (A, Row) -> A, val: A -> int)
  {
    && (forall r :: val(first(r)) == r.kwh)
    && (forall a, r :: val(step(a, r)) == val(a) + r.kwh)
  }

  lemma {:induction false} SumSelectedAppend<K, A>(a: seq<Group<K, A>>, b: seq<Group<K, A>>, sel: K -> bool, val: A -> int)
    ensures SumSelected(a + b, sel, val) == SumSelected(a, sel, val) + SumSelected(b, sel, val)
    decreases |b|
  {
    if |b| == 0 {
      assert a + b == a;
    } else {
      assert (a + b)[..|a + b| - 1] == a + b[..|b| - 1];
      SumSelectedAppend(a, b[..|b| - 1], sel, val);
    }
  }

  lemma UpsertSum<K, A(!new)>(gs: seq<Group<K, A>>, k: K, r: Row, lt: (K, K) -> bool,
                        first: Row -> A, step: (A, Row) -> A, sel: K -> bool, val: A -> int)
    requires CarriesTotal(first, step, val)
    ensures SumSelected(Upsert(gs, k, r, lt, first, step), sel, val)
         == SumSelected(gs, sel, val) + (if sel(k) then r.kwh else 0)
  {
    var p := Slot(gs, k, lt);
    if p < |gs| && gs[p].key == k {
      var g := Group(k, step(gs[p].value, r));
      assert gs[p := g] == gs[..p] + [g] + gs[p + 1..];
      assert gs == gs[..p] + [gs[p]] + gs[p + 1..];
      SumSelectedAppend(gs[..p] + [g], gs[p + 1..], sel, val);
      SumSelectedAppend(gs[..p], [g], sel, val);
      SumSelectedAppend(gs[..p] + [gs[p]], gs[p + 1..], sel, val);
      SumSelectedAppend(gs[..p], [gs[p]], sel, val);
    } else {
      var g := Group(k, first(r));
      assert gs == gs[..p] + gs[p..];
      SumSelectedAppend(gs[..p] + [g], gs[p..], sel, val);
      SumSelectedAppend(gs[..p], [g], sel, val);
      SumSelectedAppend(gs[..p], gs[p..], sel, val);
    }
  }

  /**
   * A group-by conserves consumption: over any selection of keys, the group
   * totals add up to the kwh of the rows carrying those keys.
   */
  lemma {:induction false} AggregateConserves<K, A(!new)>(rows: seq<Row>, key: Row -> K, lt: (K, K) -> bool,
                                                    first: Row -> A, step: (A, Row) -> A,
                                                    sel: K -> bool, val: A -> int)
    requires CarriesTotal(first, step, val)
    ensures SumSelected(Aggregate(rows, key, lt, first, step), sel, val) == SumWhere(rows, key, sel)
    decreases |rows|
  {
    if |rows| > 0 {
      var pre := rows[..|rows| - 1];
      AggregateConserves(pre, key, lt, first, step, sel, val);
      UpsertSum(Aggregate(pre, key, lt, first, step), key(rows[|rows| - 1]), rows[|rows| - 1], lt, first, step, sel, val);
    }
  }
}
