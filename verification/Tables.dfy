/** The SQL operations the repair script uses: SELECT DISTINCT ON, counting joins and INSERT ... ON CONFLICT DO UPDATE. */
module Tables {
  import opened Wrappers

  // ---------------------------------------------------------------- DISTINCT ON

  ghost predicate DistinctKeys<R, K>(rows: seq<R>, key: R -> K) {
    forall i, j :: 0 <= i < j < |rows| ==> key(rows[i]) != key(rows[j])
  }

  /** `first` orders the rows of one key; the earlier row of two wins when neither comes first. */
  function Place<R, K(==)>(kept: seq<R>, row: R, key: R -> K, first: (R, R) -> bool): seq<R> {
    if kept == [] then [row]
    else if key(kept[0]) == key(row) then (if first(row, kept[0]) then [row] + kept[1..] else kept)
    else [kept[0]] + Place(kept[1..], row, key, first)
  }

  /** DISTINCT ON (key) ... ORDER BY key, first: one row for each key, the one that comes first. */
  function DistinctOn<R, K(==)>(rows: seq<R>, key: R -> K, first: (R, R) -> bool): seq<R> {
    if rows == [] then [] else Place(DistinctOn(rows[..|rows| - 1], key, first), rows[|rows| - 1], key, first)
  }

  ghost predicate IsOrder<R(!new)>(first: (R, R) -> bool) {
    && (forall a, b, c :: first(a, b) && first(b, c) ==> first(a, c))
    && (forall a :: !first(a, a))
    && (forall a, b, c :: !first(a, b) && !first(b, c) ==> !first(a, c))
  }

  /** `kept` answers for `x`: it holds a row of x's key that x does not come before. */
  ghost predicate Answers<R, K>(kept: seq<R>, key: R -> K, first: (R, R) -> bool, x: R) {
    exists i :: 0 <= i < |kept| && key(kept[i]) == key(x) && !first(x, kept[i])
  }

  /** `kept` has exactly the keys of `rows`, each with a row of `rows` that no row of its key comes before. */
  ghost predicate IsDistinctOn<R(!new), K>(kept: seq<R>, rows: seq<R>, key: R -> K, first: (R, R) -> bool) {
    && DistinctKeys(kept, key)
    && (forall i :: 0 <= i < |kept| ==> kept[i] in rows)
    && (forall r :: r in rows ==> Answers(kept, key, first, r))
  }

  lemma {:induction false} PlaceKeys<R(!new), K>(kept: seq<R>, row: R, key: R -> K, first: (R, R) -> bool)
    requires DistinctKeys(kept, key)
    ensures var r := Place(kept, row, key, first);
            && DistinctKeys(r, key)
            && (forall i :: 0 <= i < |r| ==> r[i] == row || r[i] in kept)
            && (forall i :: 0 <= i < |r| ==> key(r[i]) == key(row) || exists j :: 0 <= j < |kept| && r[i] == kept[j])
  {
    if kept != [] && key(kept[0]) != key(row) {
      PlaceKeys(kept[1..], row, key, first);
    }
  }

  lemma {:induction false} PlaceKeepsFirst<R(!new), K>(kept: seq<R>, row: R, key: R -> K, first: (R, R) -> bool, x: R)
    requires IsOrder(first) && (x == row || Answers(kept, key, first, x))
    ensures Answers(Place(kept, row, key, first), key, first, x)
  {
    var r := Place(kept, row, key, first);
    if kept == [] || (key(kept[0]) == key(row) && x == row) {
      assert !first(x, r[0]);
    } else if key(kept[0]) == key(row) {
      var i :| 0 <= i < |kept| && key(kept[i]) == key(x) && !first(x, kept[i]);
      assert first(x, row) && first(row, kept[0]) ==> first(x, kept[0]);
      if i > 0 { assert r[i] == kept[i]; } else { assert !first(x, r[0]); }
    } else {
      if x != row {
        var i :| 0 <= i < |kept| && key(kept[i]) == key(x) && !first(x, kept[i]);
        if i > 0 { assert kept[1..][i - 1] == kept[i]; } else { assert r[0] == kept[0]; }
      }
      if x == row || Answers(kept[1..], key, first, x) {
        PlaceKeepsFirst(kept[1..], row, key, first, x);
        var rest := Place(kept[1..], row, key, first);
        var i :| 0 <= i < |rest| && key(rest[i]) == key(x) && !first(x, rest[i]);
        assert r[i + 1] == rest[i];
      }
    }
  }

  /** The view holds one row for each key, and it is the first one. */
  lemma {:induction false} DistinctOnIsFirst<R(!new), K>(rows: seq<R>, key: R -> K, first: (R, R) -> bool)
    requires IsOrder(first)
    ensures IsDistinctOn(DistinctOn(rows, key, first), rows, key, first)
  {
    hide Place, IsOrder;
    if rows == [] {
    } else {
      var front, row := rows[..|rows| - 1], rows[|rows| - 1];
      DistinctOnIsFirst(front, key, first);
      var kept := DistinctOn(front, key, first);
      PlaceKeys(kept, row, key, first);
      forall x | x in rows ensures Answers(Place(kept, row, key, first), key, first, x) {
        if x != row { assert x in front; }
        PlaceKeepsFirst(kept, row, key, first, x);
      }
    }
  }

  // ---------------------------------------------------------------- counting

  function CountIf<R>(rows: seq<R>, p: R -> bool): nat {
    if rows == [] then 0 else CountIf(rows[..|rows| - 1], p) + if p(rows[|rows| - 1]) then 1 else 0
  }

  lemma {:induction false} CountIsZero<R>(rows: seq<R>, p: R -> bool)
    ensures CountIf(rows, p) == 0 <==> forall i :: 0 <= i < |rows| ==> !p(rows[i])
  {
    if rows == [] {
    } else {
      CountIsZero(rows[..|rows| - 1], p);
    }
  }

  /** With distinct keys, counting rows is counting their keys. */
  lemma {:induction false} CountKeys<R, K>(rows: seq<R>, key: R -> K, p: R -> bool, keys: set<K>)
    requires DistinctKeys(rows, key)
    requires forall i :: 0 <= i < |rows| && p(rows[i]) ==> key(rows[i]) in keys
    requires forall k :: k in keys ==> exists i :: 0 <= i < |rows| && key(rows[i]) == k && p(rows[i])
    ensures CountIf(rows, p) == |keys|
  {
    if rows == [] {
      assert keys == {};
    } else {
      var front, last := rows[..|rows| - 1], rows[|rows| - 1];
      CountKeys(front, key, p, if p(last) then keys - {key(last)} else keys) by {
        forall k | k in keys && !(p(last) && k == key(last)) ensures exists i :: 0 <= i < |front| && key(front[i]) == k && p(front[i]) {
          var i :| 0 <= i < |rows| && key(rows[i]) == k && p(rows[i]);
          assert i < |front| && front[i] == rows[i];
        }
      }
    }
  }

  // ---------------------------------------------------------------- INSERT ... ON CONFLICT (key) DO UPDATE

  function Upsert<K, V, R>(table: map<K, V>, rows: seq<R>, key: R -> K, insert: R -> V, update: (V, R) -> V): map<K, V> {
    if rows == [] then table
    else
      var t := Upsert(table, rows[..|rows| - 1], key, insert, update);
      var row := rows[|rows| - 1];
      t[key(row) := if key(row) in t then update(t[key(row)], row) else insert(row)]
  }

  ghost predicate HasKey<K, R>(rows: seq<R>, key: R -> K, k: K) {
    exists i :: 0 <= i < |rows| && key(rows[i]) == k
  }

  /** A row outside the view is left alone. */
  lemma {:induction false} UpsertElsewhere<K, V, R>(table: map<K, V>, rows: seq<R>, key: R -> K, insert: R -> V,
                                                    update: (V, R) -> V, k: K)
    requires !HasKey(rows, key, k)
    ensures k in Upsert(table, rows, key, insert, update) <==> k in table
    ensures k in table ==> Upsert(table, rows, key, insert, update)[k] == table[k]
  {
    if rows == [] {
    } else {
      UpsertElsewhere(table, rows[..|rows| - 1], key, insert, update, k);
    }
  }

  /** With distinct keys every row of the view lands once: on the stored row as it was, or as a new row. */
  lemma {:induction false} UpsertAt<K, V, R>(table: map<K, V>, rows: seq<R>, key: R -> K, insert: R -> V,
                                             update: (V, R) -> V, i: nat)
    requires DistinctKeys(rows, key) && i < |rows|
    ensures var t, k := Upsert(table, rows, key, insert, update), key(rows[i]);
            k in t && t[k] == if k in table then update(table[k], rows[i]) else insert(rows[i])
  {
    var last := |rows| - 1;
    if i == last {
      UpsertElsewhere(table, rows[..last], key, insert, update, key(rows[i]));
    } else {
      UpsertAt(table, rows[..last], key, insert, update, i);
      assert key(rows[i]) != key(rows[last]);
    }
  }

  lemma UpsertPush<K, V, R>(table: map<K, V>, rows: seq<R>, key: R -> K, insert: R -> V, update: (V, R) -> V, i: nat)
    requires i < |rows|
    ensures var t, row := Upsert(table, rows[..i], key, insert, update), rows[i];
            Upsert(table, rows[..i + 1], key, insert, update) ==
            t[key(row) := if key(row) in t then update(t[key(row)], row) else insert(row)]
  {
    assert rows[..i + 1][..i] == rows[..i];
  }

  /** The statement row by row. It fails, and changes nothing, when it would touch a row of the table twice. */
  method InsertOnConflict<K(==), V, R>(table: map<K, V>, rows: seq<R>, key: R -> K, insert: R -> V, update: (V, R) -> V)
    returns (r: Option<map<K, V>>)
    ensures r.Some? <==> DistinctKeys(rows, key)
    ensures r.Some? ==> r.value == Upsert(table, rows, key, insert, update)
  {
    hide Upsert;
    var t := table;
    var touched: set<K> := {};
    assert t == Upsert(table, rows[..0], key, insert, update) by { UpsertNothing(table, rows[..0], key, insert, update); }
    for i := 0 to |rows|
      invariant t == Upsert(table, rows[..i], key, insert, update)
      invariant touched == set j | 0 <= j < i :: key(rows[j])
      invariant DistinctKeys(rows[..i], key)
    {
      var k := key(rows[i]);
      if k in touched {
        return None;
      }
      UpsertPush(table, rows, key, insert, update, i);
      t := t[k := if k in t then update(t[k], rows[i]) else insert(rows[i])];
      touched := touched + {k};
    }
    assert rows[..|rows|] == rows;
    r := Some(t);
  }

  lemma UpsertNothing<K, V, R>(table: map<K, V>, rows: seq<R>, key: R -> K, insert: R -> V, update: (V, R) -> V)
    requires rows == []
    ensures Upsert(table, rows, key, insert, update) == table
  {}
}
