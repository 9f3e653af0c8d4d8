// The meaning of the prepared statements over tables keyed by (key, sequence).
module Tables {
  import opened Wrappers

  type Table<K(==), V> = map<(K, nat), V>

  // SELECT ... WHERE key = ? AND seq <= ? ORDER BY seq DESC LIMIT 1
  function SelectLatest<K, V>(table: Table<K, V>, key: K, ledger: nat): (row: Option<V>) {
    if (key, ledger) in table then
      Some(table[(key, ledger)])
    else if ledger == 0 then
      None
    else
      SelectLatest(table, key, ledger - 1)
  }

  // It is the row with the greatest sequence among those at or below the bound.
  lemma {:induction false} SelectLatestRow<K, V>(table: Table<K, V>, key: K, ledger: nat)
    ensures SelectLatest(table, key, ledger).None? ==> forall s: nat | s <= ledger :: (key, s) !in table
    ensures SelectLatest(table, key, ledger).Some? ==>
      exists s: nat :: IsLatestRow(table, key, ledger, s) && table[(key, s)] == SelectLatest(table, key, ledger).value
  {
    if (key, ledger) in table {
      assert IsLatestRow(table, key, ledger, ledger);
    } else if ledger > 0 {
      SelectLatestRow(table, key, ledger - 1);
      if SelectLatest(table, key, ledger).Some? {
        var s: nat :| IsLatestRow(table, key, ledger - 1, s)
          && table[(key, s)] == SelectLatest(table, key, ledger - 1).value;
        assert IsLatestRow(table, key, ledger, s);
      }
    }
  }

  ghost predicate IsLatestRow<K, V>(table: Table<K, V>, key: K, ledger: nat, s: nat) {
    s <= ledger && (key, s) in table && forall u: nat | s < u <= ledger :: (key, u) !in table
  }

  // A lookup reads only the rows of its own key, at or below its sequence.
  lemma {:induction false} SelectLatestFrame<K, V>(a: Table<K, V>, b: Table<K, V>, key: K, ledger: nat)
    requires forall s: nat | s <= ledger :: (key, s) in a <==> (key, s) in b
    requires forall s: nat | s <= ledger && (key, s) in a :: a[(key, s)] == b[(key, s)]
    ensures SelectLatest(a, key, ledger) == SelectLatest(b, key, ledger)
  {
    if (key, ledger) !in a && ledger > 0 {
      SelectLatestFrame(a, b, key, ledger - 1);
    }
  }

  // The row found is the one at `s` when no later row exists up to `ledger`.
  lemma {:induction false} SelectLatestIs<K, V>(table: Table<K, V>, key: K, s: nat, ledger: nat)
    requires IsLatestRow(table, key, ledger, s)
    ensures SelectLatest(table, key, ledger) == Some(table[(key, s)])
  {
    if s < ledger {
      SelectLatestIs(table, key, s, ledger - 1);
    }
  }

  datatype Row<K, V> = Row(key: K, value: V)

  // INSERT of every row in order, all at one sequence.
  function Insert<K, V>(table: Table<K, V>, ledger: nat, rows: seq<Row<K, V>>): Table<K, V> {
    if rows == [] then
      table
    else
      var last := |rows| - 1;
      Insert(table, ledger, rows[..last])[(rows[last].key, ledger) := rows[last].value]
  }

  // No key is given two values.
  ghost predicate Consistent<K(!new), V(!new)>(rows: seq<Row<K, V>>) {
    forall r, q | r in rows && q in rows && r.key == q.key :: r.value == q.value
  }

  lemma {:induction false} InsertOther<K, V>(table: Table<K, V>, ledger: nat, rows: seq<Row<K, V>>, key: K, s: nat)
    requires s != ledger || forall r | r in rows :: r.key != key
    ensures (key, s) in Insert(table, ledger, rows) <==> (key, s) in table
    ensures (key, s) in table ==> Insert(table, ledger, rows)[(key, s)] == table[(key, s)]
  {
    if rows != [] {
      InsertOther(table, ledger, rows[..|rows| - 1], key, s);
    }
  }

  lemma {:induction false} InsertHit<K(!new), V(!new)>(
    table: Table<K, V>, ledger: nat, rows: seq<Row<K, V>>, row: Row<K, V>)
    requires row in rows && Consistent(rows)
    ensures (row.key, ledger) in Insert(table, ledger, rows)
    ensures Insert(table, ledger, rows)[(row.key, ledger)] == row.value
  {
    var last := |rows| - 1;
    if rows[last].key != row.key {
      InsertHit(table, ledger, rows[..last], row);
    }
  }

  // What is in the table afterwards was there before, or comes from a row.
  lemma {:induction false} InsertedFrom<K, V>(table: Table<K, V>, ledger: nat, rows: seq<Row<K, V>>, key: K)
    ensures (key, ledger) in table ==> (key, ledger) in Insert(table, ledger, rows)
    ensures (key, ledger) in Insert(table, ledger, rows) ==>
      var value := Insert(table, ledger, rows)[(key, ledger)];
      ((key, ledger) in table && table[(key, ledger)] == value) || Row(key, value) in rows
  {
    if rows != [] {
      InsertedFrom(table, ledger, rows[..|rows| - 1], key);
    }
  }

  // Asynchronous writes may land in any order and any number of times: consistent
  // rows give the same table however they are arranged.
  lemma InsertAnyOrder<K(!new), V(!new)>(table: Table<K, V>, ledger: nat, a: seq<Row<K, V>>, b: seq<Row<K, V>>)
    requires Consistent(a)
    requires forall r :: r in a <==> r in b
    ensures Insert(table, ledger, a) == Insert(table, ledger, b)
  {
    var ta, tb := Insert(table, ledger, a), Insert(table, ledger, b);
    forall key, s: nat
      ensures (key, s) in ta <==> (key, s) in tb
      ensures (key, s) in ta ==> ta[(key, s)] == tb[(key, s)]
    {
      if s == ledger && exists r | r in a :: r.key == key {
        var r :| r in a && r.key == key;
        InsertHit(table, ledger, a, r);
        InsertHit(table, ledger, b, r);
      } else {
        InsertOther(table, ledger, a, key, s);
        InsertOther(table, ledger, b, key, s);
      }
    }
    forall p: (K, nat)
      ensures p in ta <==> p in tb
      ensures p in ta ==> ta[p] == tb[p]
    {
      assert p == (p.0, p.1);
    }
  }
}
