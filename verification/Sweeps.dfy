/** Sweeping a keyed table in key order: each row is replaced by its image under `f`. */
module Sweeps {
  /** The keys of the table, each once. */
  ghost predicate KeysInOrder<K(!new), V>(keys: seq<K>, rows: map<K, V>) {
    && (forall k :: k in keys <==> k in rows)
    && (forall i, j | 0 <= i < j < |keys| :: keys[i] != keys[j])
  }

  /** The rows after the first `n` keys. */
  function SweepFirst<K, V>(rows: map<K, V>, f: V -> V, keys: seq<K>, n: nat): map<K, V>
    requires n <= |keys| && forall k | k in keys :: k in rows
    decreases n, rows
  {
    if n == 0 then rows else SweepFirst(rows, f, keys, n - 1)[keys[n - 1] := f(rows[keys[n - 1]])]
  }

  /** How many of the first `n` keys have a row that `f` changes. */
  function PendingFirst<K, V(==)>(rows: map<K, V>, f: V -> V, keys: seq<K>, n: nat): nat
    requires n <= |keys| && forall k | k in keys :: k in rows
    decreases n, rows
  {
    if n == 0 then 0
    else PendingFirst(rows, f, keys, n - 1) + if f(rows[keys[n - 1]]) != rows[keys[n - 1]] then 1 else 0
  }

  function SweptRows<K, V>(rows: map<K, V>, f: V -> V): map<K, V> {
    map k | k in rows :: f(rows[k])
  }

  lemma {:induction false} SweepFirstRow<K(!new), V>(rows: map<K, V>, f: V -> V, keys: seq<K>, n: nat, k: K)
    requires KeysInOrder(keys, rows) && n <= |keys| && k in rows
    ensures SweepFirst(rows, f, keys, n).Keys == rows.Keys
    ensures SweepFirst(rows, f, keys, n)[k] == if k in keys[..n] then f(rows[k]) else rows[k]
    decreases n
  {
    if n > 0 {
      SweepFirstRow(rows, f, keys, n - 1, k);
      assert keys[..n] == keys[..n - 1] + [keys[n - 1]];
    }
  }

  lemma SweepAll<K(!new), V>(rows: map<K, V>, f: V -> V, keys: seq<K>)
    requires KeysInOrder(keys, rows)
    ensures SweepFirst(rows, f, keys, |keys|) == SweptRows(rows, f)
  {
    var after := SweepFirst(rows, f, keys, |keys|);
    if keys == [] {
      assert forall k :: k !in rows;
    } else {
      SweepFirstRow(rows, f, keys, |keys|, keys[0]);
    }
    forall k | k in rows
      ensures after[k] == f(rows[k])
    {
      SweepFirstRow(rows, f, keys, |keys|, k);
      assert keys[..|keys|] == keys;
    }
  }

  /** How many of the first `n` keys have a row with the property. */
  function CountFirst<K, V>(rows: map<K, V>, p: V -> bool, keys: seq<K>, n: nat): nat
    requires n <= |keys| && forall k | k in keys :: k in rows
    decreases n, rows
  {
    if n == 0 then 0 else CountFirst(rows, p, keys, n - 1) + if p(rows[keys[n - 1]]) then 1 else 0
  }

  /** When `f` changes exactly the rows with the property, those are the pending ones. */
  lemma {:induction false} PendingIsCount<K, V>(rows: map<K, V>, f: V -> V, p: V -> bool, keys: seq<K>, n: nat)
    requires n <= |keys| && forall k | k in keys :: k in rows && (f(rows[k]) != rows[k] <==> p(rows[k]))
    ensures PendingFirst(rows, f, keys, n) == CountFirst(rows, p, keys, n)
    decreases n
  {
    if n > 0 {
      PendingIsCount(rows, f, p, keys, n - 1);
    }
  }

  /** The sweep: rows that `f` would change are counted, and changed when `execute` is set. */
  method Sweep<K(!new, ==), V(==)>(rows: map<K, V>, f: V -> V, keys: seq<K>, execute: bool)
    returns (after: map<K, V>, changed: nat)
    requires KeysInOrder(keys, rows)
    ensures after == if execute then SweepFirst(rows, f, keys, |keys|) else rows
    ensures changed == PendingFirst(rows, f, keys, |keys|)
  {
    after, changed := rows, 0;
    for i := 0 to |keys|
      invariant after == if execute then SweepFirst(rows, f, keys, i) else rows
      invariant changed == PendingFirst(rows, f, keys, i)
    {
      var k := keys[i];
      SweepFirstRow(rows, f, keys, i, k);
      var next := f(after[k]);
      if next != after[k] {
        changed := changed + 1;
        if execute {
          after := after[k := next];
        }
      }
      assert after == if execute then SweepFirst(rows, f, keys, i + 1) else rows;
    }
  }
}
