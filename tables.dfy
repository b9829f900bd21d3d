/**
 * The record table of src/worker.py (`entries`, `id_to_entry`): a Python
 * dict from record ids to `(name, parent, entry_data)` triples. Python dicts
 * iterate in insertion order, which `collect` and the first-match lookup
 * depend on, so a table is its keys in that order plus its contents.
 */
module Tables {
  import opened Bytes

  /** One value of the table: the name, the parent reference (None without a `$FILE_NAME`) and the raw record. */
  datatype Row = Row(name: string, parent: Option<nat>, raw: seq<byte>)

  datatype Table = Table(keys: seq<nat>, rows: map<nat, Row>)

  predicate Distinct(ks: seq<nat>) {
    forall i, j :: 0 <= i < j < |ks| ==> ks[i] != ks[j]
  }

  /** The order lists every key of the contents once, and nothing else. */
  predicate Valid(t: Table) {
    && Distinct(t.keys)
    && (forall k :: k in t.rows ==> k in t.keys)
    && (forall i :: 0 <= i < |t.keys| ==> t.keys[i] in t.rows)
  }

  function Empty(): (t: Table)
    ensures Valid(t) && t.keys == [] && t.rows == map[]
  {
    Table([], map[])
  }

  /** `d[k] = v`: a new key goes to the end of the order, an existing one keeps its place. */
  function Set(t: Table, k: nat, v: Row): (r: Table)
    requires Valid(t)
    ensures Valid(r)
  {
    if k in t.rows then Table(t.keys, t.rows[k := v]) else Table(t.keys + [k], t.rows[k := v])
  }

  lemma SetMeaning(t: Table, k: nat, v: Row)
    requires Valid(t)
    ensures Set(t, k, v).rows == t.rows[k := v]
    ensures k in t.rows ==> Set(t, k, v).keys == t.keys
    ensures k !in t.rows ==> Set(t, k, v).keys == t.keys + [k]
  {
  }

  predicate AllIn(ks: seq<nat>, m: map<nat, Row>) {
    forall i :: 0 <= i < |ks| ==> ks[i] in m
  }

  /** Sets the keys `ks` one after the other to their values in `m`. */
  function SetEach(t: Table, ks: seq<nat>, m: map<nat, Row>): (r: Table)
    requires Valid(t) && AllIn(ks, m)
    ensures Valid(r)
    decreases |ks|
  {
    if ks == [] then t else SetEach(Set(t, ks[0], m[ks[0]]), ks[1..], m)
  }

  /** `d.update(u)`: every key of `u`, in `u`'s order, set in turn. */
  function Update(t: Table, u: Table): (r: Table)
    requires Valid(t) && Valid(u)
    ensures Valid(r)
  {
    SetEach(t, u.keys, u.rows)
  }

  /** The part of `m` on the keys listed in `ks`. */
  function Restrict(m: map<nat, Row>, ks: seq<nat>): map<nat, Row> {
    map k | k in m && k in ks :: m[k]
  }

  /** Setting the first listed key, then the rest, covers what setting all of them covers. */
  lemma RestrictStep(a: map<nat, Row>, m: map<nat, Row>, ks: seq<nat>)
    requires ks != [] && ks[0] in m
    ensures a[ks[0] := m[ks[0]]] + Restrict(m, ks[1..]) == a + Restrict(m, ks)
  {
    var k := ks[0];
    var lhs, rhs := a[k := m[k]] + Restrict(m, ks[1..]), a + Restrict(m, ks);
    forall x | x in lhs || x in rhs
      ensures x in lhs && x in rhs && lhs[x] == rhs[x]
    {
      assert x in ks <==> x == k || x in ks[1..];
    }
  }

  lemma {:induction false} SetEachRows(t: Table, ks: seq<nat>, m: map<nat, Row>)
    requires Valid(t) && AllIn(ks, m)
    ensures SetEach(t, ks, m).rows == t.rows + Restrict(m, ks)
    decreases |ks|
  {
    if ks != [] {
      var k := ks[0];
      var t' := Set(t, k, m[k]);
      SetMeaning(t, k, m[k]);
      SetEachRows(t', ks[1..], m);
      RestrictStep(t.rows, m, ks);
    }
  }

  lemma {:induction false} SetEachKeys(t: Table, ks: seq<nat>, m: map<nat, Row>)
    requires Valid(t) && AllIn(ks, m) && Distinct(ks)
    requires forall i :: 0 <= i < |ks| ==> ks[i] !in t.rows
    ensures SetEach(t, ks, m).keys == t.keys + ks
    decreases |ks|
  {
    if ks != [] {
      var k, rest := ks[0], ks[1..];
      var t' := Set(t, k, m[k]);
      SetMeaning(t, k, m[k]);
      forall i | 0 <= i < |rest|
        ensures rest[i] !in t'.rows
      {
        assert rest[i] == ks[i + 1] != k;
      }
      SetEachKeys(t', rest, m);
      assert [k] + rest == ks;
      Associative(t.keys, [k], rest);
    }
  }

  /** After `d.update(u)` every key of `u` holds `u`'s value and every other key keeps its value. */
  lemma UpdateRows(t: Table, u: Table)
    requires Valid(t) && Valid(u)
    ensures Update(t, u).rows == t.rows + u.rows
  {
    SetEachRows(t, u.keys, u.rows);
    assert Restrict(u.rows, u.keys) == u.rows;
  }

  /** Updating with a table that shares no key appends its keys, in its order. */
  lemma UpdateKeysDisjoint(t: Table, u: Table)
    requires Valid(t) && Valid(u)
    requires forall k :: k in u.rows ==> k !in t.rows
    ensures Update(t, u).keys == t.keys + u.keys
  {
    SetEachKeys(t, u.keys, u.rows);
  }

  // ------------------------------------------------------------ merging

  predicate AllValid(ts: seq<Table>) {
    forall i :: 0 <= i < |ts| ==> Valid(ts[i])
  }

  predicate Indices(order: seq<nat>, n: nat) {
    forall i :: 0 <= i < |order| ==> order[i] < n
  }

  /** No two tables share a key. */
  predicate Disjoint(ts: seq<Table>) {
    forall i, j, k :: 0 <= i < |ts| && 0 <= j < |ts| && i != j && k in ts[i].rows ==> k !in ts[j].rows
  }

  /** `t.update(ts[o])` for each `o` of `order` in turn: the merge loop over completed chunks. */
  function MergeInto(t: Table, ts: seq<Table>, order: seq<nat>): (r: Table)
    requires Valid(t) && AllValid(ts) && Indices(order, |ts|)
    ensures Valid(r)
    decreases |order|
  {
    if order == [] then t else MergeInto(Update(t, ts[order[0]]), ts, order[1..])
  }

  function Merged(ts: seq<Table>, order: seq<nat>): (r: Table)
    requires AllValid(ts) && Indices(order, |ts|)
    ensures Valid(r)
  {
    MergeInto(Empty(), ts, order)
  }

  /** The keys of the tables in `order`, one table after the other. */
  function KeysInOrder(ts: seq<Table>, order: seq<nat>): seq<nat>
    requires Indices(order, |ts|)
  {
    if order == [] then [] else ts[order[0]].keys + KeysInOrder(ts, order[1..])
  }

  lemma {:induction false} MergeIntoRows(t: Table, ts: seq<Table>, order: seq<nat>, k: nat)
    requires Valid(t) && AllValid(ts) && Indices(order, |ts|) && Disjoint(ts) && Distinct(order)
    requires forall i :: 0 <= i < |order| && k in ts[order[i]].rows ==> k !in t.rows
    ensures k in MergeInto(t, ts, order).rows <==> k in t.rows || exists i :: 0 <= i < |order| && k in ts[order[i]].rows
    ensures k in t.rows ==> MergeInto(t, ts, order).rows[k] == t.rows[k]
    ensures forall i :: 0 <= i < |order| && k in ts[order[i]].rows ==> MergeInto(t, ts, order).rows[k] == ts[order[i]].rows[k]
    decreases |order|
  {
    if order != [] {
      var u, rest := ts[order[0]], order[1..];
      var t' := Update(t, u);
      UpdateRows(t, u);
      forall i | 0 <= i < |rest| && k in ts[rest[i]].rows
        ensures k !in t'.rows
      {
        assert rest[i] == order[i + 1] != order[0];
      }
      MergeIntoRows(t', ts, rest, k);
      forall i | 0 <= i < |order| && k in ts[order[i]].rows
        ensures k in MergeInto(t', ts, rest).rows && MergeInto(t', ts, rest).rows[k] == ts[order[i]].rows[k]
      {
        if i > 0 {
          assert rest[i - 1] == order[i];
        }
      }
      if k !in t.rows && k !in u.rows && k in MergeInto(t', ts, rest).rows {
        var i :| 0 <= i < |rest| && k in ts[rest[i]].rows;
        assert rest[i] == order[i + 1];
      }
    }
  }

  /**
   * Merging key-disjoint tables holds a key exactly when one of the merged
   * tables holds it, with that table's value.
   */
  lemma MergedLookup(ts: seq<Table>, order: seq<nat>, k: nat)
    requires AllValid(ts) && Indices(order, |ts|) && Disjoint(ts) && Distinct(order)
    ensures k in Merged(ts, order).rows <==> exists i :: 0 <= i < |order| && k in ts[order[i]].rows
    ensures forall i :: 0 <= i < |order| && k in ts[order[i]].rows ==> Merged(ts, order).rows[k] == ts[order[i]].rows[k]
  {
    MergeIntoRows(Empty(), ts, order, k);
  }

  /** What one completion order merges, any order over at least the same tables merges too, with the same value. */
  lemma MergedSubsumes(ts: seq<Table>, order1: seq<nat>, order2: seq<nat>, k: nat)
    requires AllValid(ts) && Indices(order1, |ts|) && Indices(order2, |ts|) && Disjoint(ts)
    requires Distinct(order1) && Distinct(order2)
    requires forall j :: j in order1 ==> j in order2
    requires k in Merged(ts, order1).rows
    ensures k in Merged(ts, order2).rows && Merged(ts, order2).rows[k] == Merged(ts, order1).rows[k]
  {
    MergedLookup(ts, order1, k);
    MergedLookup(ts, order2, k);
    var i :| 0 <= i < |order1| && k in ts[order1[i]].rows;
    assert order1[i] in order2;
    var i2 :| 0 <= i2 < |order2| && order2[i2] == order1[i];
  }

  /** The merged contents do not depend on the order in which the tables complete. */
  lemma MergeOrderIndependent(ts: seq<Table>, order1: seq<nat>, order2: seq<nat>)
    requires AllValid(ts) && Indices(order1, |ts|) && Indices(order2, |ts|) && Disjoint(ts)
    requires Distinct(order1) && Distinct(order2)
    requires forall j :: j in order1 <==> j in order2
    ensures Merged(ts, order1).rows == Merged(ts, order2).rows
  {
    var m1, m2 := Merged(ts, order1).rows, Merged(ts, order2).rows;
    forall k | k in m1
      ensures k in m2 && m2[k] == m1[k]
    {
      MergedSubsumes(ts, order1, order2, k);
    }
    forall k | k in m2
      ensures k in m1
    {
      MergedSubsumes(ts, order2, order1, k);
    }
  }

  lemma {:induction false} MergeIntoKeys(t: Table, ts: seq<Table>, order: seq<nat>)
    requires Valid(t) && AllValid(ts) && Indices(order, |ts|) && Disjoint(ts) && Distinct(order)
    requires forall i, k :: 0 <= i < |order| && k in ts[order[i]].rows ==> k !in t.rows
    ensures MergeInto(t, ts, order).keys == t.keys + KeysInOrder(ts, order)
    decreases |order|
  {
    if order != [] {
      var u, rest := ts[order[0]], order[1..];
      var t' := Update(t, u);
      UpdateKeysDisjoint(t, u);
      UpdateRows(t, u);
      forall i, k | 0 <= i < |rest| && k in ts[rest[i]].rows
        ensures k !in t'.rows
      {
        assert rest[i] == order[i + 1] != order[0];
      }
      MergeIntoKeys(t', ts, rest);
      Associative(t.keys, u.keys, KeysInOrder(ts, rest));
    }
  }

  /** The merged order is the completed tables' orders, one after the other in completion order. */
  lemma MergedKeys(ts: seq<Table>, order: seq<nat>)
    requires AllValid(ts) && Indices(order, |ts|) && Disjoint(ts) && Distinct(order)
    ensures Merged(ts, order).keys == KeysInOrder(ts, order)
  {
    MergeIntoKeys(Empty(), ts, order);
  }

  /** A key of a table that completes is listed by the merged order. */
  lemma {:induction false} KeysInOrderHas(ts: seq<Table>, order: seq<nat>, q: nat, y: nat)
    requires Indices(order, |ts|) && q < |order| && y in ts[order[q]].keys
    ensures y in KeysInOrder(ts, order)
    decreases |order|
  {
    if q > 0 {
      assert order[1..][q - 1] == order[q];
      KeysInOrderHas(ts, order[1..], q - 1, y);
    }
  }

  /** A key of a table that completes earlier comes before a key of a table that completes later. */
  lemma {:induction false} KeysInOrderPrecede(ts: seq<Table>, order: seq<nat>, p: nat, q: nat, x: nat, y: nat)
    requires Indices(order, |ts|) && p < q < |order|
    requires x in ts[order[p]].keys && y in ts[order[q]].keys
    ensures exists i :: 0 <= i < |KeysInOrder(ts, order)| && KeysInOrder(ts, order)[i] == x && y in KeysInOrder(ts, order)[i + 1..]
    decreases |order|
  {
    var first, rest := ts[order[0]].keys, KeysInOrder(ts, order[1..]);
    var all := KeysInOrder(ts, order);
    assert all == first + rest;
    assert order[1..][q - 1] == order[q];
    if p == 0 {
      var i :| 0 <= i < |first| && first[i] == x;
      KeysInOrderHas(ts, order[1..], q - 1, y);
      assert all[i] == x;
      assert all[i + 1..] == first[i + 1..] + rest;
    } else {
      assert order[1..][p - 1] == order[p];
      KeysInOrderPrecede(ts, order[1..], p - 1, q - 1, x, y);
      var i :| 0 <= i < |rest| && rest[i] == x && y in rest[i + 1..];
      assert all[|first| + i] == x;
      assert all[|first| + i + 1..] == rest[i + 1..];
    }
  }

  /** Merging tables that are all empty leaves the table as it was. */
  lemma {:induction false} MergeEmpties(t: Table, ts: seq<Table>, order: seq<nat>)
    requires Valid(t) && AllValid(ts) && Indices(order, |ts|)
    requires forall i :: 0 <= i < |ts| ==> ts[i] == Empty()
    ensures MergeInto(t, ts, order) == t
    decreases |order|
  {
    if order != [] {
      assert Update(t, ts[order[0]]) == t;
      MergeEmpties(t, ts, order[1..]);
    }
  }
}
