/** A relational table whose primary key is the `id` column, as a sequence of
    rows in storage order. Queries without ORDER BY return rows in this order. */
module Table {
  import opened Wrappers

  datatype Row<V> = Row(id: string, value: V)

  function Ids<V>(rows: seq<Row<V>>): set<string>
  {
    set i | 0 <= i < |rows| :: rows[i].id
  }

  lemma IdsCons<V>(x: Row<V>, rows: seq<Row<V>>)
    ensures Ids([x] + rows) == {x.id} + Ids(rows)
  {
    var s := [x] + rows;
    forall id | id in Ids(s) ensures id in {x.id} + Ids(rows) {
      var i :| 0 <= i < |s| && s[i].id == id;
      if i > 0 { assert s[i] == rows[i - 1]; }
    }
    forall id | id in Ids(rows) ensures id in Ids(s) {
      var i :| 0 <= i < |rows| && rows[i].id == id;
      assert s[i + 1] == rows[i];
    }
    assert s[0].id in Ids(s);
  }

  /** The primary-key constraint. */
  ghost predicate UniqueIds<V>(rows: seq<Row<V>>)
  {
    forall i, j | 0 <= i < j < |rows| :: rows[i].id != rows[j].id
  }

  /** No two rows carry the same non-key columns. */
  ghost predicate UniqueValues<V>(rows: seq<Row<V>>)
  {
    forall i, j | 0 <= i < j < |rows| :: rows[i].value != rows[j].value
  }

  /** `SELECT ... WHERE keep(row)`: the rows that satisfy `keep`, in table order. */
  function Where<V>(rows: seq<Row<V>>, keep: Row<V> -> bool): (r: seq<Row<V>>)
    ensures |r| <= |rows|
    ensures forall i | 0 <= i < |r| :: r[i] in rows && keep(r[i])
    ensures forall i | 0 <= i < |rows| :: keep(rows[i]) ==> rows[i] in r
  {
    if rows == [] then []
    else if keep(rows[0]) then [rows[0]] + Where(rows[1..], keep)
    else Where(rows[1..], keep)
  }

  /** A row filter keeps the primary key and the value columns unique. */
  lemma WhereKeepsUnique<V>(rows: seq<Row<V>>, keep: Row<V> -> bool)
    ensures UniqueIds(rows) ==> UniqueIds(Where(rows, keep))
    ensures UniqueValues(rows) ==> UniqueValues(Where(rows, keep))
  {
    if UniqueIds(rows) {
      WhereKeepsUniqueIds(rows, keep);
    }
    if UniqueValues(rows) {
      WhereKeepsUniqueValues(rows, keep);
    }
  }

  lemma {:induction false} WhereKeepsUniqueIds<V>(rows: seq<Row<V>>, keep: Row<V> -> bool)
    requires UniqueIds(rows)
    ensures UniqueIds(Where(rows, keep))
  {
    if rows != [] {
      var tail := rows[1..];
      WhereKeepsUniqueIds(tail, keep);
      if keep(rows[0]) {
        var (rest, r) := (Where(tail, keep), Where(rows, keep));
        forall x | x in tail ensures x.id != rows[0].id {
          var k :| 0 <= k < |tail| && tail[k] == x;
          assert rows[k + 1] == x;
        }
        assert r == [rows[0]] + rest;
        forall i, j | 0 <= i < j < |r| ensures r[i].id != r[j].id {
          assert r[j] == rest[j - 1];
          if i > 0 {
            assert r[i] == rest[i - 1];
          }
        }
      }
    }
  }

  lemma {:induction false} WhereKeepsUniqueValues<V>(rows: seq<Row<V>>, keep: Row<V> -> bool)
    requires UniqueValues(rows)
    ensures UniqueValues(Where(rows, keep))
  {
    if rows != [] {
      var tail := rows[1..];
      WhereKeepsUniqueValues(tail, keep);
      if keep(rows[0]) {
        var (rest, r) := (Where(tail, keep), Where(rows, keep));
        forall x | x in tail ensures x.value != rows[0].value {
          var k :| 0 <= k < |tail| && tail[k] == x;
          assert rows[k + 1] == x;
        }
        assert r == [rows[0]] + rest;
        forall i, j | 0 <= i < j < |r| ensures r[i].value != r[j].value {
          assert r[j] == rest[j - 1];
          if i > 0 {
            assert r[i] == rest[i - 1];
          }
        }
      }
    }
  }

  /** A filter that keeps every row is the identity. */
  lemma {:induction false} WhereKeepsAll<V>(rows: seq<Row<V>>, keep: Row<V> -> bool)
    requires forall i | 0 <= i < |rows| :: keep(rows[i])
    ensures Where(rows, keep) == rows
  {
    if rows != [] {
      WhereKeepsAll(rows[1..], keep);
    }
  }

  /** The row filter `id <> $1`: what `DELETE ... WHERE id = $1` keeps. */
  function NotId<V>(id: string): Row<V> -> bool
  {
    (r: Row<V>) => r.id != id
  }

  /** The row filter `id IN (...)`. */
  function IdIn<V>(ids: seq<string>): Row<V> -> bool
  {
    (r: Row<V>) => r.id in ids
  }

  /** `SELECT ... WHERE id = $1`, first row. */
  function Find<V>(rows: seq<Row<V>>, id: string): (r: Option<V>)
    ensures r.Some? <==> id in Ids(rows)
    ensures r.Some? ==> Row(id, r.value) in rows
  {
    if rows == [] then None
    else if rows[0].id == id then Some(rows[0].value)
    else Find(rows[1..], id)
  }

  /** Under the primary key, the row found is the only row with that id. */
  lemma {:induction false} FindUnique<V>(rows: seq<Row<V>>, i: nat)
    requires UniqueIds(rows) && i < |rows|
    ensures Find(rows, rows[i].id) == Some(rows[i].value)
  {
    if i > 0 {
      FindUnique(rows[1..], i - 1);
    }
  }

  /** `INSERT ... ON CONFLICT (id) DO UPDATE`: replace the row with that id in
      place, or append a new row. */
  function Upsert<V>(rows: seq<Row<V>>, id: string, v: V): (r: seq<Row<V>>)
    ensures Ids(r) == Ids(rows) + {id}
    ensures id !in Ids(rows) ==> r == rows + [Row(id, v)]
  {
    if rows == [] then
      IdsCons(Row(id, v), rows);
      assert [Row(id, v)] + rows == [Row(id, v)];
      [Row(id, v)]
    else if rows[0].id == id then
      IdsCons(rows[0], rows[1..]);
      IdsCons(Row(id, v), rows[1..]);
      assert rows == [rows[0]] + rows[1..];
      [Row(id, v)] + rows[1..]
    else
      IdsCons(rows[0], rows[1..]);
      IdsCons(rows[0], Upsert(rows[1..], id, v));
      assert rows == [rows[0]] + rows[1..];
      [rows[0]] + Upsert(rows[1..], id, v)
  }

  /** Upsert changes no row with another id, and keeps the primary key unique. */
  lemma {:induction false} UpsertFrame<V>(rows: seq<Row<V>>, id: string, v: V)
    ensures forall i | 0 <= i < |rows| :: rows[i].id != id ==> rows[i] in Upsert(rows, id, v)
    ensures forall x | x in Upsert(rows, id, v) :: x.id != id ==> x in rows
    ensures UniqueIds(rows) ==> UniqueIds(Upsert(rows, id, v))
  {
    if rows != [] && rows[0].id != id {
      UpsertFrame(rows[1..], id, v);
      var rest := Upsert(rows[1..], id, v);
      forall i | 0 <= i < |rows| && rows[i].id != id
        ensures rows[i] in Upsert(rows, id, v)
      {
        if i > 0 { assert rows[1..][i - 1] == rows[i]; }
      }
    }
  }

  /** Get after Put: the row with that id holds the value just stored. */
  lemma {:induction false} FindAfterUpsert<V>(rows: seq<Row<V>>, id: string, v: V)
    ensures Find(Upsert(rows, id, v), id) == Some(v)
  {
    if rows != [] && rows[0].id != id {
      FindAfterUpsert(rows[1..], id, v);
    }
  }

  /** Put leaves every other id's row as it was. */
  lemma {:induction false} FindOtherAfterUpsert<V>(rows: seq<Row<V>>, id: string, v: V, other: string)
    requires other != id
    ensures Find(Upsert(rows, id, v), other) == Find(rows, other)
  {
    if rows != [] && rows[0].id != id {
      FindOtherAfterUpsert(rows[1..], id, v, other);
    }
  }

  /** Two Puts under the same id leave the second value, in the same single row. */
  lemma {:induction false} UpsertTwice<V>(rows: seq<Row<V>>, id: string, v1: V, v2: V)
    ensures Upsert(Upsert(rows, id, v1), id, v2) == Upsert(rows, id, v2)
  {
    if rows != [] && rows[0].id != id {
      UpsertTwice(rows[1..], id, v1, v2);
    }
  }

  /** Two filters that agree on every row select the same rows. */
  lemma {:induction false} WhereSameFilter<V>(rows: seq<Row<V>>, k1: Row<V> -> bool, k2: Row<V> -> bool)
    requires forall i | 0 <= i < |rows| :: k1(rows[i]) == k2(rows[i])
    ensures Where(rows, k1) == Where(rows, k2)
  {
    if rows != [] {
      assert k1(rows[0]) == k2(rows[0]);
      WhereSameFilter(rows[1..], k1, k2);
    }
  }

  /** A filter that keeps no row selects nothing. */
  lemma {:induction false} WhereNone<V>(rows: seq<Row<V>>, keep: Row<V> -> bool)
    requires forall i | 0 <= i < |rows| :: !keep(rows[i])
    ensures Where(rows, keep) == []
  {
    if rows != [] {
      assert !keep(rows[0]);
      WhereNone(rows[1..], keep);
    }
  }

  /** `DELETE ... WHERE id = $1`. */
  function RemoveId<V>(rows: seq<Row<V>>, id: string): (r: seq<Row<V>>)
    ensures Ids(r) == Ids(rows) - {id}
    ensures id !in Ids(rows) ==> r == rows
  {
    if rows == [] then []
    else
      IdsCons(rows[0], rows[1..]);
      assert rows == [rows[0]] + rows[1..];
      if rows[0].id == id then RemoveId(rows[1..], id)
      else
        IdsCons(rows[0], RemoveId(rows[1..], id));
        [rows[0]] + RemoveId(rows[1..], id)
  }

  /** RemoveId is the filter `id <> $1`; it removes exactly one row when the id is stored. */
  lemma {:induction false} RemoveIdIsWhere<V>(rows: seq<Row<V>>, id: string)
    ensures RemoveId(rows, id) == Where(rows, NotId(id))
    ensures UniqueIds(rows) && id in Ids(rows) ==> |RemoveId(rows, id)| == |rows| - 1
  {
    if rows != [] {
      RemoveIdIsWhere(rows[1..], id);
      if UniqueIds(rows) && rows[0].id == id {
        assert id !in Ids(rows[1..]);
      }
    }
  }

  /** The number of rows a `DELETE ... WHERE` reports: positive exactly when
      some row matches the condition. */
  lemma {:induction false} WhereCount<V>(rows: seq<Row<V>>, keep: Row<V> -> bool)
    ensures |Where(rows, keep)| < |rows| <==> exists i | 0 <= i < |rows| :: !keep(rows[i])
  {
    if rows != [] {
      WhereCount(rows[1..], keep);
      if exists i | 0 <= i < |rows[1..]| :: !keep(rows[1..][i]) {
        var i :| 0 <= i < |rows[1..]| && !keep(rows[1..][i]);
        assert rows[i + 1] == rows[1..][i];
      }
      if exists i | 0 <= i < |rows| :: !keep(rows[i]) {
        var i :| 0 <= i < |rows| && !keep(rows[i]);
        if i > 0 { assert rows[1..][i - 1] == rows[i]; }
      }
    }
  }

  /** `DELETE ... WHERE id = $1` reports a positive row count exactly when
      the id is stored. */
  lemma RemoveIdCount<V>(rows: seq<Row<V>>, id: string)
    ensures |RemoveId(rows, id)| <= |rows|
    ensures |RemoveId(rows, id)| < |rows| <==> id in Ids(rows)
  {
    RemoveIdIsWhere(rows, id);
    WhereCount(rows, NotId(id));
    if id in Ids(rows) {
      var i :| 0 <= i < |rows| && rows[i].id == id;
      assert !NotId(id)(rows[i]);
    }
  }

  lemma IdsAppend<V>(rows: seq<Row<V>>, x: Row<V>)
    ensures Ids(rows + [x]) == Ids(rows) + {x.id}
  {
    var s := rows + [x];
    forall id | id in Ids(rows) ensures id in Ids(s) {
      var i :| 0 <= i < |rows| && rows[i].id == id;
      assert s[i] == rows[i];
    }
    assert s[|rows|] == x;
  }

  /** Appending a row whose id and value are new keeps both uniqueness properties. */
  lemma AppendKeepsUnique<V>(rows: seq<Row<V>>, x: Row<V>)
    requires x.id !in Ids(rows)
    ensures UniqueIds(rows) ==> UniqueIds(rows + [x])
    ensures UniqueValues(rows) && (forall i | 0 <= i < |rows| :: rows[i].value != x.value)
            ==> UniqueValues(rows + [x])
  {
    var s := rows + [x];
    forall i | 0 <= i < |rows| ensures s[i] == rows[i] && rows[i].id != x.id {
      assert rows[i].id in Ids(rows);
    }
  }
}
