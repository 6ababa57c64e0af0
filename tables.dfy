/** A table as the client keeps it: a flat list of rows, each carrying the
    integer `id` the database gave it. These are the list updates that every
    hook and store applies: prepend a new row unless its id is present
    (`some` then spread), replace the rows with an id (`map`), remove them
    (`filter`) and look one up (`find`). */
module Tables {
  import opened Common
  import opened Lists
  import opened Sorting

  /** A row of any table: its `id` and the rest of its columns. */
  datatype Row<F> = Row(id: int, val: F)

  /** `rows.some((r) => r.id === id)` */
  predicate HasId<F>(rows: seq<Row<F>>, id: int) {
    exists i :: 0 <= i < |rows| && rows[i].id == id
  }

  /** No two rows share an id. */
  ghost predicate UniqueIds<F>(rows: seq<Row<F>>) {
    forall i, j :: 0 <= i < j < |rows| ==> rows[i].id != rows[j].id
  }

  /** The number of rows with the given id. */
  function CountId<F>(rows: seq<Row<F>>, id: int): nat
    decreases |rows|
  {
    if rows == [] then 0 else (if rows[0].id == id then 1 else 0) + CountId(rows[1..], id)
  }

  /** `exists ? rows : [row, ...rows]` */
  function PrependNew<F>(rows: seq<Row<F>>, row: Row<F>): seq<Row<F>> {
    if HasId(rows, row.id) then rows else [row] + rows
  }

  /** `rows.map((r) => (r.id === id ? row : r))` */
  function ReplaceById<F>(rows: seq<Row<F>>, id: int, row: Row<F>): seq<Row<F>> {
    seq(|rows|, i requires 0 <= i < |rows| => if rows[i].id == id then row else rows[i])
  }

  /** `rows.map((r) => (r.id === id ? { ...r, <change> } : r))`: the rows with
      the id keep it and have `change` applied to their other columns. */
  function UpdateById<F>(rows: seq<Row<F>>, id: int, change: F -> F): seq<Row<F>> {
    seq(|rows|, i requires 0 <= i < |rows| => if rows[i].id == id then Row(id, change(rows[i].val)) else rows[i])
  }

  /** `rows.filter((r) => r.id !== id)` */
  function RemoveById<F>(rows: seq<Row<F>>, id: int): seq<Row<F>>
    decreases |rows|
  {
    if rows == [] then [] else (if rows[0].id == id then [] else [rows[0]]) + RemoveById(rows[1..], id)
  }

  /** `rows.find((r) => r.id === id)`: the first row with the id. */
  function FindById<F>(rows: seq<Row<F>>, id: int): Option<Row<F>>
    decreases |rows|
  {
    if rows == [] then None else if rows[0].id == id then Some(rows[0]) else FindById(rows[1..], id)
  }

  // ---------------------------------------------------------------------
  // Finding and counting

  /** `find` succeeds exactly when the id is present, with a row of the list
      that has that id. */
  lemma {:induction false} FindByIdSpec<F>(rows: seq<Row<F>>, id: int)
    ensures FindById(rows, id).Some? <==> HasId(rows, id)
    ensures FindById(rows, id).Some? ==> FindById(rows, id).value in rows && FindById(rows, id).value.id == id
    decreases |rows|
  {
    if rows != [] && rows[0].id != id {
      FindByIdSpec(rows[1..], id);
      if HasId(rows, id) {
        var i :| 0 <= i < |rows| && rows[i].id == id;
        assert rows[1..][i - 1].id == id;
      }
    }
  }

  lemma {:induction false} CountIdSpec<F>(rows: seq<Row<F>>, id: int)
    ensures CountId(rows, id) > 0 <==> HasId(rows, id)
    ensures UniqueIds(rows) ==> CountId(rows, id) <= 1
    decreases |rows|
  {
    if rows != [] {
      CountIdSpec(rows[1..], id);
      if HasId(rows, id) && rows[0].id != id {
        var i :| 0 <= i < |rows| && rows[i].id == id;
        assert rows[1..][i - 1].id == id;
      }
      if UniqueIds(rows) && rows[0].id == id {
        forall i | 0 <= i < |rows[1..]| ensures rows[1..][i].id != id {
          assert rows[1..][i] == rows[i + 1];
        }
      }
    }
  }

  // ---------------------------------------------------------------------
  // Insert

  /** A row whose id is new goes in front and every other row keeps its
      place; a row whose id is present changes nothing. The ids stay unique. */
  lemma PrependNewSpec<F>(rows: seq<Row<F>>, row: Row<F>)
    ensures HasId(rows, row.id) ==> PrependNew(rows, row) == rows
    ensures !HasId(rows, row.id) ==>
      |PrependNew(rows, row)| == |rows| + 1 && PrependNew(rows, row)[0] == row && PrependNew(rows, row)[1..] == rows
    ensures UniqueIds(rows) ==> UniqueIds(PrependNew(rows, row))
  {
    if UniqueIds(rows) && !HasId(rows, row.id) {
      var r := [row] + rows;
      forall i, j | 0 <= i < j < |r| ensures r[i].id != r[j].id {
        if i == 0 {
          assert r[j] == rows[j - 1];
        } else {
          assert r[i] == rows[i - 1] && r[j] == rows[j - 1];
        }
      }
    }
  }

  // ---------------------------------------------------------------------
  // Update

  /** Replacing by a row with the same id: same length, the rows with other
      ids are untouched in place, and the ids stay unique. */
  lemma ReplaceByIdSpec<F>(rows: seq<Row<F>>, row: Row<F>)
    ensures |ReplaceById(rows, row.id, row)| == |rows|
    ensures forall i :: 0 <= i < |rows| && rows[i].id != row.id ==> ReplaceById(rows, row.id, row)[i] == rows[i]
    ensures forall i :: 0 <= i < |rows| ==> ReplaceById(rows, row.id, row)[i].id == rows[i].id
    ensures UniqueIds(rows) ==> UniqueIds(ReplaceById(rows, row.id, row))
    ensures HasId(rows, row.id) <==> HasId(ReplaceById(rows, row.id, row), row.id)
  {
    var r := ReplaceById(rows, row.id, row);
    if HasId(r, row.id) {
      var i :| 0 <= i < |r| && r[i].id == row.id;
      assert rows[i].id == row.id;
    }
  }

  /** Changing the other columns of the rows with an id keeps every id in
      place, so the ids stay unique. */
  lemma UpdateByIdSpec<F>(rows: seq<Row<F>>, id: int, change: F -> F)
    ensures |UpdateById(rows, id, change)| == |rows|
    ensures forall i :: 0 <= i < |rows| ==> UpdateById(rows, id, change)[i].id == rows[i].id
    ensures forall i :: 0 <= i < |rows| && rows[i].id != id ==> UpdateById(rows, id, change)[i] == rows[i]
    ensures UniqueIds(rows) ==> UniqueIds(UpdateById(rows, id, change))
  {
  }

  /** An update followed by a delete of the same id is just the delete: the
      update touched nothing but the rows with that id, and kept the order of
      the others. */
  lemma {:induction false} ReplaceThenRemove<F>(rows: seq<Row<F>>, row: Row<F>)
    ensures RemoveById(ReplaceById(rows, row.id, row), row.id) == RemoveById(rows, row.id)
    decreases |rows|
  {
    if rows != [] {
      var r := ReplaceById(rows, row.id, row);
      assert r[1..] == ReplaceById(rows[1..], row.id, row);
      ReplaceThenRemove(rows[1..], row);
    }
  }

  // ---------------------------------------------------------------------
  // Delete

  /** A row is kept exactly when it was there and has another id. */
  lemma {:induction false} RemoveByIdMembers<F>(rows: seq<Row<F>>, id: int, x: Row<F>)
    ensures x in RemoveById(rows, id) <==> x in rows && x.id != id
    decreases |rows|
  {
    if rows != [] {
      RemoveByIdMembers(rows[1..], id, x);
      assert x in rows <==> x == rows[0] || x in rows[1..];
    }
  }

  /** No row with the deleted id remains. */
  lemma RemoveByIdGone<F>(rows: seq<Row<F>>, id: int)
    ensures !HasId(RemoveById(rows, id), id)
  {
    var r := RemoveById(rows, id);
    forall i | 0 <= i < |r| ensures r[i].id != id {
      RemoveByIdMembers(rows, id, r[i]);
    }
  }

  /** The filter distributes over concatenation: the rows that stay keep their
      relative order. */
  lemma {:induction false} RemoveByIdAppend<F>(a: seq<Row<F>>, b: seq<Row<F>>, id: int)
    ensures RemoveById(a + b, id) == RemoveById(a, id) + RemoveById(b, id)
    decreases |a|
  {
    if a == [] {
      assert a + b == b;
    } else {
      assert (a + b)[0] == a[0];
      assert (a + b)[1..] == a[1..] + b;
      RemoveByIdAppend(a[1..], b, id);
    }
  }

  /** Exactly the rows with the id go: the length drops by their number, and
      by at most one when ids are unique. */
  lemma {:induction false} RemoveByIdLength<F>(rows: seq<Row<F>>, id: int)
    ensures |RemoveById(rows, id)| == |rows| - CountId(rows, id)
    ensures UniqueIds(rows) ==> |RemoveById(rows, id)| == |rows| - (if HasId(rows, id) then 1 else 0)
    decreases |rows|
  {
    if rows != [] {
      RemoveByIdLength(rows[1..], id);
    }
    CountIdSpec(rows, id);
  }

  /** Deleting an id that is absent changes nothing. */
  lemma {:induction false} RemoveAbsent<F>(rows: seq<Row<F>>, id: int)
    requires !HasId(rows, id)
    ensures RemoveById(rows, id) == rows
    decreases |rows|
  {
    if rows != [] {
      forall i | 0 <= i < |rows[1..]| ensures rows[1..][i].id != id {
        assert rows[1..][i] == rows[i + 1];
      }
      RemoveAbsent(rows[1..], id);
      assert [rows[0]] + rows[1..] == rows;
    }
  }

  /** A sub-list (in order) of a list with unique ids has unique ids. */
  lemma {:induction false} RemoveByIdUnique<F>(rows: seq<Row<F>>, id: int)
    requires UniqueIds(rows)
    ensures UniqueIds(RemoveById(rows, id))
    decreases |rows|
  {
    if rows != [] {
      var tail := RemoveById(rows[1..], id);
      RemoveByIdUnique(rows[1..], id);
      if rows[0].id != id {
        var r := [rows[0]] + tail;
        forall i, j | 0 <= i < j < |r| ensures r[i].id != r[j].id {
          if i == 0 {
            RemoveByIdMembers(rows[1..], id, r[j]);
            var k :| 0 <= k < |rows[1..]| && rows[1..][k] == r[j];
            assert rows[k + 1] == r[j];
          } else {
            assert r[i] == tail[i - 1] && r[j] == tail[j - 1];
          }
        }
      }
    }
  }

  /** The rows that stay after a delete keep their relative order. */
  lemma {:induction false} RemoveByIdKeepsOrder<F>(rows: seq<Row<F>>, id: int)
    ensures Subsequence(RemoveById(rows, id), rows)
    decreases |rows|
  {
    if rows != [] {
      var tail := RemoveById(rows[1..], id);
      RemoveByIdKeepsOrder(rows[1..], id);
      if rows[0].id != id {
        assert RemoveById(rows, id)[1..] == tail;
      } else if tail != [] {
        RemoveByIdMembers(rows[1..], id, tail[0]);
        assert tail[0] != rows[0];
        assert RemoveById(rows, id) == tail;
      }
    }
  }

  /** With unique ids, deleting the row `find` returned and putting it back
      anywhere gives back the same rows, each once. */
  lemma {:induction false} RemoveFoundRestores<F>(rows: seq<Row<F>>, id: int)
    requires UniqueIds(rows)
    requires FindById(rows, id).Some?
    ensures multiset(RemoveById(rows, id)) + multiset{FindById(rows, id).value} == multiset(rows)
    decreases |rows|
  {
    assert rows == [rows[0]] + rows[1..];
    UniqueCons(rows[0], rows[1..]);
    if rows[0].id == id {
      RemoveAbsent(rows[1..], id);
    } else {
      RemoveFoundRestores(rows[1..], id);
    }
  }

  // ---------------------------------------------------------------------
  // Ids under reordering

  /** A list headed by `x` has unique ids exactly when its tail has and does
      not use the id of `x`. */
  lemma UniqueCons<F>(x: Row<F>, t: seq<Row<F>>)
    ensures UniqueIds([x] + t) <==> UniqueIds(t) && !HasId(t, x.id)
  {
    var r := [x] + t;
    if UniqueIds(r) {
      forall i | 0 <= i < |t| ensures t[i].id != x.id {
        assert r[0] == x && r[i + 1] == t[i];
      }
      forall i, j | 0 <= i < j < |t| ensures t[i].id != t[j].id {
        assert r[i + 1] == t[i] && r[j + 1] == t[j];
      }
    }
    if UniqueIds(t) && !HasId(t, x.id) {
      PrependNewSpec(t, x);
    }
  }

  /** Rearranging the rows changes neither which ids are present nor whether
      they are unique. */
  lemma HasIdPermutation<F>(a: seq<Row<F>>, b: seq<Row<F>>, id: int)
    requires multiset(a) == multiset(b)
    ensures HasId(a, id) <==> HasId(b, id)
  {
    if HasId(a, id) {
      var i :| 0 <= i < |a| && a[i].id == id;
      assert a[i] in multiset(b);
    }
    if HasId(b, id) {
      var i :| 0 <= i < |b| && b[i].id == id;
      assert b[i] in multiset(a);
    }
  }

  lemma {:induction false} InsertByUnique<F>(leq: (Row<F>, Row<F>) -> bool, x: Row<F>, t: seq<Row<F>>)
    requires UniqueIds(t) && !HasId(t, x.id)
    ensures UniqueIds(InsertBy(leq, x, t))
    decreases |t|
  {
    UniqueCons(x, t);
    if t != [] && !leq(x, t[0]) {
      assert t == [t[0]] + t[1..];
      UniqueCons(t[0], t[1..]);
      assert !HasId(t[1..], x.id) by {
        forall i | 0 <= i < |t[1..]| ensures t[1..][i].id != x.id {
          assert t[1..][i] == t[i + 1];
        }
      }
      InsertByUnique(leq, x, t[1..]);
      InsertByPermutes(leq, x, t[1..]);
      HasIdPermutation(InsertBy(leq, x, t[1..]), t[1..] + [x], t[0].id);
      assert !HasId(t[1..] + [x], t[0].id) by {
        forall i | 0 <= i < |t[1..] + [x]| ensures (t[1..] + [x])[i].id != t[0].id {
          if i < |t[1..]| {
            assert (t[1..] + [x])[i] == t[i + 1];
          }
        }
      }
      UniqueCons(t[0], InsertBy(leq, x, t[1..]));
    }
  }

  /** Sorting keeps the set of ids and their uniqueness. */
  lemma {:induction false} SortByIds<F>(leq: (Row<F>, Row<F>) -> bool, s: seq<Row<F>>)
    ensures forall id :: HasId(SortBy(leq, s), id) <==> HasId(s, id)
    ensures UniqueIds(s) ==> UniqueIds(SortBy(leq, s))
    decreases |s|
  {
    SortByPermutes(leq, s);
    forall id ensures HasId(SortBy(leq, s), id) <==> HasId(s, id) {
      HasIdPermutation(SortBy(leq, s), s, id);
    }
    if s != [] && UniqueIds(s) {
      assert s == [s[0]] + s[1..];
      UniqueCons(s[0], s[1..]);
      SortByIds(leq, s[1..]);
      InsertByUnique(leq, s[0], SortBy(leq, s[1..]));
    }
  }
}
