/** A table of the store as the sequence of its rows, kept in primary-key
    order, with `key` giving a row's id. `ToList()` without `OrderBy`
    promises no order; the model fixes this one. The
    generic operations here are the store's Find, Count, Where, Remove and the
    write-back of one modified row. */
module Tables {
  import opened Models

  /** The ids present in the table. */
  function Keys<T>(rows: seq<T>, key: T -> int): set<int>
  {
    set i | 0 <= i < |rows| :: key(rows[i])
  }

  /** Rows are in strictly increasing key order, so no key occurs twice. */
  predicate KeysIncreasing<T>(rows: seq<T>, key: T -> int)
  {
    forall i, j :: 0 <= i < j < |rows| ==> key(rows[i]) < key(rows[j])
  }

  /** `rows.Count(e => key(e) == id)`. */
  function Count<T>(rows: seq<T>, key: T -> int, id: int): (n: nat)
    ensures n > 0 <==> id in Keys(rows, key)
    ensures n <= |rows|
  {
    if |rows| == 0 then 0
    else
      var n' := Count(rows[..|rows| - 1], key, id);
      assert Keys(rows, key) == Keys(rows[..|rows| - 1], key) + {key(rows[|rows| - 1])};
      n' + if key(rows[|rows| - 1]) == id then 1 else 0
  }

  /** In a keyed table an id is counted at most once. */
  lemma {:induction false} CountAtMostOne<T>(rows: seq<T>, key: T -> int, id: int)
    requires KeysIncreasing(rows, key)
    ensures Count(rows, key, id) <= 1
  {
    if |rows| > 0 {
      var init := rows[..|rows| - 1];
      CountAtMostOne(init, key, id);
    }
  }

  /** `Find(id)`: the row with that key, if any. */
  function Find<T>(rows: seq<T>, key: T -> int, id: int): (r: Option<T>)
    ensures r.Some? <==> id in Keys(rows, key)
    ensures r.Some? ==> r.value in rows && key(r.value) == id
  {
    if |rows| == 0 then None
    else if key(rows[0]) == id then Some(rows[0])
    else
      assert Keys(rows, key) == {key(rows[0])} + Keys(rows[1..], key);
      Find(rows[1..], key, id)
  }

  /** In a keyed table Find returns the row at the position holding that key. */
  lemma {:induction false} FindAt<T>(rows: seq<T>, key: T -> int, i: nat)
    requires KeysIncreasing(rows, key) && i < |rows|
    ensures Find(rows, key, key(rows[i])) == Some(rows[i])
  {
    if i > 0 {
      assert key(rows[0]) < key(rows[i]);
      assert rows[1..][i - 1] == rows[i];
      FindAt(rows[1..], key, i - 1);
    }
  }

  /** The rows satisfying `p`, in table order (a `Where` clause). */
  function Filter<T>(rows: seq<T>, p: T -> bool): (r: seq<T>)
    ensures |r| <= |rows|
    ensures forall i :: 0 <= i < |r| ==> r[i] in rows && p(r[i])
  {
    if |rows| == 0 then []
    else
      var init := rows[..|rows| - 1];
      var last := rows[|rows| - 1];
      assert rows == init + [last];
      Filter(init, p) + if p(last) then [last] else []
  }

  /** Filter drops no row that satisfies the condition. */
  lemma {:induction false} FilterKeeps<T>(rows: seq<T>, p: T -> bool, i: nat)
    requires i < |rows| && p(rows[i])
    ensures rows[i] in Filter(rows, p)
  {
    if i < |rows| - 1 {
      var init := rows[..|rows| - 1];
      assert init[i] == rows[i];
      FilterKeeps(init, p, i);
    }
  }

  /** A filter that keeps every row is the identity. */
  lemma {:induction false} FilterAll<T>(rows: seq<T>, p: T -> bool)
    requires forall x :: x in rows ==> p(x)
    ensures Filter(rows, p) == rows
  {
    if |rows| > 0 {
      var init := rows[..|rows| - 1];
      assert rows == init + [rows[|rows| - 1]];
      FilterAll(init, p);
    }
  }

  /** Filtering a keyed table leaves it keyed. */
  lemma {:induction false} FilterKeepsKeysIncreasing<T>(rows: seq<T>, key: T -> int, p: T -> bool)
    requires KeysIncreasing(rows, key)
    ensures KeysIncreasing(Filter(rows, p), key)
  {
    if |rows| > 0 {
      var init := rows[..|rows| - 1];
      var last := rows[|rows| - 1];
      FilterKeepsKeysIncreasing(init, key, p);
      var f := Filter(init, p);
      forall x | x in f ensures key(x) < key(last) {
        var i :| 0 <= i < |init| && init[i] == x;
      }
    }
  }

  /** `db.X.Remove(row)` for the row with key `id`. */
  function Remove<T>(rows: seq<T>, key: T -> int, id: int): seq<T>
  {
    Filter(rows, x => key(x) != id)
  }

  /** Removing a key from a keyed table drops exactly that row: the key is gone,
      every other key finds the same row as before, the table stays keyed and,
      when the key was there, shrinks by one. */
  lemma RemoveSpec<T>(rows: seq<T>, key: T -> int, id: int)
    requires KeysIncreasing(rows, key)
    ensures KeysIncreasing(Remove(rows, key, id), key)
    ensures Keys(Remove(rows, key, id), key) == Keys(rows, key) - {id}
    ensures Find(Remove(rows, key, id), key, id) == None
    ensures forall k :: k != id ==> Find(Remove(rows, key, id), key, k) == Find(rows, key, k)
  {
    var r := Remove(rows, key, id);
    FilterKeepsKeysIncreasing(rows, key, x => key(x) != id);
    forall k ensures k in Keys(r, key) <==> k in Keys(rows, key) && k != id {
      if k in Keys(rows, key) && k != id {
        var i :| 0 <= i < |rows| && key(rows[i]) == k;
        FilterKeeps(rows, x => key(x) != id, i);
      }
      if k in Keys(r, key) {
        var i :| 0 <= i < |r| && key(r[i]) == k;
        assert r[i] in rows;
      }
    }
    forall k | k != id ensures Find(r, key, k) == Find(rows, key, k) {
      if k in Keys(rows, key) {
        var x := Find(r, key, k).value;
        var i :| 0 <= i < |rows| && rows[i] == x;
        FindAt(rows, key, i);
      }
    }
  }

  /** Removing a present key shrinks the table by exactly one row. */
  lemma {:induction false} RemoveShrinksByOne<T>(rows: seq<T>, key: T -> int, id: int)
    requires KeysIncreasing(rows, key) && id in Keys(rows, key)
    ensures |Remove(rows, key, id)| == |rows| - 1
  {
    var init := rows[..|rows| - 1];
    var last := rows[|rows| - 1];
    assert rows == init + [last];
    assert KeysIncreasing(init, key);
    if key(last) == id {
      FilterAll(init, x => key(x) != id);
    } else {
      assert id in Keys(init, key) by {
        var i :| 0 <= i < |rows| && key(rows[i]) == id;
        assert i < |init|;
        assert key(init[i]) == id;
      }
      RemoveShrinksByOne(init, key, id);
    }
  }

  /** Writing back a modified row: the row with the same key is replaced. */
  function Replace<T>(rows: seq<T>, key: T -> int, row: T): (r: seq<T>)
    ensures |r| == |rows|
  {
    seq(|rows|, i requires 0 <= i < |rows| => if key(rows[i]) == key(row) then row else rows[i])
  }

  /** Writing back a row with a present key into a keyed table: afterwards Find
      on that key gives the new row, every other key finds what it found before,
      and the set of keys and the ordering are unchanged. */
  lemma ReplaceSpec<T>(rows: seq<T>, key: T -> int, row: T)
    requires KeysIncreasing(rows, key) && key(row) in Keys(rows, key)
    ensures KeysIncreasing(Replace(rows, key, row), key)
    ensures Keys(Replace(rows, key, row), key) == Keys(rows, key)
    ensures Find(Replace(rows, key, row), key, key(row)) == Some(row)
    ensures forall k :: k != key(row) ==> Find(Replace(rows, key, row), key, k) == Find(rows, key, k)
  {
    var r := Replace(rows, key, row);
    assert forall i :: 0 <= i < |rows| ==> key(r[i]) == key(rows[i]);
    assert Keys(r, key) == Keys(rows, key);
    var j :| 0 <= j < |rows| && key(rows[j]) == key(row);
    FindAt(r, key, j);
    forall k | k != key(row) ensures Find(r, key, k) == Find(rows, key, k) {
      if k in Keys(rows, key) {
        var i :| 0 <= i < |rows| && key(rows[i]) == k;
        FindAt(rows, key, i);
        FindAt(r, key, i);
      }
    }
  }

  /** `db.X.Add(row)` followed by `SaveChanges` on an identity column: the row
      goes at the end under a key above every existing one. */
  lemma AppendSpec<T>(rows: seq<T>, key: T -> int, row: T)
    requires KeysIncreasing(rows, key)
    requires forall x :: x in rows ==> key(x) < key(row)
    ensures KeysIncreasing(rows + [row], key)
    ensures Keys(rows + [row], key) == Keys(rows, key) + {key(row)}
    ensures Find(rows + [row], key, key(row)) == Some(row)
    ensures forall k :: k != key(row) ==> Find(rows + [row], key, k) == Find(rows, key, k)
  {
    var r := rows + [row];
    assert forall i :: 0 <= i < |rows| ==> r[i] == rows[i];
    assert r[|rows|] == row;
    assert Keys(r, key) == Keys(rows, key) + {key(row)};
    assert KeysIncreasing(r, key) by {
      forall i, j | 0 <= i < j < |r| ensures key(r[i]) < key(r[j]) {
        if j == |rows| {
          assert r[i] in rows;
        }
      }
    }
    FindAt(r, key, |rows|);
    forall k | k != key(row) ensures Find(r, key, k) == Find(rows, key, k) {
      if k in Keys(rows, key) {
        var i :| 0 <= i < |rows| && key(rows[i]) == k;
        FindAt(rows, key, i);
        FindAt(r, key, i);
      }
    }
  }
}
