/** The parts of SQL the services rely on, as functions over rows. */
module Sql {

  datatype Option<+T> = None | Some(value: T)

  ghost predicate Ascending<T>(rows: seq<T>, key: T -> int) {
    forall i, j :: 0 <= i < j < |rows| ==> key(rows[i]) <= key(rows[j])
  }

  function InsertByKey<T>(row: T, rows: seq<T>, key: T -> int): seq<T> {
    if rows != [] && key(row) < key(rows[|rows| - 1])
    then InsertByKey(row, rows[..|rows| - 1], key) + [rows[|rows| - 1]]
    else rows + [row]
  }

  /** `ORDER BY key ASC`; rows with equal keys stay in table order. */
  function OrderBy<T>(rows: seq<T>, key: T -> int): seq<T> {
    if rows == [] then []
    else InsertByKey(rows[|rows| - 1], OrderBy(rows[..|rows| - 1], key), key)
  }

  /** `LIMIT n`. */
  function Limit<T>(rows: seq<T>, n: nat): (r: seq<T>)
    ensures r <= rows && |r| == if n < |rows| then n else |rows|
  {
    if n < |rows| then rows[..n] else rows
  }

  /** The rows of a table are those before the last one, and the last one. */
  lemma LastApart<T>(front: seq<T>, last: T)
    ensures multiset(front + [last]) == multiset(front) + multiset{last}
    ensures (front + [last])[..|front|] == front
  {
  }

  lemma {:induction false} InsertByKeyInserts<T>(row: T, rows: seq<T>, key: T -> int)
    ensures multiset(InsertByKey(row, rows, key)) == multiset(rows) + multiset{row}
  {
    if rows != [] && key(row) < key(rows[|rows| - 1]) {
      var front, last := rows[..|rows| - 1], rows[|rows| - 1];
      assert rows == front + [last];
      InsertByKeyInserts(row, front, key);
      LastApart(front, last);
      LastApart(InsertByKey(row, front, key), last);
      SwapLast(multiset(front), multiset{row}, multiset{last});
    } else {
      LastApart(rows, row);
    }
  }

  lemma SwapLast<T>(a: multiset<T>, b: multiset<T>, c: multiset<T>)
    ensures (a + b) + c == (a + c) + b
  {
  }

  lemma InsertedRow<T>(row: T, rows: seq<T>, key: T -> int, i: nat)
    requires i < |InsertByKey(row, rows, key)|
    ensures InsertByKey(row, rows, key)[i] == row || InsertByKey(row, rows, key)[i] in rows
  {
    hide InsertByKey;
    InsertByKeyInserts(row, rows, key);
    assert InsertByKey(row, rows, key)[i] in multiset(InsertByKey(row, rows, key));
  }

  lemma {:induction false} InsertByKeyAscends<T>(row: T, rows: seq<T>, key: T -> int)
    requires Ascending(rows, key)
    ensures Ascending(InsertByKey(row, rows, key), key)
  {
    if rows != [] && key(row) < key(rows[|rows| - 1]) {
      var front, last := rows[..|rows| - 1], rows[|rows| - 1];
      InsertByKeyAscends(row, front, key);
      var r := InsertByKey(row, front, key);
      forall i | 0 <= i < |r| ensures key(r[i]) <= key(last) {
        InsertedRow(row, front, key, i);
      }
    }
  }

  /** `ORDER BY` returns the same rows, sorted. */
  lemma {:induction false} OrderBySorts<T>(rows: seq<T>, key: T -> int)
    ensures multiset(OrderBy(rows, key)) == multiset(rows)
    ensures Ascending(OrderBy(rows, key), key)
  {
    hide InsertByKey, Ascending;
    if rows == [] {
      NothingAscends(key);
    } else {
      var front, last := rows[..|rows| - 1], rows[|rows| - 1];
      assert rows == front + [last];
      LastApart(front, last);
      OrderBySorts(front, key);
      InsertByKeyInserts(last, OrderBy(front, key), key);
      InsertByKeyAscends(last, OrderBy(front, key), key);
    }
  }

  lemma NothingAscends<T>(key: T -> int)
    ensures Ascending([], key)
  {
  }

  /** A table already kept in key order is returned as it is. */
  lemma {:induction false} OrderByOfAscending<T>(rows: seq<T>, key: T -> int)
    requires Ascending(rows, key)
    ensures OrderBy(rows, key) == rows
  {
    if rows == [] {
    } else {
      OrderByOfAscending(rows[..|rows| - 1], key);
      assert rows == rows[..|rows| - 1] + [rows[|rows| - 1]];
    }
  }

  function Max(a: int, b: int): (m: int)
    ensures m >= a && m >= b && (m == a || m == b)
  {
    if a < b then b else a
  }

  function Min(a: int, b: int): (m: int)
    ensures m <= a && m <= b && (m == a || m == b)
  {
    if a < b then a else b
  }

  /** `boundedLimit`. */
  function Bounded(limit: int): (n: nat)
    ensures 1 <= limit <= 500 ==> n == limit
    ensures limit < 1 ==> n == 1
    ensures limit > 500 ==> n == 500
  {
    Max(1, Min(limit, 500))
  }
}
