/** Shared value types and the row operations every table and list of the model uses. */
module Rows {

  datatype Option<+T> = None | Some(value: T)

  datatype Result<+T, +E> = Ok(value: T) | Err(error: E)

  type Byte = b: int | 0 <= b < 256

  /** The rows that satisfy a predicate, in their original order. */
  function Filter<T(!new)>(keep: T -> bool, rows: seq<T>): (r: seq<T>)
    ensures forall x :: x in r <==> x in rows && keep(x)
    ensures |r| <= |rows|
  {
    if rows == [] then []
    else
      var rest := Filter(keep, rows[1..]);
      assert forall x :: x in rows <==> x == rows[0] || x in rows[1..];
      if keep(rows[0]) then [rows[0]] + rest else rest
  }

  lemma {:induction false} FilterConcat<T(!new)>(keep: T -> bool, a: seq<T>, b: seq<T>)
    ensures Filter(keep, a + b) == Filter(keep, a) + Filter(keep, b)
  {
    if a == [] {
      assert a + b == b;
    } else {
      assert (a + b)[0] == a[0] && (a + b)[1..] == a[1..] + b;
      FilterConcat(keep, a[1..], b);
    }
  }

  /** Applying a function to every row. */
  function Map<T, U>(f: T -> U, rows: seq<T>): (r: seq<U>)
    ensures |r| == |rows|
    ensures forall i :: 0 <= i < |rows| ==> r[i] == f(rows[i])
  {
    seq(|rows|, i requires 0 <= i < |rows| => f(rows[i]))
  }

  predicate Distinct<T(==)>(rows: seq<T>) {
    forall i, j :: 0 <= i < j < |rows| ==> rows[i] != rows[j]
  }

  function ToSet<T(!new,==)>(rows: seq<T>): (s: set<T>)
    ensures forall x :: x in s <==> x in rows
  {
    set x | x in rows
  }

  /** The first row that satisfies a predicate. */
  function Find<T(!new)>(p: T -> bool, rows: seq<T>): (r: Option<T>)
    ensures r.None? <==> forall x :: x in rows ==> !p(x)
    ensures r.Some? ==> r.value in rows && p(r.value)
  {
    if rows == [] then None
    else
      assert forall x :: x in rows <==> x == rows[0] || x in rows[1..];
      if p(rows[0]) then Some(rows[0]) else Find(p, rows[1..])
  }

  /** Every earlier row is related to every later one. */
  ghost predicate Pairwise<T>(rel: (T, T) -> bool, rows: seq<T>) {
    forall i, j :: 0 <= i < j < |rows| ==> rel(rows[i], rows[j])
  }

  /** Deleting rows keeps whatever holds of every pair. */
  lemma {:induction false} PairwiseFilter<T(!new)>(rel: (T, T) -> bool, keep: T -> bool, rows: seq<T>)
    requires Pairwise(rel, rows)
    ensures Pairwise(rel, Filter(keep, rows))
  {
    if rows != [] {
      var rest := rows[1..];
      PairwiseFilter(rel, keep, rest);
      var kept := Filter(keep, rest);
      forall k | 0 <= k < |kept| ensures rel(rows[0], kept[k]) {
        assert kept[k] in kept;
        var i :| 0 <= i < |rest| && rest[i] == kept[k];
        assert rows[i + 1] == kept[k];
      }
    }
  }

  lemma PairwiseAppend<T(!new)>(rel: (T, T) -> bool, rows: seq<T>, last: T)
    requires Pairwise(rel, rows) && forall x :: x in rows ==> rel(x, last)
    ensures Pairwise(rel, rows + [last])
  {
    var all := rows + [last];
    forall i, j | 0 <= i < j < |all| ensures rel(all[i], all[j]) {
      assert all[i] == rows[i] && rows[i] in rows;
    }
  }

  /** A second filter that the first one implies adds nothing. */
  lemma {:induction false} FilterWithin<T(!new)>(p: T -> bool, q: T -> bool, rows: seq<T>)
    requires forall x :: x in rows && p(x) ==> q(x)
    ensures Filter(p, Filter(q, rows)) == Filter(p, rows)
  {
    if rows != [] {
      assert forall x :: x in rows <==> x == rows[0] || x in rows[1..];
      FilterWithin(p, q, rows[1..]);
      if q(rows[0]) { assert ([rows[0]] + Filter(q, rows[1..]))[1..] == Filter(q, rows[1..]); }
    }
  }

  lemma {:induction false} FilterNone<T(!new)>(p: T -> bool, rows: seq<T>)
    requires forall x :: x in rows ==> !p(x)
    ensures Filter(p, rows) == []
  {
    if rows != [] {
      assert forall x :: x in rows <==> x == rows[0] || x in rows[1..];
      FilterNone(p, rows[1..]);
    }
  }

  /** An update that does not change who is selected commutes with the selection. */
  lemma {:induction false} FilterMap<T(!new)>(p: T -> bool, f: T -> T, rows: seq<T>)
    requires forall x :: p(f(x)) == p(x)
    ensures Filter(p, Map(f, rows)) == Map(f, Filter(p, rows))
  {
    if rows != [] {
      FilterMap(p, f, rows[1..]);
      assert Map(f, rows)[1..] == Map(f, rows[1..]);
      var rest := Filter(p, rows[1..]);
      assert Map(f, [rows[0]] + rest) == [f(rows[0])] + Map(f, rest);
    }
  }
}
