/**
 * The relational operators that the service's statements are built from, over a table held as
 * the sequence of its rows in storage order: `SELECT`/`DELETE ... WHERE`, `rows[0]` of a result,
 * `UPDATE ... SET ... WHERE`, a projection, and a reversal used for `ORDER BY ... DESC`.
 */
module Sql {
  import opened Wrappers

  /** The rows satisfying `p`, kept in storage order (`SELECT * ... WHERE p`). */
  function Where<T(!new)>(rows: seq<T>, p: T -> bool): (r: seq<T>)
    ensures forall x :: x in r <==> x in rows && p(x)
    ensures |r| <= |rows|
    ensures (forall x :: x in rows ==> !p(x)) ==> r == []
  {
    if rows == [] then []
    else (if p(rows[0]) then [rows[0]] else []) + Where(rows[1..], p)
  }

  /** The first row of a result (`rows[0]`), `None` standing for JavaScript's `undefined`. */
  function FirstWhere<T(!new)>(rows: seq<T>, p: T -> bool): (r: Option<T>)
    ensures r.Some? ==> r.value in rows && p(r.value)
    ensures r.None? <==> forall x :: x in rows ==> !p(x)
  {
    var matching := Where(rows, p);
    if matching == [] then None else Some(matching[0])
  }

  /** `UPDATE ... SET f WHERE p`: every matching row is replaced in place by `f` of it. */
  function UpdateWhere<T>(rows: seq<T>, p: T -> bool, f: T -> T): (r: seq<T>)
    ensures |r| == |rows|
    ensures forall i :: 0 <= i < |rows| ==> r[i] == if p(rows[i]) then f(rows[i]) else rows[i]
  {
    seq(|rows|, i requires 0 <= i < |rows| => if p(rows[i]) then f(rows[i]) else rows[i])
  }

  /** A projection of every row (`rows.map(...)`). */
  function Select<T, U>(rows: seq<T>, f: T -> U): (r: seq<U>)
    ensures |r| == |rows|
    ensures forall i :: 0 <= i < |rows| ==> r[i] == f(rows[i])
  {
    seq(|rows|, i requires 0 <= i < |rows| => f(rows[i]))
  }

  /** The rows in the opposite order. */
  function Reversed<T(!new)>(s: seq<T>): (r: seq<T>)
    ensures |r| == |s|
    ensures forall i :: 0 <= i < |s| ==> r[i] == s[|s| - 1 - i]
    ensures forall x :: x in r <==> x in s
  {
    var r := seq(|s|, i requires 0 <= i < |s| => s[|s| - 1 - i]);
    assert forall i :: 0 <= i < |s| ==> s[i] == r[|s| - 1 - i];
    r
  }

  /** Every earlier row stands in `rel` to every later one. */
  ghost predicate Pairwise<T>(s: seq<T>, rel: (T, T) -> bool) {
    forall i, j :: 0 <= i < j < |s| ==> rel(s[i], s[j])
  }

  /** A filter that every row passes leaves the table as it was. */
  lemma {:induction false} WhereKeepsAll<T(!new)>(rows: seq<T>, p: T -> bool)
    requires forall x :: x in rows ==> p(x)
    ensures Where(rows, p) == rows
  {
    if rows != [] {
      WhereKeepsAll(rows[1..], p);
    }
  }

  /** Filtering keeps the relative order of the rows, so it keeps any pairwise property. */
  lemma {:induction false} WhereKeepsPairwise<T(!new)>(rows: seq<T>, p: T -> bool, rel: (T, T) -> bool)
    requires Pairwise(rows, rel)
    ensures Pairwise(Where(rows, p), rel)
  {
    if rows != [] {
      var tail := rows[1..];
      assert Pairwise(tail, rel) by {
        forall i, j | 0 <= i < j < |tail| ensures rel(tail[i], tail[j]) {
          assert tail[i] == rows[i + 1] && tail[j] == rows[j + 1];
        }
      }
      WhereKeepsPairwise(tail, p, rel);
      var rest := Where(tail, p);
      forall y | y in rest ensures rel(rows[0], y) {
        var j :| 0 <= j < |tail| && tail[j] == y;
        assert rows[j + 1] == y;
      }
      var head := if p(rows[0]) then [rows[0]] else [];
      assert Where(rows, p) == head + rest;
      forall i, j | 0 <= i < j < |head + rest| ensures rel((head + rest)[i], (head + rest)[j]) {
        if head != [] && i == 0 {
          assert (head + rest)[j] == rest[j - 1];
          assert rest[j - 1] in rest;
        } else {
          assert (head + rest)[i] == rest[i - |head|] && (head + rest)[j] == rest[j - |head|];
        }
      }
    }
  }

  /** Appending a row that stands in `rel` to every existing row keeps a pairwise property. */
  lemma AppendKeepsPairwise<T>(s: seq<T>, y: T, rel: (T, T) -> bool)
    requires Pairwise(s, rel)
    requires forall x :: x in s ==> rel(x, y)
    ensures Pairwise(s + [y], rel)
  {
    forall i, j | 0 <= i < j < |s + [y]| ensures rel((s + [y])[i], (s + [y])[j]) {
      assert (s + [y])[i] == s[i];
      if j == |s| {
        assert s[i] in s;
      } else {
        assert (s + [y])[j] == s[j];
      }
    }
  }

  /** An update that keeps every pair of rows related keeps a pairwise property. */
  lemma UpdateKeepsPairwise<T>(rows: seq<T>, p: T -> bool, f: T -> T, rel: (T, T) -> bool)
    requires Pairwise(rows, rel)
    requires forall a, b :: rel(a, b) ==> rel(f(a), b) && rel(a, f(b)) && rel(f(a), f(b))
    ensures Pairwise(UpdateWhere(rows, p, f), rel)
  {
  }

  /** Two different rows of a pairwise-related table are related one way or the other. */
  lemma PairwiseMembers<T>(s: seq<T>, rel: (T, T) -> bool, a: T, b: T)
    requires Pairwise(s, rel)
    requires a in s && b in s && a != b
    ensures rel(a, b) || rel(b, a)
  {
    var i :| 0 <= i < |s| && s[i] == a;
    var j :| 0 <= j < |s| && s[j] == b;
    assert i != j;
  }

  /** Reversing a table turns `rel` into its converse. */
  lemma ReversedFlipsPairwise<T(!new)>(s: seq<T>, rel: (T, T) -> bool, converse: (T, T) -> bool)
    requires Pairwise(s, rel)
    requires forall a, b :: rel(a, b) ==> converse(b, a)
    ensures Pairwise(Reversed(s), converse)
  {
    var r := Reversed(s);
    forall i, j | 0 <= i < j < |r| ensures converse(r[i], r[j]) {
      assert rel(s[|s| - 1 - j], s[|s| - 1 - i]);
    }
  }
}
