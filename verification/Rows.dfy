/** Lists of table rows: `WHERE` clauses and uniqueness constraints. */
module Rows {
  function Filter<T(!new)>(keep: T -> bool, rows: seq<T>): (r: seq<T>)
    ensures forall x :: x in r <==> x in rows && keep(x)
  {
    if rows == [] then []
    else (if keep(rows[0]) then [rows[0]] else []) + Filter(keep, rows[1..])
  }

  lemma {:induction false} FilterConcat<T(!new)>(keep: T -> bool, a: seq<T>, b: seq<T>)
    ensures Filter(keep, a + b) == Filter(keep, a) + Filter(keep, b)
  {
    if a == [] {
      assert a + b == b;
    } else {
      assert (a + b)[1..] == a[1..] + b;
      FilterConcat(keep, a[1..], b);
    }
  }

  lemma {:induction false} FilterAgree<T(!new)>(p: T -> bool, q: T -> bool, rows: seq<T>)
    requires forall x :: x in rows ==> p(x) == q(x)
    ensures Filter(p, rows) == Filter(q, rows)
  {
    if rows != [] {
      FilterAgree(p, q, rows[1..]);
    }
  }

  lemma {:induction false} FilterTwice<T(!new)>(p: T -> bool, q: T -> bool, both: T -> bool, rows: seq<T>)
    requires forall x :: x in rows ==> both(x) == (p(x) && q(x))
    ensures Filter(q, Filter(p, rows)) == Filter(both, rows)
  {
    if rows != [] {
      FilterTwice(p, q, both, rows[1..]);
      var rest := Filter(p, rows[1..]);
      if p(rows[0]) {
        assert Filter(p, rows) == [rows[0]] + rest;
        assert ([rows[0]] + rest)[1..] == rest;
      } else {
        assert Filter(p, rows) == rest;
      }
    }
  }

  lemma {:induction false} FilterAll<T(!new)>(keep: T -> bool, rows: seq<T>)
    requires forall x :: x in rows ==> keep(x)
    ensures Filter(keep, rows) == rows
  {
    if rows != [] {
      FilterAll(keep, rows[1..]);
    }
  }

  lemma {:induction false} FilterNone<T(!new)>(keep: T -> bool, rows: seq<T>)
    requires forall x :: x in rows ==> !keep(x)
    ensures Filter(keep, rows) == []
  {
    if rows != [] {
      FilterNone(keep, rows[1..]);
    }
  }

  /** A property of all pairs of distinct positions. */
  ghost predicate Pairwise<T(!new)>(distinct: (T, T) -> bool, rows: seq<T>) {
    forall i, j :: 0 <= i < j < |rows| ==> distinct(rows[i], rows[j])
  }

  lemma {:induction false} PairwiseFilter<T(!new)>(distinct: (T, T) -> bool, keep: T -> bool, rows: seq<T>)
    requires Pairwise(distinct, rows)
    ensures Pairwise(distinct, Filter(keep, rows))
  {
    if rows != [] {
      var rest := rows[1..];
      forall i, j | 0 <= i < j < |rest| ensures distinct(rest[i], rest[j]) {
        assert distinct(rows[i + 1], rows[j + 1]);
      }
      PairwiseFilter(distinct, keep, rest);
      var kept := Filter(keep, rest);
      if keep(rows[0]) {
        forall j | 0 <= j < |kept| ensures distinct(rows[0], kept[j]) {
          assert kept[j] in rest;
          var k :| 0 <= k < |rest| && rest[k] == kept[j];
          assert distinct(rows[0], rows[k + 1]);
        }
      }
    }
  }

  lemma PairwiseAppend<T(!new)>(distinct: (T, T) -> bool, rows: seq<T>, x: T)
    requires Pairwise(distinct, rows) && forall y :: y in rows ==> distinct(y, x)
    ensures Pairwise(distinct, rows + [x])
  {
  }

  /** Of three parts only the middle one is kept. */
  lemma FilterMiddle<T(!new)>(keep: T -> bool, a: seq<T>, b: seq<T>, c: seq<T>)
    requires forall x :: x in a || x in c ==> !keep(x)
    requires forall x :: x in b ==> keep(x)
    ensures Filter(keep, a + b + c) == b
  {
    hide Filter;
    FilterConcat(keep, a + b, c);
    FilterConcat(keep, a, b);
    FilterNone(keep, a);
    FilterAll(keep, b);
    FilterNone(keep, c);
  }
}
