/**
 * A `QuerySet.filter(...)` over a table held in memory: the rows that pass
 * the condition, in table order.
 */
module QuerySets {

  function Filter<T(!new)>(rows: seq<T>, keep: T -> bool): (r: seq<T>)
    ensures |r| <= |rows|
    ensures forall x :: x in r <==> x in rows && keep(x)
    decreases |rows|
  {
    if |rows| == 0 then []
    else if keep(rows[0]) then [rows[0]] + Filter(rows[1..], keep)
    else Filter(rows[1..], keep)
  }

  /** Filtering a table made of two parts filters each part in place. */
  lemma {:induction false} FilterConcat<T(!new)>(a: seq<T>, b: seq<T>, keep: T -> bool)
    ensures Filter(a + b, keep) == Filter(a, keep) + Filter(b, keep)
  {
    if |a| > 0 {
      assert (a + b)[1..] == a[1..] + b;
      FilterConcat(a[1..], b, keep);
    } else {
      assert a + b == b;
    }
  }

  /**
   * Filtering by `narrow` after filtering by `wide` is filtering by `narrow` alone,
   * when every row `narrow` keeps is one `wide` keeps too: rows `wide` removes were
   * never rows `narrow` selects, and the order of the others is unchanged.
   */
  lemma {:induction false} FilterWithin<T(!new)>(rows: seq<T>, wide: T -> bool, narrow: T -> bool)
    requires forall i :: 0 <= i < |rows| && narrow(rows[i]) ==> wide(rows[i])
    ensures Filter(Filter(rows, wide), narrow) == Filter(rows, narrow)
  {
    if |rows| > 0 {
      FilterWithin(rows[1..], wide, narrow);
    }
  }
}
