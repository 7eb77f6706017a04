/**
 * The listing query `SELECT * FROM expenses ORDER BY date DESC`: every row,
 * latest date text first. Rows with equal dates may come in any order, so
 * what is promised is sortedness and being a permutation of the table; the
 * ordering function below is one admissible answer (an insertion sort).
 */
module Listing {
  import opened Text
  import opened Records

  /** Non-increasing by date under lexicographic string order. */
  predicate SortedByDateDesc(rows: seq<Expense>)
  {
    forall i, j :: 0 <= i < j < |rows| ==> LexLe(rows[j].date, rows[i].date)
  }

  /**
   * `view` is an admissible answer to the listing query over `rows`: the
   * same rows, latest date first. Rows with equal dates may come in any order.
   */
  predicate ListingOf(view: seq<Expense>, rows: seq<Expense>)
  {
    SortedByDateDesc(view) && multiset(view) == multiset(rows)
  }

  /** Places `r` before the first row whose date is not later than its own. */
  function InsertByDate(r: Expense, sorted: seq<Expense>): seq<Expense>
  {
    if sorted == [] then [r]
    else if LexLe(sorted[0].date, r.date) then [r] + sorted
    else [sorted[0]] + InsertByDate(r, sorted[1..])
  }


  lemma SortedTail(rows: seq<Expense>)
    requires rows != [] && SortedByDateDesc(rows)
    ensures SortedByDateDesc(rows[1..])
  {
  }

  lemma {:induction false} InsertByDatePermutes(r: Expense, sorted: seq<Expense>)
    ensures multiset(InsertByDate(r, sorted)) == multiset(sorted) + multiset{r}
  {
    if sorted != [] && !LexLe(sorted[0].date, r.date) {
      InsertByDatePermutes(r, sorted[1..]);
      assert sorted == [sorted[0]] + sorted[1..];
    }
  }

  /** A row dated no earlier than the head goes in front. */
  lemma PrependSorted(r: Expense, sorted: seq<Expense>)
    requires sorted != [] && LexLe(sorted[0].date, r.date) && SortedByDateDesc(sorted)
    ensures SortedByDateDesc([r] + sorted)
  {
    forall k | 0 <= k < |sorted| ensures LexLe(sorted[k].date, r.date) {
      if k > 0 {
        LexLeTransitive(sorted[k].date, sorted[0].date, r.date);
      }
    }
    ConsSorted(r, sorted);
  }

  /** A head dated no earlier than every row of a sorted tail keeps the whole sorted. */
  lemma ConsSorted(head: Expense, rest: seq<Expense>)
    requires SortedByDateDesc(rest)
    requires forall k :: 0 <= k < |rest| ==> LexLe(rest[k].date, head.date)
    ensures SortedByDateDesc([head] + rest)
  {
  }

  lemma {:induction false} InsertByDateSorted(r: Expense, sorted: seq<Expense>)
    requires SortedByDateDesc(sorted)
    ensures SortedByDateDesc(InsertByDate(r, sorted))
  {
    if sorted == [] {
    } else if LexLe(sorted[0].date, r.date) {
      PrependSorted(r, sorted);
    } else {
      var head := sorted[0];
      var tail := sorted[1..];
      LexLessTotal(head.date, r.date);
      SortedTail(sorted);
      InsertByDateSorted(r, tail);
      InsertByDatePermutes(r, tail);
      var rest := InsertByDate(r, tail);
      forall k | 0 <= k < |rest| ensures LexLe(rest[k].date, head.date) {
        assert rest[k] in multiset(rest);
        if rest[k] != r {
          assert rest[k] in multiset(tail);
          var m :| 0 <= m < |tail| && tail[m] == rest[k];
          assert sorted[m + 1] == rest[k];
        }
      }
      ConsSorted(head, rest);
    }
  }

  /**
   * The rows in the order the listing query returns them: exactly the
   * table's rows, as often as the table holds them, latest date first.
   */
  function OrderByDateDesc(rows: seq<Expense>): (listing: seq<Expense>)
    ensures ListingOf(listing, rows)
  {
    if rows == [] then []
    else
      var rest := OrderByDateDesc(rows[1..]);
      InsertIntoListing(rows[0], rest, rows[1..]);
      assert rows == [rows[0]] + rows[1..];
      InsertByDate(rows[0], rest)
  }

  /** Placing one more row into a listing gives a listing of one more row. */
  lemma InsertIntoListing(r: Expense, view: seq<Expense>, rows: seq<Expense>)
    requires ListingOf(view, rows)
    ensures ListingOf(InsertByDate(r, view), [r] + rows)
  {
    InsertByDatePermutes(r, view);
    InsertByDateSorted(r, view);
  }

  /** Two date-sorted arrangements of the same rows with distinct dates start alike. */
  lemma SameFirst(a: seq<Expense>, b: seq<Expense>)
    requires a != [] && multiset(a) == multiset(b)
    requires SortedByDateDesc(a) && SortedByDateDesc(b)
    requires DistinctDates(a)
    ensures b != [] && a[0] == b[0]
  {
    assert a[0] in multiset(b);
    var q :| 0 <= q < |b| && b[q] == a[0];
    assert b[0] in multiset(a);
    var p :| 0 <= p < |a| && a[p] == b[0];
    if p != 0 {
      assert LexLe(b[q].date, b[0].date);
      LexLessAsymmetric(a[p].date, a[0].date);
      assert false;
    }
  }

  lemma TailMultiset(rows: seq<Expense>)
    requires rows != []
    ensures multiset(rows[1..]) == multiset(rows) - multiset{rows[0]}
  {
    assert rows == [rows[0]] + rows[1..];
  }

  predicate DistinctDates(rows: seq<Expense>)
  {
    forall i, j :: 0 <= i < j < |rows| ==> rows[i].date != rows[j].date
  }

  lemma DistinctDatesTail(rows: seq<Expense>)
    requires rows != [] && DistinctDates(rows)
    ensures DistinctDates(rows[1..])
  {
  }

  /**
   * The ordering is fixed by the dates alone when they are distinct: any
   * date-sorted arrangement of the same rows is this one.
   */
  lemma {:induction false} SortedPermutationUnique(a: seq<Expense>, b: seq<Expense>)
    requires multiset(a) == multiset(b)
    requires SortedByDateDesc(a) && SortedByDateDesc(b)
    requires DistinctDates(a)
    ensures a == b
    decreases |a|
  {
    if a == [] {
      assert |b| == |multiset(b)| == 0;
    } else {
      SameFirst(a, b);
      TailMultiset(a);
      TailMultiset(b);
      SortedTail(a);
      SortedTail(b);
      DistinctDatesTail(a);
      SortedPermutationUnique(a[1..], b[1..]);
      assert a == [a[0]] + a[1..] && b == [b[0]] + b[1..];
    }
  }
}
