/**
 * The read-only report queries over the `expenses` table:
 *   - the monthly summary, `SELECT SUM(amount) FROM expenses WHERE date LIKE month || '%'`;
 *   - the per-category sums, `SELECT category, SUM(amount) ... GROUP BY category`;
 *   - the per-month sums, `SELECT SUBSTR(date, 1, 7) AS month, SUM(amount) ...
 *     GROUP BY month ORDER BY month`;
 * and the "no data" decision of the analysis screens.
 */
module Reports {
  import opened Text
  import opened Records

  /** The month a date belongs to: its first seven characters, `YYYY-MM`. */
  function MonthOf(date: string): (month: string)
    ensures |month| == if |date| < 7 then |date| else 7
    ensures IsPrefix(month, date)
  {
    Take(date, 7)
  }

  // ---------------------------------------------------------------------
  // Monthly summary

  /** The rows whose date text starts with `month`. */
  function InMonth(rows: seq<Expense>, month: string): (matching: seq<Expense>)
    ensures |matching| <= |rows|
    ensures forall i :: 0 <= i < |matching| ==> IsPrefix(month, matching[i].date)
  {
    if rows == [] then []
    else if IsPrefix(month, rows[0].date) then [rows[0]] + InMonth(rows[1..], month)
    else InMonth(rows[1..], month)
  }

  lemma {:induction false} InMonthExactly(rows: seq<Expense>, month: string)
    ensures forall r :: r in InMonth(rows, month) <==> r in rows && IsPrefix(month, r.date)
  {
    if rows != [] {
      InMonthExactly(rows[1..], month);
      assert forall r :: r in rows <==> r == rows[0] || r in rows[1..];
    }
  }

  lemma {:induction false} InMonthAppend(a: seq<Expense>, b: seq<Expense>, month: string)
    ensures InMonth(a + b, month) == InMonth(a, month) + InMonth(b, month)
  {
    if a == [] {
      assert a + b == b;
    } else {
      assert (a + b)[1..] == a[1..] + b;
      InMonthAppend(a[1..], b, month);
    }
  }

  /** SQL's SUM aggregate: NULL when there is no row to add up. */
  function SqlSum(rows: seq<Expense>): (s: Option<real>)
    ensures s.None? <==> rows == []
    ensures s.Some? ==> s.value == Total(rows)
  {
    if rows == [] then None else Some(Total(rows))
  }

  /**
   * The figure the monthly summary reports for the date typed in the form:
   * the SUM over rows whose date starts with the first seven characters of
   * that text, shown as 0 when SUM is NULL (or zero).
   */
  function MonthlyTotal(rows: seq<Expense>, entered: string): (total: real)
    ensures total == Total(InMonth(rows, MonthOf(entered)))
    ensures (forall r :: r in rows ==> !IsPrefix(MonthOf(entered), r.date)) ==> total == 0.0
  {
    InMonthExactly(rows, MonthOf(entered));
    match SqlSum(InMonth(rows, MonthOf(entered)))
    case None => 0.0
    case Some(t) => if t != 0.0 then t else 0.0
  }

  /** Adding a row raises the monthly total by its amount exactly when its date is in that month. */
  lemma MonthlyTotalAfterAdd(rows: seq<Expense>, r: Expense, entered: string)
    ensures MonthlyTotal(rows + [r], entered) ==
            MonthlyTotal(rows, entered) + (if IsPrefix(MonthOf(entered), r.date) then r.amount else 0.0)
  {
    var m := MonthOf(entered);
    InMonthAppend(rows, [r], m);
    TotalAppend(InMonth(rows, m), InMonth([r], m));
  }

  /** An empty date field gives the empty prefix, which every date starts with. */
  lemma {:induction false} MonthlyTotalOfEmptyEntry(rows: seq<Expense>)
    ensures MonthlyTotal(rows, "") == Total(rows)
  {
    InMonthAll(rows);
  }

  lemma {:induction false} InMonthAll(rows: seq<Expense>)
    ensures InMonth(rows, "") == rows
  {
    if rows != [] {
      InMonthAll(rows[1..]);
    }
  }

  // ---------------------------------------------------------------------
  // Grouped sums

  /** The column a grouping query groups by. */
  datatype Column = ByCategory | ByMonth

  function KeyOf(col: Column, r: Expense): string
  {
    match col
    case ByCategory => r.category
    case ByMonth => MonthOf(r.date)
  }

  /** One output row of a grouping query: the group key and `SUM(amount)`. */
  datatype Group = Group(key: string, total: real)

  predicate StrictlyAscending(gs: seq<Group>)
  {
    forall i, j :: 0 <= i < j < |gs| ==> LexLess(gs[i].key, gs[j].key)
  }

  function Keys(gs: seq<Group>): set<string>
  {
    if gs == [] then {} else {gs[0].key} + Keys(gs[1..])
  }

  /** The total recorded for key `k`, 0 when there is no such group. */
  function Lookup(gs: seq<Group>, k: string): real
  {
    if gs == [] then 0.0
    else if gs[0].key == k then gs[0].total
    else Lookup(gs[1..], k)
  }

  function SumOfGroups(gs: seq<Group>): real
  {
    if gs == [] then 0.0 else gs[0].total + SumOfGroups(gs[1..])
  }

  /** Adds `amount` to the group `k`, opening it in its place by key if it is new. */
  function AddToGroup(gs: seq<Group>, k: string, amount: real): (added: seq<Group>)
    ensures added != [] && |added| <= |gs| + 1
  {
    if gs == [] then [Group(k, amount)]
    else if gs[0].key == k then [Group(k, gs[0].total + amount)] + gs[1..]
    else if LexLess(k, gs[0].key) then [Group(k, amount)] + gs
    else [gs[0]] + AddToGroup(gs[1..], k, amount)
  }

  /** The output of `SELECT key, SUM(amount) FROM expenses GROUP BY key`, by key. */
  function GroupSums(rows: seq<Expense>, col: Column): (groups: seq<Group>)
    ensures |groups| <= |rows|
    ensures groups == [] <==> rows == []
  {
    if rows == [] then []
    else AddToGroup(GroupSums(rows[1..], col), KeyOf(col, rows[0]), rows[0].amount)
  }

  /** The rows that fall in group `k`. */
  function WithKey(rows: seq<Expense>, col: Column, k: string): seq<Expense>
  {
    if rows == [] then []
    else if KeyOf(col, rows[0]) == k then [rows[0]] + WithKey(rows[1..], col, k)
    else WithKey(rows[1..], col, k)
  }

  lemma {:induction false} KeysAt(gs: seq<Group>, x: string)
    ensures x in Keys(gs) <==> exists i :: 0 <= i < |gs| && gs[i].key == x
  {
    if gs != [] {
      KeysAt(gs[1..], x);
      if x in Keys(gs[1..]) {
        var i :| 0 <= i < |gs[1..]| && gs[1..][i].key == x;
        assert gs[i + 1].key == x;
      }
      if exists i :: 0 <= i < |gs| && gs[i].key == x {
        var i :| 0 <= i < |gs| && gs[i].key == x;
        if i > 0 {
          assert gs[1..][i - 1].key == x;
        }
      }
    }
  }

  lemma AscendingTail(gs: seq<Group>)
    requires gs != [] && StrictlyAscending(gs)
    ensures StrictlyAscending(gs[1..])
  {
  }

  /** A key smaller than the first of an ascending list is none of its keys. */
  lemma {:induction false} BelowAllKeys(gs: seq<Group>, k: string)
    requires gs != [] && StrictlyAscending(gs) && LexLess(k, gs[0].key)
    ensures k !in Keys(gs)
  {
    KeysAt(gs, k);
    if k in Keys(gs) {
      var i :| 0 <= i < |gs| && gs[i].key == k;
      if i > 0 {
        LexLessTransitive(k, gs[0].key, gs[i].key);
      }
      LexLessIrreflexive(k);
    }
  }

  lemma {:induction false} AddToGroupKeys(gs: seq<Group>, k: string, amount: real)
    ensures Keys(AddToGroup(gs, k, amount)) == Keys(gs) + {k}
  {
    if gs != [] && gs[0].key != k && !LexLess(k, gs[0].key) {
      AddToGroupKeys(gs[1..], k, amount);
    }
  }

  /** Adding to an existing group keeps every key. */
  lemma MergeAscending(gs: seq<Group>, k: string, amount: real)
    requires gs != [] && gs[0].key == k && StrictlyAscending(gs)
    ensures StrictlyAscending(AddToGroup(gs, k, amount))
  {
  }

  /** A new key below the first goes in front. */
  lemma PrependAscending(gs: seq<Group>, k: string, amount: real)
    requires gs != [] && LexLess(k, gs[0].key) && StrictlyAscending(gs)
    ensures StrictlyAscending(AddToGroup(gs, k, amount))
  {
    LexLessIrreflexive(k);
    assert AddToGroup(gs, k, amount) == [Group(k, amount)] + gs;
    forall j | 0 <= j < |gs| ensures LexLess(k, gs[j].key) {
      if j > 0 {
        LexLessTransitive(k, gs[0].key, gs[j].key);
      }
    }
    ConsAscending(Group(k, amount), gs);
  }

  /** A head below every key of an ascending tail keeps the whole list ascending. */
  lemma ConsAscending(g: Group, rest: seq<Group>)
    requires StrictlyAscending(rest)
    requires forall j :: 0 <= j < |rest| ==> LexLess(g.key, rest[j].key)
    ensures StrictlyAscending([g] + rest)
  {
  }

  lemma {:induction false} AddToGroupAscending(gs: seq<Group>, k: string, amount: real)
    requires StrictlyAscending(gs)
    ensures StrictlyAscending(AddToGroup(gs, k, amount))
  {
    if gs == [] {
    } else if gs[0].key == k {
      MergeAscending(gs, k, amount);
    } else if LexLess(k, gs[0].key) {
      PrependAscending(gs, k, amount);
    } else {
      LexLessTotal(k, gs[0].key);
      var tail := gs[1..];
      AscendingTail(gs);
      AddToGroupAscending(tail, k, amount);
      AddToGroupKeys(tail, k, amount);
      var rest := AddToGroup(tail, k, amount);
      forall j | 0 <= j < |rest| ensures LexLess(gs[0].key, rest[j].key) {
        KeysAt(rest, rest[j].key);
        if rest[j].key != k {
          KeysAt(tail, rest[j].key);
          var m :| 0 <= m < |tail| && tail[m].key == rest[j].key;
          assert gs[m + 1] == tail[m];
        }
      }
      ConsAscending(gs[0], rest);
    }
  }

  lemma {:induction false} LookupAbsent(gs: seq<Group>, k: string)
    requires k !in Keys(gs)
    ensures Lookup(gs, k) == 0.0
  {
    if gs != [] {
      LookupAbsent(gs[1..], k);
    }
  }

  /** In an ascending list each group is the one Lookup finds for its key. */
  lemma {:induction false} LookupAt(gs: seq<Group>, i: nat)
    requires StrictlyAscending(gs) && i < |gs|
    ensures Lookup(gs, gs[i].key) == gs[i].total
  {
    if i > 0 {
      if gs[0].key == gs[i].key {
        LexLessIrreflexive(gs[0].key);
        assert false;
      }
      AscendingTail(gs);
      LookupAt(gs[1..], i - 1);
    }
  }

  lemma {:induction false} AddToGroupLookup(gs: seq<Group>, k: string, amount: real, x: string)
    requires StrictlyAscending(gs)
    ensures Lookup(AddToGroup(gs, k, amount), x) == Lookup(gs, x) + (if x == k then amount else 0.0)
  {
    if gs == [] {
    } else if gs[0].key == k {
    } else if LexLess(k, gs[0].key) {
      if x == k {
        BelowAllKeys(gs, k);
        LookupAbsent(gs, k);
      }
    } else {
      AscendingTail(gs);
      AddToGroupLookup(gs[1..], k, amount, x);
    }
  }

  lemma {:induction false} AddToGroupSum(gs: seq<Group>, k: string, amount: real)
    ensures SumOfGroups(AddToGroup(gs, k, amount)) == SumOfGroups(gs) + amount
  {
    if gs != [] && gs[0].key != k && !LexLess(k, gs[0].key) {
      AddToGroupSum(gs[1..], k, amount);
    }
  }

  lemma {:induction false} GroupSumsAscending(rows: seq<Expense>, col: Column)
    ensures StrictlyAscending(GroupSums(rows, col))
  {
    if rows != [] {
      GroupSumsAscending(rows[1..], col);
      AddToGroupAscending(GroupSums(rows[1..], col), KeyOf(col, rows[0]), rows[0].amount);
    }
  }

  lemma {:induction false} GroupSumsKeys(rows: seq<Expense>, col: Column)
    ensures forall k :: k in Keys(GroupSums(rows, col)) <==> exists r :: r in rows && KeyOf(col, r) == k
  {
    if rows != [] {
      GroupSumsKeys(rows[1..], col);
      AddToGroupKeys(GroupSums(rows[1..], col), KeyOf(col, rows[0]), rows[0].amount);
      assert forall r :: r in rows <==> r == rows[0] || r in rows[1..];
    }
  }

  lemma {:induction false} GroupSumsLookup(rows: seq<Expense>, col: Column, k: string)
    ensures Lookup(GroupSums(rows, col), k) == Total(WithKey(rows, col, k))
  {
    if rows != [] {
      GroupSumsLookup(rows[1..], col, k);
      GroupSumsAscending(rows[1..], col);
      AddToGroupLookup(GroupSums(rows[1..], col), KeyOf(col, rows[0]), rows[0].amount, k);
    }
  }

  lemma {:induction false} GroupSumsSum(rows: seq<Expense>, col: Column)
    ensures SumOfGroups(GroupSums(rows, col)) == Total(rows)
  {
    if rows != [] {
      GroupSumsSum(rows[1..], col);
      AddToGroupSum(GroupSums(rows[1..], col), KeyOf(col, rows[0]), rows[0].amount);
    }
  }

  /**
   * A grouping query partitions the table: one group per distinct key
   * value present, in ascending key order, each holding the sum of exactly
   * its rows, the group sums adding up to the sum of all amounts, and no
   * group at all for an empty table.
   */
  lemma GroupSumsPartition(rows: seq<Expense>, col: Column)
    ensures StrictlyAscending(GroupSums(rows, col))
    ensures forall i, j :: 0 <= i < j < |GroupSums(rows, col)| ==>
              GroupSums(rows, col)[i].key != GroupSums(rows, col)[j].key
    ensures forall k :: k in Keys(GroupSums(rows, col)) <==> exists r :: r in rows && KeyOf(col, r) == k
    ensures forall i :: 0 <= i < |GroupSums(rows, col)| ==>
              GroupSums(rows, col)[i].total == Total(WithKey(rows, col, GroupSums(rows, col)[i].key))
    ensures SumOfGroups(GroupSums(rows, col)) == Total(rows)
    ensures GroupSums(rows, col) == [] <==> rows == []
  {
    var g := GroupSums(rows, col);
    GroupSumsAscending(rows, col);
    GroupSumsKeys(rows, col);
    GroupSumsSum(rows, col);
    forall i, j | 0 <= i < j < |g| ensures g[i].key != g[j].key {
      if g[i].key == g[j].key {
        LexLessIrreflexive(g[i].key);
      }
    }
    forall i | 0 <= i < |g| ensures g[i].total == Total(WithKey(rows, col, g[i].key)) {
      LookupAt(g, i);
      GroupSumsLookup(rows, col, g[i].key);
    }
    if rows != [] {
      assert rows[0] in rows;
    }
  }

  /** Per-category sums; grouped by the exact category text. */
  function CategoryTotals(rows: seq<Expense>): (groups: seq<Group>)
    ensures forall i, j :: 0 <= i < j < |groups| ==> groups[i].key != groups[j].key
    ensures forall c :: c in Keys(groups) <==> exists r :: r in rows && r.category == c
    ensures forall i :: 0 <= i < |groups| ==>
              groups[i].total == Total(WithKey(rows, ByCategory, groups[i].key))
    ensures SumOfGroups(groups) == Total(rows)
    ensures groups == [] <==> rows == []
  {
    GroupSumsPartition(rows, ByCategory);
    GroupSums(rows, ByCategory)
  }

  /** Per-month sums, ordered by month. */
  function MonthTotals(rows: seq<Expense>): (groups: seq<Group>)
    ensures StrictlyAscending(groups)
    ensures forall m :: m in Keys(groups) <==> exists r :: r in rows && MonthOf(r.date) == m
    ensures forall i :: 0 <= i < |groups| ==>
              groups[i].total == Total(WithKey(rows, ByMonth, groups[i].key))
    ensures SumOfGroups(groups) == Total(rows)
    ensures groups == [] <==> rows == []
  {
    GroupSumsPartition(rows, ByMonth);
    GroupSums(rows, ByMonth)
  }

  lemma {:induction false} InMonthIsMonthGroup(rows: seq<Expense>, month: string)
    requires |month| == 7
    ensures InMonth(rows, month) == WithKey(rows, ByMonth, month)
  {
    if rows != [] {
      PrefixIffTake(month, rows[0].date);
      InMonthIsMonthGroup(rows[1..], month);
    }
  }

  /**
   * The two reports agree: for a date of at least seven characters, the
   * monthly summary equals that month's bar in the per-month sums (0 when
   * the month has no bar).
   */
  lemma MonthlyTotalMatchesMonthTotals(rows: seq<Expense>, entered: string)
    requires |entered| >= 7
    ensures MonthlyTotal(rows, entered) == Lookup(MonthTotals(rows), entered[..7])
  {
    InMonthIsMonthGroup(rows, entered[..7]);
    GroupSumsLookup(rows, ByMonth, entered[..7]);
  }

  // ---------------------------------------------------------------------
  // Analysis screens

  /** What an analysis screen shows: a message, or the charts' data. */
  datatype Analysis = NoData | Charts(categories: seq<Group>, months: seq<Group>)

  /**
   * The category-only analysis: "No data available!" when the per-category
   * query returns no rows, a chart of the per-category sums otherwise.
   */
  function CategoryBreakdown(rows: seq<Expense>): (a: Analysis)
    ensures a == NoData <==> rows == []
    ensures a.Charts? ==> a.categories == CategoryTotals(rows) && a.months == []
  {
    var categories := CategoryTotals(rows);
    if categories == [] then NoData else Charts(categories, [])
  }

  /**
   * The category-and-month analysis: "No data available" only when both
   * queries return no rows, both charts' data otherwise.
   */
  function CategoryAndMonthBreakdown(rows: seq<Expense>): (a: Analysis)
    ensures a == NoData <==> rows == []
    ensures a == NoData <==> CategoryTotals(rows) == [] && MonthTotals(rows) == []
    ensures a.Charts? ==> a.categories == CategoryTotals(rows) && a.months == MonthTotals(rows)
  {
    var categories := CategoryTotals(rows);
    var months := MonthTotals(rows);
    if categories == [] && months == [] then NoData else Charts(categories, months)
  }

  // ---------------------------------------------------------------------
  // A worked example

  /** Two food expenses in January and a bill in February. */
  function ExampleRows(): seq<Expense>
  {
    [Expense(1, "2025-01-10", 50.0, "Food", ""),
     Expense(2, "2025-01-15", 30.0, "Food", ""),
     Expense(3, "2025-02-01", 100.0, "Bills", "")]
  }

  /** January's summary of the example is 80. */
  lemma ExampleMonthlyTotal()
    ensures MonthlyTotal(ExampleRows(), "2025-01-20") == 80.0
  {
    var rows := ExampleRows();
    assert rows[1..] == [rows[1], rows[2]] && rows[1..][1..] == [rows[2]] && [rows[2]][1..] == [];
    assert MonthOf("2025-01-20") == "2025-01";
    assert IsPrefix("2025-01", rows[0].date) && IsPrefix("2025-01", rows[1].date);
    assert !IsPrefix("2025-01", rows[2].date) by {
      assert rows[2].date[..7][6] != "2025-01"[6];
    }
    assert InMonth(rows, "2025-01") == [rows[0], rows[1]];
  }

  lemma ExampleMonthsOrdered()
    ensures "2025-01" != "2025-02" && LexLess("2025-01", "2025-02")
  {
  }

  lemma ExampleMonthGroupsFromThird()
    ensures GroupSums(ExampleRows()[2..], ByMonth) == [Group("2025-02", 100.0)]
  {
    var rows := ExampleRows();
    assert rows[2..][1..] == [];
    assert MonthOf(rows[2].date) == "2025-02";
  }

  lemma ExampleMonthGroupsFromSecond()
    ensures GroupSums(ExampleRows()[1..], ByMonth) == [Group("2025-01", 30.0), Group("2025-02", 100.0)]
  {
    var rows := ExampleRows();
    assert rows[1..][1..] == rows[2..];
    ExampleMonthGroupsFromThird();
    ExampleMonthsOrdered();
    assert MonthOf(rows[1].date) == "2025-01";
  }

  /** The example's months come out in order, with 80 and 100. */
  lemma ExampleMonthTotals()
    ensures MonthTotals(ExampleRows()) == [Group("2025-01", 80.0), Group("2025-02", 100.0)]
  {
    var rows := ExampleRows();
    ExampleMonthGroupsFromSecond();
    ExampleMonthsOrdered();
    assert MonthOf(rows[0].date) == "2025-01";
    assert [Group("2025-01", 30.0), Group("2025-02", 100.0)][1..] == [Group("2025-02", 100.0)];
  }

  /**
   * The example's categories sum to 100 for bills and 80 for food, one
   * group each; in no particular order, as `GROUP BY category` gives none.
   */
  lemma ExampleCategoryTotals()
    ensures var c := CategoryTotals(ExampleRows());
      && |c| == 2 && Keys(c) == {"Bills", "Food"}
      && Lookup(c, "Bills") == 100.0 && Lookup(c, "Food") == 80.0
  {
  }

}
