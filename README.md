# Expense tracker ledger, modelled in Dafny

The expense tracker is a desktop form over one SQLite table,
`expenses(id, date, amount, category, description)`. The user adds dated
expenses, deletes the selected one, sees all of them listed latest date
first, and asks for two reports: the total of one month, and a breakdown
by category (and, in one variant, by month). Two variants of the program
exist (`chk.py` and `Project2.py`). Their ledger behaviour is the same
except where noted below.

This project models that ledger and its queries:

- `text.dfy` (module `Text`): the string order SQLite uses on the `date`
  column (lexicographic, character by character), prefix matching, and
  cutting a string to its first n characters (`s[:7]`, `SUBSTR(s, 1, 7)`).
- `records.dfy` (module `Records`): the row type. Also the guards of the
  add form, the sum of amounts, and `DELETE ... WHERE id = k` as a filter,
  with lemmas on what deleting keeps and removes.
- `listing.dfy` (module `Listing`): `ORDER BY date DESC` as an insertion
  sort. It is proved sorted, a permutation of the table, and the only such
  arrangement when dates are distinct.
- `reports.dfy` (module `Reports`): the monthly summary as a prefix filter
  plus SUM, `GROUP BY category` and `GROUP BY SUBSTR(date, 1, 7) ORDER BY
  month` as one grouping function, and the "no data" decision. Lemmas
  prove that groups partition the table.
- `store.dfy` (module `Store`): the mutable state.
  - Class `Database` holds the table's existence, its rows and the
    AUTOINCREMENT counter, with a ghost set of every id ever issued.
  - Class `Tracker` holds the list the window shows.
  - Their methods create the table, insert, delete and reload the list.

Amounts are exact (`real`). Python's `float()` on the amount text is a
parameter `parse: string -> Option<real>` of the add operation. The
database file, the window and the charts are not modelled. The table is the
state of `Database`, and the list widget is the `view` field of `Tracker`.

Where the two variants differ:

- Non-numeric amount. `chk.py` catches the `ValueError` from `float()` and
  shows a message. `Project2.py` calls `float()` with no handler, so the
  error escapes the button callback. In both cases nothing is inserted and
  the list is not reloaded, so both are modelled as `Rejected(NotANumber)`.
- Analysis screen. `chk.py` charts only the per-category sums
  (`CategoryBreakdown`). `Project2.py` charts per-category and per-month
  sums (`CategoryAndMonthBreakdown`).

The model also follows the code in three details:

- The monthly summary takes the whole entered date and cuts it to its
  first 7 characters itself (`chk.py` line 152, `Project2.py` line 114). An
  empty entry therefore gives the pattern `%` and sums every row
  (`MonthlyTotalOfEmptyEntry`).
- The amount check is whatever `float()` accepts. That includes `inf` and
  `nan`, so the program does not require a finite amount.
- The input error is one fixed message for all three empty fields. It does
  not name the offending field.

## Model

| member | source | states |
|---|---|---|
| `Text.LexLessTotal` | chk.py:144 | The date order used by `ORDER BY date` is total: two distinct date strings are always ordered one way or the other. |
| `Text.LexLessTransitive` | Project2.py:105 | The date order is transitive, as sorting requires. |
| `Text.Take` | chk.py:152 | Cutting the entered date with `[:7]` gives its first 7 characters (fewer if it is shorter), and the result is a prefix of the entry. |
| `Records.ValidateInput` | chk.py:106-114 | Empty date, amount or category gives `MissingField`. Otherwise an amount that does not parse gives `NotANumber`. Otherwise the result is the parsed amount. Each case holds exactly when its condition does. |
| `Records.Total` | chk.py:155 | The sum of `amount`: 0 for no rows and the row's amount for one row. Together with `TotalAppend` this fixes the sum of any set of rows. `SqlSum` adds SQL's NULL for no rows. |
| `Records.TotalAppend` | chk.py:155 | SUM over two sets of rows is the sum of their SUMs. |
| `Records.WithoutId` | chk.py:134 | `DELETE FROM expenses WHERE id = k`: no row with id k remains and no row is added. What survives is stated by `WithoutIdRemovesExactly`, `WithoutAbsentId` and `WithoutPresentId`. |
| `Records.WithoutIdRemovesExactly` | chk.py:134 | After deleting id k, a row remains exactly when it was there before and its id is not k. |
| `Records.WithoutAbsentId` | Project2.py:93 | Deleting an id no row carries leaves the table unchanged. |
| `Records.WithoutPresentId` | chk.py:130-136 | With unique ids, deleting a present id removes exactly one row. |
| `Records.WithoutIdKeepsUnique` | chk.py:26 | Deleting keeps the PRIMARY KEY property: ids remain unique. |
| `Listing.InsertByDatePermutes` | chk.py:144-145 | Placing one row into the listing adds exactly that row. |
| `Listing.InsertByDateSorted` | Project2.py:105-106 | Placing one row into a date-sorted listing keeps it date-sorted. |
| `Listing.OrderByDateDesc` | chk.py:144 | `SELECT * FROM expenses ORDER BY date DESC`: the listing holds every row of the table, each as many times as the table does, and is non-increasing by date text under lexicographic order. |
| `Listing.SortedPermutationUnique` | chk.py:145 | When dates are distinct, there is only one date-sorted arrangement of the rows. So the listing is fully determined. |
| `Reports.MonthOf` | Project2.py:114 | `[:7]` / `SUBSTR(date, 1, 7)`: the month of a date is its first 7 characters (all of it when shorter), a prefix of the date. |
| `Reports.InMonth` | chk.py:155 | `WHERE date LIKE ?` with the month text followed by `%`: keeps no more rows than the table has, and only rows whose date starts with the month text. |
| `Reports.InMonthExactly` | Project2.py:117 | A row is kept by the month filter exactly when it is in the table and its date starts with the month text. |
| `Reports.SqlSum` | chk.py:155-156 | SUM yields NULL exactly when no row matches, and otherwise the sum of the amounts of the matching rows. |
| `Reports.MonthlyTotal` | chk.py:152-158 | The monthly figure equals the sum of amounts over rows whose date starts with the first 7 characters of the entry. It is 0 when no row matches. |
| `Reports.MonthlyTotalAfterAdd` | Project2.py:114-121 | Adding a row raises the monthly figure by its amount if its date is in that month. Otherwise the figure is unchanged. |
| `Reports.MonthlyTotalOfEmptyEntry` | Project2.py:114-117 | An empty date entry gives the empty prefix, and the figure is the sum of all amounts. |
| `Reports.GroupSums` | Project2.py:127 | `SELECT key, SUM(amount) ... GROUP BY key`: at most one group per row, and no groups exactly when the table is empty. Keys, order and sums are stated by `GroupSumsPartition`. |
| `Reports.GroupSumsPartition` | Project2.py:127-131 | A grouping query has one group per distinct key present, in strictly ascending key order. Each group's sum is the sum of its rows, the group sums add up to the table total, and an empty table has no groups. |
| `Reports.CategoryTotals` | chk.py:163 | Per-category sums: each category occurs once, and the categories are exactly those in the table. Each sum is the sum of the rows with that exact category text. The sums add up to the table total. Empty exactly when the table is empty. |
| `Reports.MonthTotals` | Project2.py:130-131 | Per-month sums keyed by the first 7 characters of the date. Keys are strictly ascending (so each occurs once) and are exactly the months present. Each sum is that month's rows. The sums add up to the table total. Empty exactly when the table is empty. |
| `Reports.MonthlyTotalMatchesMonthTotals` | Project2.py:117 | For an entry of at least 7 characters, the monthly summary equals that month's per-month sum, or 0 when the month has no group. |
| `Reports.CategoryBreakdown` | chk.py:160-169 | "No data" exactly when the table is empty. Otherwise the chart gets the per-category sums. |
| `Reports.CategoryAndMonthBreakdown` | Project2.py:123-136 | "No data" exactly when both queries are empty, which holds exactly when the table is empty. Otherwise both charts get their sums. |
| `Reports.ExampleMonthlyTotal` | chk.py:152-158 | Worked example with rows `(2025-01-10, 50, Food)`, `(2025-01-15, 30, Food)` and `(2025-02-01, 100, Bills)`: the entry `2025-01-20` gives a monthly figure of 80. |
| `Reports.ExampleMonthTotals` | Project2.py:130-131 | The same rows give the per-month sums `[(2025-01, 80), (2025-02, 100)]`, in that order. |
| `Reports.ExampleCategoryTotals` | Project2.py:127-128 | The same rows give two per-category groups, Bills with 100 and Food with 80, in no particular order. |
| `Store.Database.Open` | chk.py:22 | A new database file holds no table, no rows and no issued ids. |
| `Store.Database.CreateTableIfNotExists` | Project2.py:8-21 | Afterwards the table exists. If it already existed, rows, counter and issued ids are unchanged, so repeating the call changes nothing (idempotent). |
| `Store.Database.Insert` | chk.py:116-121 | Appends exactly one row with the given values. Its id is not among the ids ever issued and is larger than all of them (AUTOINCREMENT). |
| `Store.Database.DeleteWhereId` | chk.py:132-136 | The rows become the old rows without id k. The id counter and the issued ids are unchanged, so a deleted id is never handed out again. |
| `Store.Tracker.constructor` | Project2.py:63 | Opening the window fills the list with the table's listing: date-sorted, latest first, and a permutation of the table. |
| `Store.Tracker.LoadExpenses` | Project2.py:98-110 | The list is cleared and refilled row by row. Afterwards it is the listing: date-sorted, latest first, and a permutation of the table. |
| `Store.Tracker.AddExpense` | Project2.py:65-81 | If validation fails: the same error is returned, and table, ids and list are unchanged. Otherwise: exactly one row with the form's date, parsed amount, category and description is appended, no existing row changes, the new id is fresh and larger than any issued, and the list is reloaded. In both cases the list shows the table, date-sorted and a permutation of it. |
| `Store.Tracker.DeleteExpense` | chk.py:124-137 | No selection: nothing changes. Selected id k: exactly the rows with id k are removed, all others kept; an absent id leaves the table unchanged; ids issued are unchanged; the list is reloaded. In both cases the list shows the table, date-sorted and a permutation of it. |

## Left out

- The window, its widgets and layout, message boxes, and the pie and bar charts. These are display only.
- Selection lookup in the list. Delete takes the selected id (or none) directly. Several rows selected at once is not modelled.
- Connecting to, committing and closing `expenses.db`, durability across runs, and storage failures. The table is the in-memory state of `Database`.
- `Project2.py` opens a connection before `float()` fails and never closes it. This is a resource leak with no effect on the table.
- Floating-point amounts and rounding. Amounts are exact reals, so `nan` and `inf` cannot be represented.
- Python's `float()` grammar. It is the `parse` parameter of `AddExpense`, so the model holds for any parser.
- SQLite `LIKE` quirks: `%` and `_` in the entry act as wildcards, and ASCII letters match case-insensitively. The month filter is modelled as a plain prefix match. This equals `LIKE` for entries made of digits and `-`.
- The order of equal-date rows in the listing, and the order of the category groups. SQL leaves both unspecified, so only sortedness and permutation (listing) and distinct keys (categories) are stated. The list the window shows is promised only to be sorted and a permutation of the table (`ListingOf`). `OrderByDateDesc` happens to keep equal-date rows in table order, and the category groups happen to come out ascending, but no contract relies on either. By `SortedPermutationUnique`, the listing is fixed whenever no two dates are equal.
- SQLite's upper limit on rowids (2^63 - 1, after which AUTOINCREMENT fails). Ids are unbounded naturals.
- The format of dates. Nothing in the program checks that a date is `YYYY-MM-DD`. The model treats dates as arbitrary text, and all statements hold for any text.
- Editing a row. The module docstring of `chk.py` lists "Add/Edit/Delete", but neither variant has an edit operation, so none is modelled.
