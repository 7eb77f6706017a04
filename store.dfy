/**
 * The mutable state: the `expenses` table in the database file, and the
 * tracker window whose list shows the table and whose buttons add, delete
 * and refresh rows.
 */
module Store {
  import opened Text
  import opened Records
  import opened Listing

  /**
   * The database file `expenses.db`: whether the `expenses` table exists,
   * its rows (in insertion order), and the AUTOINCREMENT counter, i.e. the
   * largest id the table has ever handed out (SQLite keeps it in
   * `sqlite_sequence`, and it never goes down, even when rows are deleted).
   */
  class Database {
    var hasTable: bool
    var rows: seq<Expense>
    var lastId: nat
    /** Every id ever assigned by the table. */
    ghost var issued: set<nat>

    ghost predicate Valid()
      reads this
    {
      && (forall i :: i in issued <==> 1 <= i <= lastId)
      && (forall r :: r in rows ==> r.id in issued)
      && UniqueIds(rows)
      && (!hasTable ==> rows == [] && lastId == 0)
    }

    /** A database file that does not yet hold the table. */
    constructor Open()
      ensures Valid() && !hasTable && rows == [] && issued == {}
    {
      hasTable := false;
      rows := [];
      lastId := 0;
      issued := {};
    }

    /**
     * `CREATE TABLE IF NOT EXISTS expenses (...)`: creates an empty table
     * when there is none and changes nothing otherwise, so running it any
     * number of times has the effect of running it once.
     */
    method CreateTableIfNotExists()
      requires Valid()
      modifies this
      ensures Valid() && hasTable
      ensures old(hasTable) ==> rows == old(rows) && lastId == old(lastId) && issued == old(issued)
      ensures !old(hasTable) ==> rows == [] && issued == {}
    {
      if !hasTable {
        hasTable := true;
      }
    }

    /**
     * `INSERT INTO expenses (date, amount, category, description) VALUES (...)`:
     * appends one row whose id is larger than every id ever assigned.
     */
    method Insert(date: string, amount: real, category: string, description: string)
      returns (id: nat)
      requires Valid() && hasTable
      modifies this
      ensures Valid() && hasTable
      ensures id !in old(issued) && forall j :: j in old(issued) ==> j < id
      ensures rows == old(rows) + [Expense(id, date, amount, category, description)]
      ensures issued == old(issued) + {id}
    {
      id := lastId + 1;
      forall i, j | 0 <= i < j < |rows + [Expense(id, date, amount, category, description)]|
        ensures (rows + [Expense(id, date, amount, category, description)])[i].id
             != (rows + [Expense(id, date, amount, category, description)])[j].id
      {
        if j == |rows| {
          assert rows[i] in rows;
        }
      }
      rows := rows + [Expense(id, date, amount, category, description)];
      lastId := id;
      issued := issued + {id};
    }

    /** `DELETE FROM expenses WHERE id = k`; the id counter is left as it was. */
    method DeleteWhereId(k: nat)
      requires Valid() && hasTable
      modifies this
      ensures Valid() && hasTable
      ensures rows == WithoutId(old(rows), k)
      ensures lastId == old(lastId) && issued == old(issued)
    {
      WithoutIdRemovesExactly(rows, k);
      WithoutIdKeepsUnique(rows, k);
      rows := WithoutId(rows, k);
    }
  }

  /** The outcome of the add button. */
  datatype AddOutcome = Added(id: nat) | Rejected(error: InputError)

  /** The outcome of the delete button. */
  datatype DeleteOutcome = Deleted | NoSelection

  /**
   * The tracker window: the database it works on and the rows its list
   * shows. The list always shows the table as the listing query returns it.
   */
  class Tracker {
    const db: Database
    var view: seq<Expense>

    ghost predicate Valid()
      reads this, db
    {
      db.Valid() && db.hasTable && ListingOf(view, db.rows)
    }

    /** Opening the window fills the list from the table. */
    constructor (db: Database)
      requires db.Valid() && db.hasTable
      ensures Valid() && this.db == db
    {
      this.db := db;
      view := [];
      new;
      LoadExpenses();
    }

    /**
     * Clears the list and appends, one by one, the rows of the listing
     * query: afterwards the list shows every row of the table as often as
     * the table holds it, latest date first.
     */
    method LoadExpenses()
      requires db.Valid() && db.hasTable
      modifies this
      ensures Valid()
    {
      var fetched := OrderByDateDesc(db.rows);
      view := [];
      var i := 0;
      while i < |fetched|
        invariant 0 <= i <= |fetched|
        invariant view == fetched[..i]
      {
        view := view + [fetched[i]];
        i := i + 1;
      }
      assert fetched[..|fetched|] == fetched;
    }

    /**
     * The add button. An empty date, amount or category, or an amount that
     * does not parse, is refused and nothing changes. Otherwise exactly one
     * row carrying the form's values and a never-used id is appended, no
     * existing row changes, and the list is reloaded.
     */
    method AddExpense(date: string, amountText: string, category: string, description: string,
                      parse: string -> Option<real>)
      returns (outcome: AddOutcome)
      requires Valid()
      modifies this, db
      ensures Valid()
      ensures db.lastId >= old(db.lastId)
      ensures match ValidateInput(date, amountText, category, parse)
        case Err(e) =>
          && outcome == Rejected(e)
          && db.rows == old(db.rows) && db.lastId == old(db.lastId) && db.issued == old(db.issued)
          && view == old(view)
        case Ok(amount) =>
          && outcome.Added?
          && db.rows == old(db.rows) + [Expense(outcome.id, date, amount, category, description)]
          && outcome.id !in old(db.issued)
          && (forall j :: j in old(db.issued) ==> j < outcome.id)
          && db.issued == old(db.issued) + {outcome.id}
          && ListingOf(view, db.rows)
    {
      match ValidateInput(date, amountText, category, parse)
      case Err(e) =>
        outcome := Rejected(e);
      case Ok(amount) =>
        var id := db.Insert(date, amount, category, description);
        outcome := Added(id);
        LoadExpenses();
    }

    /**
     * The delete button, given the id of the selected row (None when no row
     * is selected). With no selection nothing changes; otherwise the row
     * with that id, if any, is removed, every other row is kept, the id is
     * never handed out again, and the list is reloaded.
     */
    method DeleteExpense(selected: Option<nat>) returns (outcome: DeleteOutcome)
      requires Valid()
      modifies this, db
      ensures Valid()
      ensures db.lastId == old(db.lastId) && db.issued == old(db.issued)
      ensures selected.None? ==>
                outcome == NoSelection && db.rows == old(db.rows) && view == old(view)
      ensures selected.Some? ==>
                && outcome == Deleted
                && db.rows == WithoutId(old(db.rows), selected.value)
                && (forall r :: r in db.rows <==> r in old(db.rows) && r.id != selected.value)
                && (!HasId(old(db.rows), selected.value) ==> db.rows == old(db.rows))
                && ListingOf(view, db.rows)
    {
      match selected
      case None =>
        outcome := NoSelection;
      case Some(k) =>
        WithoutIdRemovesExactly(db.rows, k);
        if !HasId(db.rows, k) {
          WithoutAbsentId(db.rows, k);
        }
        db.DeleteWhereId(k);
        outcome := Deleted;
        LoadExpenses();
    }
  }
}
