/**
 * The rows of the `expenses` table, the checks a new row must pass, and
 * the two row-set operations the SQL statements perform: summing `amount`
 * and deleting by `id`.
 */
module Records {

  datatype Option<T> = None | Some(value: T)

  /**
   * One row of `expenses(id, date, amount, category, description)`.
   * `amount` is a column of type REAL; it is modelled exactly as a real.
   */
  datatype Expense = Expense(id: nat, date: string, amount: real, category: string, description: string)

  /** Why the add form was refused. */
  datatype InputError =
    | MissingField   // date, amount or category left empty
    | NotANumber     // the amount text is not accepted by the number parser

  datatype Result<T> = Ok(value: T) | Err(error: InputError)

  /**
   * The guards of the add form, in the order the form applies them: first
   * the three required fields must be non-empty, then the amount text must
   * parse as a number. `parse` stands for Python's `float()` on a string.
   */
  function ValidateInput(date: string, amountText: string, category: string,
                         parse: string -> Option<real>): (r: Result<real>)
    ensures r == Err(MissingField) <==> date == [] || amountText == [] || category == []
    ensures r == Err(NotANumber) <==>
              date != [] && amountText != [] && category != [] && parse(amountText).None?
    ensures r.Ok? <==> date != [] && amountText != [] && category != [] && parse(amountText).Some?
    ensures r.Ok? ==> parse(amountText) == Some(r.value)
  {
    if date == [] || amountText == [] || category == [] then Err(MissingField)
    else match parse(amountText)
      case None => Err(NotANumber)
      case Some(x) => Ok(x)
  }

  /**
   * Sum of `amount` over the rows: nothing for no rows, the amount itself
   * for one row, and additive over concatenation (TotalAppend), which
   * together fix the sum of any table.
   */
  function Total(rows: seq<Expense>): (t: real)
    ensures rows == [] ==> t == 0.0
    ensures |rows| == 1 ==> t == rows[0].amount
  {
    if rows == [] then 0.0 else rows[0].amount + Total(rows[1..])
  }

  lemma {:induction false} TotalAppend(a: seq<Expense>, b: seq<Expense>)
    ensures Total(a + b) == Total(a) + Total(b)
  {
    if a != [] {
      assert (a + b)[1..] == a[1..] + b;
      TotalAppend(a[1..], b);
    } else {
      assert a + b == b;
    }
  }

  /** No two rows share an id (the PRIMARY KEY constraint). */
  predicate UniqueIds(rows: seq<Expense>)
  {
    forall i, j :: 0 <= i < j < |rows| ==> rows[i].id != rows[j].id
  }

  predicate HasId(rows: seq<Expense>, k: nat)
  {
    exists r :: r in rows && r.id == k
  }

  /** The table after `DELETE FROM expenses WHERE id = k`, other rows in their order. */
  function WithoutId(rows: seq<Expense>, k: nat): (kept: seq<Expense>)
    ensures |kept| <= |rows|
    ensures forall i :: 0 <= i < |kept| ==> kept[i].id != k
  {
    if rows == [] then []
    else if rows[0].id == k then WithoutId(rows[1..], k)
    else [rows[0]] + WithoutId(rows[1..], k)
  }

  /**
   * Deleting id k removes exactly the rows with id k: every other row is
   * kept, unchanged, and none with id k remains.
   */
  lemma {:induction false} WithoutIdRemovesExactly(rows: seq<Expense>, k: nat)
    ensures forall r :: r in WithoutId(rows, k) <==> r in rows && r.id != k
  {
    if rows != [] {
      WithoutIdRemovesExactly(rows[1..], k);
      assert forall r :: r in rows <==> r == rows[0] || r in rows[1..];
    }
  }

  /** Deleting an id that no row carries leaves the table as it was. */
  lemma {:induction false} WithoutAbsentId(rows: seq<Expense>, k: nat)
    requires !HasId(rows, k)
    ensures WithoutId(rows, k) == rows
  {
    if rows != [] {
      assert rows[0] in rows;
      assert !HasId(rows[1..], k) by {
        forall r | r in rows[1..] ensures r.id != k {
          assert r in rows;
        }
      }
      WithoutAbsentId(rows[1..], k);
    }
  }

  /** With unique ids, deleting a present id removes exactly one row. */
  lemma {:induction false} WithoutPresentId(rows: seq<Expense>, k: nat)
    requires UniqueIds(rows) && HasId(rows, k)
    ensures |WithoutId(rows, k)| == |rows| - 1
  {
    assert UniqueIds(rows[1..]) by {
      forall i, j | 0 <= i < j < |rows[1..]| ensures rows[1..][i].id != rows[1..][j].id {
        assert rows[1..][i] == rows[i + 1] && rows[1..][j] == rows[j + 1];
      }
    }
    if rows[0].id == k {
      assert !HasId(rows[1..], k) by {
        forall r | r in rows[1..] ensures r.id != k {
          var j :| 0 <= j < |rows[1..]| && rows[1..][j] == r;
          assert rows[j + 1] == r;
        }
      }
      WithoutAbsentId(rows[1..], k);
    } else {
      var r :| r in rows && r.id == k;
      assert r in rows[1..] by {
        assert r != rows[0];
        assert forall x :: x in rows ==> x == rows[0] || x in rows[1..];
      }
      WithoutPresentId(rows[1..], k);
    }
  }

  /** Deleting keeps the ids unique. */
  lemma {:induction false} WithoutIdKeepsUnique(rows: seq<Expense>, k: nat)
    requires UniqueIds(rows)
    ensures UniqueIds(WithoutId(rows, k))
  {
    if rows != [] {
      assert UniqueIds(rows[1..]) by {
        forall i, j | 0 <= i < j < |rows[1..]| ensures rows[1..][i].id != rows[1..][j].id {
          assert rows[1..][i] == rows[i + 1] && rows[1..][j] == rows[j + 1];
        }
      }
      WithoutIdKeepsUnique(rows[1..], k);
      if rows[0].id != k {
        var rest := WithoutId(rows[1..], k);
        WithoutIdRemovesExactly(rows[1..], k);
        forall j | 0 <= j < |rest| ensures rows[0].id != rest[j].id {
          assert rest[j] in rows[1..];
          var m :| 0 <= m < |rows[1..]| && rows[1..][m] == rest[j];
          assert rows[m + 1] == rest[j];
        }
        var s := [rows[0]] + rest;
        forall i, j | 0 <= i < j < |s| ensures s[i].id != s[j].id {
          if i > 0 {
            assert s[i] == rest[i - 1] && s[j] == rest[j - 1];
          } else {
            assert s[j] == rest[j - 1];
          }
        }
      }
    }
  }
}
