/** The rows of the two CSV-backed tables of the money tracker (app.py), and the
    conventions shared by the operations over them. */
module Records {

  datatype Option<T> = None | Some(value: T)

  /** One row of the users table: columns Username and Password, stored verbatim. */
  datatype UserAccount = UserAccount(username: string, password: string)

  /** The Type column; the forms only ever offer these two values. */
  datatype Kind = Income | Expense

  /** One row of the transactions table: columns Username, Date, Category, Type,
      Amount, Notes. The date is kept as the "YYYY-MM-DD" text the table stores;
      the amount is pre-signed (positive for income, negative for expense). */
  datatype Transaction = Transaction(
    owner: string,
    date: string,
    category: string,
    kind: Kind,
    amount: real,
    notes: string)

  /** The values of the add form (sidebar) or of the edit form: the amount is the
      unsigned magnitude the user typed. */
  datatype FormInput = FormInput(
    date: string,
    category: string,
    kind: Kind,
    amount: real,
    notes: string)

  /** Loading a backing file: a missing file (None) reads as an empty table,
      an existing one gives back exactly the rows last saved to it. */
  function LoadTable<T>(file: Option<seq<T>>): (rows: seq<T>)
    ensures file.None? ==> rows == []
    ensures file.Some? ==> rows == file.value
  {
    match file
    case None => []
    case Some(saved) => saved
  }

  /** The sign convention of the Amount column: income is never negative and an
      expense is never positive. */
  predicate SignMatches(kind: Kind, amount: real) {
    (kind == Income ==> amount >= 0.0) && (kind == Expense ==> amount <= 0.0)
  }

  predicate SignConsistent(t: Transaction) {
    SignMatches(t.kind, t.amount)
  }

  predicate AllSignConsistent(rows: seq<Transaction>) {
    forall i | 0 <= i < |rows| :: SignConsistent(rows[i])
  }

  /** The amount written for a typed magnitude: kept for income, negated for
      an expense. */
  function SignedAmount(kind: Kind, magnitude: real): (amount: real)
    ensures kind == Income ==> amount == magnitude
    ensures kind == Expense ==> amount == -magnitude
    ensures magnitude >= 0.0 ==> SignMatches(kind, amount)
    ensures magnitude > 0.0 ==> (amount > 0.0 <==> kind == Income)
  {
    if kind == Income then magnitude else -magnitude
  }

  /** The row the add form creates for `owner`. */
  function NewRow(owner: string, f: FormInput): (row: Transaction)
    ensures row.owner == owner && row.kind == f.kind
    ensures row.date == f.date && row.category == f.category && row.notes == f.notes
    ensures row.amount == SignedAmount(f.kind, f.amount)
    ensures f.amount >= 0.0 ==> SignConsistent(row)
  {
    Transaction(owner, f.date, f.category, f.kind, SignedAmount(f.kind, f.amount), f.notes)
  }

  /** The row the edit form writes over `row`: every column except Username is
      replaced, so the result is the row the add form would have created for the
      same owner. */
  function Apply(row: Transaction, f: FormInput): (edited: Transaction)
    ensures edited == NewRow(row.owner, f)
  {
    row.(date := f.date, category := f.category, kind := f.kind,
         amount := SignedAmount(f.kind, f.amount), notes := f.notes)
  }
}
