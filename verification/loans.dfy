/** One loanable copy of a book (`BookInstance`): its status code and its
    due date, and whether it is overdue on a given day. */
module Loans {

  import opened Optional
  import opened Dates

  /** The closed set of loan states. `Blank` is the empty code the column
      admits because it may be left blank. */
  datatype LoanStatus = Blank | Maintenance | OnLoan | Available | Reserved

  /** The one-letter code stored in the status column. */
  function Code(s: LoanStatus): (c: string)
    ensures |c| <= 1
    ensures c == "" <==> s == Blank
  {
    match s
    case Blank => ""
    case Maintenance => "a"
    case OnLoan => "p"
    case Available => "g"
    case Reserved => "r"
  }

  /** The status a stored code stands for; None for a code outside the choices. */
  function ParseStatus(c: string): (r: Option<LoanStatus>)
    ensures r.Some? ==> Code(r.value) == c
  {
    if c == "" then Some(Blank)
    else if c == "a" then Some(Maintenance)
    else if c == "p" then Some(OnLoan)
    else if c == "g" then Some(Available)
    else if c == "r" then Some(Reserved)
    else None
  }

  /** Every status survives a round trip through its code, and exactly the
      blank code and the four choice codes are accepted. */
  lemma StatusCodes(s: LoanStatus, c: string)
    ensures ParseStatus(Code(s)) == Some(s)
    ensures ParseStatus(c).Some? <==> c in {"", "a", "p", "g", "r"}
  {
  }

  /** A copy is available exactly when its stored code is "g". */
  lemma AvailableCode(s: LoanStatus)
    ensures Code(s) == "g" <==> s == Available
  {
  }

  const DefaultStatus: LoanStatus := OnLoan

  datatype BookInstance = BookInstance(
    id: nat,
    book: Option<nat>,
    dueBack: Option<Date>,
    reader: Option<nat>,
    status: LoanStatus)

  /** A freshly created copy: the given fields, and the default status. */
  function NewInstance(id: nat, book: Option<nat>, dueBack: Option<Date>, reader: Option<nat>): (c: BookInstance)
    ensures c.status == OnLoan && Code(c.status) == "p"
    ensures c.id == id && c.book == book && c.dueBack == dueBack && c.reader == reader
  {
    BookInstance(id, book, dueBack, reader, DefaultStatus)
  }

  /** The copy has a due date and `today` is later than it. */
  function IsOverdue(c: BookInstance, today: Date): (r: bool)
    ensures r ==> c.dueBack.Some?
    ensures c.dueBack == Some(today) ==> !r
  {
    c.dueBack.Some? && Before(c.dueBack.value, today)
  }

  /** Without a due date a copy is never overdue. */
  lemma NoDueDateNeverOverdue(c: BookInstance, today: Date)
    requires c.dueBack.None?
    ensures !IsOverdue(c, today)
  {
  }

  /** With a due date, a copy is overdue exactly on the days after it. */
  lemma OverdueIffAfterDueDate(c: BookInstance, today: Date)
    requires c.dueBack.Some?
    ensures IsOverdue(c, today) <==> Before(c.dueBack.value, today)
    ensures IsOverdue(c, today) ==> c.dueBack.value != today
  {
  }

  /** Once overdue, a copy stays overdue on every later day. */
  lemma OverdueStaysOverdue(c: BookInstance, today: Date, later: Date)
    requires IsOverdue(c, today) && !Before(later, today)
    ensures IsOverdue(c, later)
  {
    if today != later {
      BeforeStrictTotal(today, later);
      BeforeTransitive(c.dueBack.value, today, later);
    }
  }
}
