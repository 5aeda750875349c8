/** The `mechanics` table (practice1.py, class Mechanic). */
module Mechanics {
  import opened Wrappers
  import opened Sql
  import Patches

  /**
   * A mechanic row. `mechanicId` is the auto-increment primary key; the
   * salary, a DECIMAL, is held in cents.
   */
  datatype Mechanic = Mechanic(
    mechanicId: int,
    firstName: Option<string>,
    lastName: Option<string>,
    email: Option<string>,
    phone: Option<string>,
    salary: Option<int>)
  {
    /** Every NOT NULL column holds a value; only the phone may be NULL. */
    predicate Complete() {
      firstName.Some? && lastName.Some? && email.Some? && salary.Some?
    }
  }

  /** The columns an update may write. */
  datatype Column = FirstName | LastName | Email | Phone | Salary

  /** One keyword argument of update_mechanic. */
  datatype Write =
    | SetFirstName(firstName: Option<string>)
    | SetLastName(lastName: Option<string>)
    | SetEmail(email: Option<string>)
    | SetPhone(phone: Option<string>)
    | SetSalary(salary: Option<int>)

  /** The column a write names. */
  function ColumnOf(w: Write): Column {
    match w
    case SetFirstName(_) => FirstName
    case SetLastName(_) => LastName
    case SetEmail(_) => Email
    case SetPhone(_) => Phone
    case SetSalary(_) => Salary
  }

  /** The cell a write stores. */
  function ValueOf(w: Write): Value {
    match w
    case SetFirstName(s) => TextCell(s)
    case SetLastName(s) => TextCell(s)
    case SetEmail(s) => TextCell(s)
    case SetPhone(s) => TextCell(s)
    case SetSalary(n) => IntegerCell(n)
  }

  /** The cell of one column of a row. */
  function Cell(m: Mechanic, col: Column): Value {
    match col
    case FirstName => TextCell(m.firstName)
    case LastName => TextCell(m.lastName)
    case Email => TextCell(m.email)
    case Phone => TextCell(m.phone)
    case Salary => IntegerCell(m.salary)
  }

  /** One `setattr`: the named column takes the written value, nothing else changes. */
  function Put(m: Mechanic, w: Write): (r: Mechanic)
    ensures Cell(r, ColumnOf(w)) == ValueOf(w)
    ensures forall col :: col != ColumnOf(w) ==> Cell(r, col) == Cell(m, col)
    ensures r.mechanicId == m.mechanicId
  {
    match w
    case SetFirstName(s) => m.(firstName := s)
    case SetLastName(s) => m.(lastName := s)
    case SetEmail(s) => m.(email := s)
    case SetPhone(s) => m.(phone := s)
    case SetSalary(n) => m.(salary := n)
  }

  /** The row after all writes of an update, in order; the key never changes. */
  function Patch(m: Mechanic, writes: seq<Write>): (r: Mechanic)
    ensures r.mechanicId == m.mechanicId
  {
    Patches.ApplyKeeps(m, writes, Put, (x: Mechanic) => x.mechanicId);
    Patches.Apply(m, writes, Put)
  }

  /** update_mechanic overwrites exactly the columns it is given. */
  lemma PatchCells(m: Mechanic, writes: seq<Write>, col: Column)
    ensures Cell(Patch(m, writes), col) == Patches.LastWritten(writes, ColumnOf, ValueOf, col, Cell(m, col))
  {
    Patches.ApplyCells(m, writes, Put, Cell, ColumnOf, ValueOf, col);
  }

  /** One more turn of the `kwargs` loop performs one more write of the patch. */
  lemma PatchOneMore(m: Mechanic, writes: seq<Write>, i: nat)
    requires i < |writes|
    ensures Patch(m, writes[..i + 1]) == Put(Patch(m, writes[..i]), writes[i])
  {
    Patches.ApplyOneMore(m, writes, i, Put);
  }
}
