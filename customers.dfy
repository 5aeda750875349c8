/** The `customers` table (practice1.py, class Customer). */
module Customers {
  import opened Wrappers
  import opened Sql
  import Patches

  /**
   * A customer row as the ORM object holds it. `customerId` is the
   * auto-increment primary key; every other attribute may hold None, and the
   * store refuses to commit one that is NULL in a NOT NULL column.
   */
  datatype Customer = Customer(
    customerId: int,
    firstName: Option<string>,
    lastName: Option<string>,
    phone: Option<string>,
    email: Option<string>,
    address: Option<string>)
  {
    /** Every NOT NULL column holds a value; only the address may be NULL. */
    predicate Complete() {
      firstName.Some? && lastName.Some? && phone.Some? && email.Some?
    }
  }

  /** The columns an update may write (the key is the update's own parameter). */
  datatype Column = FirstName | LastName | Phone | Email | Address

  /** One keyword argument of update_customer: `setattr(customer, column, value)`. */
  datatype Write =
    | SetFirstName(firstName: Option<string>)
    | SetLastName(lastName: Option<string>)
    | SetPhone(phone: Option<string>)
    | SetEmail(email: Option<string>)
    | SetAddress(address: Option<string>)

  /** The column a write names. */
  function ColumnOf(w: Write): Column {
    match w
    case SetFirstName(_) => FirstName
    case SetLastName(_) => LastName
    case SetPhone(_) => Phone
    case SetEmail(_) => Email
    case SetAddress(_) => Address
  }

  /** The cell a write stores. */
  function ValueOf(w: Write): Value {
    match w
    case SetFirstName(s) => TextCell(s)
    case SetLastName(s) => TextCell(s)
    case SetPhone(s) => TextCell(s)
    case SetEmail(s) => TextCell(s)
    case SetAddress(s) => TextCell(s)
  }

  /** The cell of one column of a row. */
  function Cell(c: Customer, col: Column): Value {
    match col
    case FirstName => TextCell(c.firstName)
    case LastName => TextCell(c.lastName)
    case Phone => TextCell(c.phone)
    case Email => TextCell(c.email)
    case Address => TextCell(c.address)
  }

  /** One `setattr`: the named column takes the written value, nothing else changes. */
  function Put(c: Customer, w: Write): (r: Customer)
    ensures Cell(r, ColumnOf(w)) == ValueOf(w)
    ensures forall col :: col != ColumnOf(w) ==> Cell(r, col) == Cell(c, col)
    ensures r.customerId == c.customerId
  {
    match w
    case SetFirstName(s) => c.(firstName := s)
    case SetLastName(s) => c.(lastName := s)
    case SetPhone(s) => c.(phone := s)
    case SetEmail(s) => c.(email := s)
    case SetAddress(s) => c.(address := s)
  }

  /** The row after all writes of an update, in order. */
  function Patch(c: Customer, writes: seq<Write>): (r: Customer)
    ensures r.customerId == c.customerId
  {
    Patches.ApplyKeeps(c, writes, Put, (x: Customer) => x.customerId);
    Patches.Apply(c, writes, Put)
  }

  /**
   * update_customer overwrites exactly the columns it is given: each column of
   * the patched row holds the value last written to it, or its old value when
   * no write names it.
   */
  lemma PatchCells(c: Customer, writes: seq<Write>, col: Column)
    ensures Cell(Patch(c, writes), col) == Patches.LastWritten(writes, ColumnOf, ValueOf, col, Cell(c, col))
  {
    Patches.ApplyCells(c, writes, Put, Cell, ColumnOf, ValueOf, col);
  }

  /** One more turn of the `kwargs` loop performs one more write of the patch. */
  lemma PatchOneMore(c: Customer, writes: seq<Write>, i: nat)
    requires i < |writes|
    ensures Patch(c, writes[..i + 1]) == Put(Patch(c, writes[..i]), writes[i])
  {
    Patches.ApplyOneMore(c, writes, i, Put);
  }
}
