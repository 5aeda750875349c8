/** The `vehicles` table (practice1.py, class Vehicle). */
module Vehicles {
  import opened Wrappers
  import opened Sql
  import Patches

  /**
   * A vehicle row. The VIN is the natural primary key; the other attributes
   * may hold None, and all of them are NOT NULL columns.
   */
  datatype Vehicle = Vehicle(
    vin: string,
    customerId: Option<int>,
    make: Option<string>,
    model: Option<string>,
    year: Option<int>,
    licensePlate: Option<string>)
  {
    /** Every column holds a value. */
    predicate Complete() {
      customerId.Some? && make.Some? && model.Some? && year.Some? && licensePlate.Some?
    }
  }

  /** The columns an update may write (the VIN is the update's own parameter). */
  datatype Column = CustomerId | Make | Model | Year | LicensePlate

  /** One keyword argument of update_vehicle. */
  datatype Write =
    | SetCustomerId(customerId: Option<int>)
    | SetMake(make: Option<string>)
    | SetModel(model: Option<string>)
    | SetYear(year: Option<int>)
    | SetLicensePlate(licensePlate: Option<string>)

  /** The column a write names. */
  function ColumnOf(w: Write): Column {
    match w
    case SetCustomerId(_) => CustomerId
    case SetMake(_) => Make
    case SetModel(_) => Model
    case SetYear(_) => Year
    case SetLicensePlate(_) => LicensePlate
  }

  /** The cell a write stores. */
  function ValueOf(w: Write): Value {
    match w
    case SetCustomerId(n) => IntegerCell(n)
    case SetMake(s) => TextCell(s)
    case SetModel(s) => TextCell(s)
    case SetYear(n) => IntegerCell(n)
    case SetLicensePlate(s) => TextCell(s)
  }

  /** The cell of one column of a row. */
  function Cell(v: Vehicle, col: Column): Value {
    match col
    case CustomerId => IntegerCell(v.customerId)
    case Make => TextCell(v.make)
    case Model => TextCell(v.model)
    case Year => IntegerCell(v.year)
    case LicensePlate => TextCell(v.licensePlate)
  }

  /** One `setattr`: the named column takes the written value, nothing else changes. */
  function Put(v: Vehicle, w: Write): (r: Vehicle)
    ensures Cell(r, ColumnOf(w)) == ValueOf(w)
    ensures forall col :: col != ColumnOf(w) ==> Cell(r, col) == Cell(v, col)
    ensures r.vin == v.vin
  {
    match w
    case SetCustomerId(n) => v.(customerId := n)
    case SetMake(s) => v.(make := s)
    case SetModel(s) => v.(model := s)
    case SetYear(n) => v.(year := n)
    case SetLicensePlate(s) => v.(licensePlate := s)
  }

  /** The row after all writes of an update, in order; the VIN never changes. */
  function Patch(v: Vehicle, writes: seq<Write>): (r: Vehicle)
    ensures r.vin == v.vin
  {
    Patches.ApplyKeeps(v, writes, Put, (x: Vehicle) => x.vin);
    Patches.Apply(v, writes, Put)
  }

  /** update_vehicle overwrites exactly the columns it is given. */
  lemma PatchCells(v: Vehicle, writes: seq<Write>, col: Column)
    ensures Cell(Patch(v, writes), col) == Patches.LastWritten(writes, ColumnOf, ValueOf, col, Cell(v, col))
  {
    Patches.ApplyCells(v, writes, Put, Cell, ColumnOf, ValueOf, col);
  }

  /** One more turn of the `kwargs` loop performs one more write of the patch. */
  lemma PatchOneMore(v: Vehicle, writes: seq<Write>, i: nat)
    requires i < |writes|
    ensures Patch(v, writes[..i + 1]) == Put(Patch(v, writes[..i]), writes[i])
  {
    Patches.ApplyOneMore(v, writes, i, Put);
  }
}
