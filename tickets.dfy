/** The `service_tickets` table (practice1.py, class ServiceTicket). */
module Tickets {
  import opened Wrappers
  import opened Sql
  import Patches

  /**
   * A service ticket row. `ticketId` is the auto-increment primary key;
   * `vin` and `customerId` are foreign keys; `ticketDate` is the one nullable
   * column; the cost, a DECIMAL, is held in cents.
   */
  datatype ServiceTicket = ServiceTicket(
    ticketId: int,
    vin: Option<string>,
    customerId: Option<int>,
    ticketDate: Option<Timestamp>,
    serviceDescription: Option<string>,
    cost: Option<int>)
  {
    /** Every NOT NULL column holds a value; only the date may be NULL. */
    predicate Complete() {
      vin.Some? && customerId.Some? && serviceDescription.Some? && cost.Some?
    }
  }

  /** The columns an update may write. */
  datatype Column = Vin | CustomerId | TicketDate | ServiceDescription | Cost

  /** One keyword argument of update_service_ticket. */
  datatype Write =
    | SetVin(vin: Option<string>)
    | SetCustomerId(customerId: Option<int>)
    | SetTicketDate(ticketDate: Option<Timestamp>)
    | SetServiceDescription(serviceDescription: Option<string>)
    | SetCost(cost: Option<int>)

  /** The column a write names. */
  function ColumnOf(w: Write): Column {
    match w
    case SetVin(_) => Vin
    case SetCustomerId(_) => CustomerId
    case SetTicketDate(_) => TicketDate
    case SetServiceDescription(_) => ServiceDescription
    case SetCost(_) => Cost
  }

  /** The cell a write stores. */
  function ValueOf(w: Write): Value {
    match w
    case SetVin(s) => TextCell(s)
    case SetCustomerId(n) => IntegerCell(n)
    case SetTicketDate(t) => IntegerCell(t)
    case SetServiceDescription(s) => TextCell(s)
    case SetCost(n) => IntegerCell(n)
  }

  /** The cell of one column of a row. */
  function Cell(t: ServiceTicket, col: Column): Value {
    match col
    case Vin => TextCell(t.vin)
    case CustomerId => IntegerCell(t.customerId)
    case TicketDate => IntegerCell(t.ticketDate)
    case ServiceDescription => TextCell(t.serviceDescription)
    case Cost => IntegerCell(t.cost)
  }

  /** One `setattr`: the named column takes the written value, nothing else changes. */
  function Put(t: ServiceTicket, w: Write): (r: ServiceTicket)
    ensures Cell(r, ColumnOf(w)) == ValueOf(w)
    ensures forall col :: col != ColumnOf(w) ==> Cell(r, col) == Cell(t, col)
    ensures r.ticketId == t.ticketId
  {
    match w
    case SetVin(s) => t.(vin := s)
    case SetCustomerId(n) => t.(customerId := n)
    case SetTicketDate(d) => t.(ticketDate := d)
    case SetServiceDescription(s) => t.(serviceDescription := s)
    case SetCost(n) => t.(cost := n)
  }

  /** The row after all writes of an update, in order; the key never changes. */
  function Patch(t: ServiceTicket, writes: seq<Write>): (r: ServiceTicket)
    ensures r.ticketId == t.ticketId
  {
    Patches.ApplyKeeps(t, writes, Put, (x: ServiceTicket) => x.ticketId);
    Patches.Apply(t, writes, Put)
  }

  /** update_service_ticket overwrites exactly the columns it is given. */
  lemma PatchCells(t: ServiceTicket, writes: seq<Write>, col: Column)
    ensures Cell(Patch(t, writes), col) == Patches.LastWritten(writes, ColumnOf, ValueOf, col, Cell(t, col))
  {
    Patches.ApplyCells(t, writes, Put, Cell, ColumnOf, ValueOf, col);
  }

  /** One more turn of the `kwargs` loop performs one more write of the patch. */
  lemma PatchOneMore(t: ServiceTicket, writes: seq<Write>, i: nat)
    requires i < |writes|
    ensures Patch(t, writes[..i + 1]) == Put(Patch(t, writes[..i]), writes[i])
  {
    Patches.ApplyOneMore(t, writes, i, Put);
  }
}
