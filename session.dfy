/**
 * A database session over the shop schema, as the twenty functions of
 * practice1.py use it. The fifteen that create, update or delete change the
 * tables in place and commit; each of those methods is proved to do exactly
 * what the matching transition of `Operations` describes, so the properties
 * proved about those transitions hold of the methods as well. The five reads
 * only query, and are proved to list every row exactly once.
 */
module Session {
  import opened Wrappers
  import opened Sql
  import opened Store
  import Operations
  import Customers
  import Vehicles
  import Mechanics
  import Tickets
  import Assignments
  import Sets

  /**
   * The id SQLite gives a new row: one more than the largest id in use, or 1
   * in an empty table. One pass over the ids in use.
   */
  method AllocateRowId(ids: set<int>) returns (id: int)
    ensures id == NextRowId(ids)
    ensures id !in ids
  {
    var rest := ids;
    var seen := false;
    var largest := 0;
    while rest != {}
      invariant rest <= ids
      invariant !seen ==> rest == ids
      invariant seen ==> largest in ids && largest !in rest
      invariant seen ==> forall k :: k in ids && k !in rest ==> k <= largest
      decreases |rest|
    {
      Sets.HasInt(rest);
      var x :| x in rest;
      if !seen || largest < x {
        largest := x;
      }
      seen := true;
      rest := rest - {x};
    }
    id := if seen then largest + 1 else 1;
    assert IsNextRowId(ids, id);
  }

  /** The rows of a table keyed by each row's own key, once each, in some order. */
  method Rows<K, V>(table: map<K, V>, key: V -> K) returns (rows: seq<V>)
    requires forall k :: k in table ==> key(table[k]) == k
    ensures |rows| == |table.Keys|
    ensures forall i :: 0 <= i < |rows| ==> key(rows[i]) in table && table[key(rows[i])] == rows[i]
    ensures forall k :: k in table ==> table[k] in rows
    ensures forall i, j :: 0 <= i < j < |rows| ==> key(rows[i]) != key(rows[j])
  {
    var rest := table.Keys;
    rows := [];
    while rest != {}
      invariant rest <= table.Keys
      invariant |rows| + |rest| == |table.Keys|
      invariant forall i :: 0 <= i < |rows| ==> key(rows[i]) in table && key(rows[i]) !in rest && table[key(rows[i])] == rows[i]
      invariant forall k :: k in table && k !in rest ==> table[k] in rows
      invariant forall i, j :: 0 <= i < j < |rows| ==> key(rows[i]) != key(rows[j])
      decreases |rest|
    {
      Sets.HasElement(rest);
      var k :| k in rest;
      rows := rows + [table[k]];
      rest := rest - {k};
    }
  }

  /** The members of a set, once each, in some order. */
  method Members<T>(s: set<T>) returns (xs: seq<T>)
    ensures |xs| == |s|
    ensures forall x :: x in xs <==> x in s
    ensures forall i, j :: 0 <= i < j < |xs| ==> xs[i] != xs[j]
  {
    var rest := s;
    xs := [];
    while rest != {}
      invariant rest <= s
      invariant |xs| + |rest| == |s|
      invariant forall x :: x in xs <==> x in s && x !in rest
      invariant forall i, j :: 0 <= i < j < |xs| ==> xs[i] != xs[j]
      decreases |rest|
    {
      Sets.HasElement(rest);
      var x :| x in rest;
      xs := xs + [x];
      rest := rest - {x};
    }
  }

  /** The shop's tables, as the session sees them after its last commit. */
  class Shop {
    var customers: map<int, Customer>
    var vehicles: map<string, Vehicle>
    var mechanics: map<int, Mechanic>
    var tickets: map<int, ServiceTicket>
    var assignments: set<ServiceMechanic>

    /** The tables as one database value. */
    function Db(): Db
      reads this
    {
      Store.Db(customers, vehicles, mechanics, tickets, assignments)
    }

    /** The schema's rules hold of the committed tables. */
    ghost predicate Valid()
      reads this
    {
      Store.Valid(Db())
    }

    /** `Base.metadata.create_all`: the five tables, empty. */
    constructor ()
      ensures Valid()
      ensures Db() == Empty
    {
      customers := map[];
      vehicles := map[];
      mechanics := map[];
      tickets := map[];
      assignments := {};
    }

    // -------------------------------------------------------------------
    // Customers

    method CreateCustomer(firstName: Option<string>, lastName: Option<string>, phone: Option<string>, email: Option<string>, address: Option<string>)
      returns (r: Result<Customer>)
      requires Valid()
      modifies this
      ensures Valid()
      ensures Step(r, Db()) == Operations.CreateCustomer(old(Db()), firstName, lastName, phone, email, address)
    {
      var id := AllocateRowId(customers.Keys);
      var c := Customers.Customer(id, firstName, lastName, phone, email, address);
      if CustomerAdmissible(customers, c) {
        customers := customers[id := c];
        r := Ok(c);
      } else {
        r := Err(ConstraintViolation);
      }
    }

    method ReadCustomers() returns (rows: seq<Customer>)
      requires Valid()
      ensures |rows| == |customers.Keys|
      ensures forall i :: 0 <= i < |rows| ==> rows[i].customerId in customers && customers[rows[i].customerId] == rows[i]
      ensures forall id :: id in customers ==> customers[id] in rows
      ensures forall i, j :: 0 <= i < j < |rows| ==> rows[i].customerId != rows[j].customerId
    {
      assert forall id :: id in customers ==> customers[id].customerId == id;
      rows := Rows(customers, (c: Customer) => c.customerId);
    }

    method UpdateCustomer(id: int, writes: seq<Customers.Write>) returns (r: Result<()>)
      requires Valid()
      modifies this
      ensures Valid()
      ensures Step(r, Db()) == Operations.UpdateCustomer(old(Db()), id, writes)
    {
      var row := if id in customers then Some(customers[id]) else None;
      var i := 0;
      while i < |writes|
        invariant 0 <= i <= |writes|
        invariant row.Some? <==> id in customers
        invariant row.None? ==> i == 0
        invariant Db() == old(Db())
        invariant row.Some? ==> row.value == Customers.Patch(customers[id], writes[..i])
      {
        if row.None? {
          return Err(NotFound);
        }
        Customers.PatchOneMore(customers[id], writes, i);
        row := Some(Customers.Put(row.value, writes[i]));
        i := i + 1;
      }
      assert writes[..i] == writes;
      if row.None? {
        r := Ok(());
      } else if CustomerAdmissible(customers, row.value) {
        assert writes == [] ==> customers[id := row.value] == customers;
        customers := customers[id := row.value];
        r := Ok(());
      } else {
        r := Err(ConstraintViolation);
      }
    }

    method DeleteCustomer(id: int) returns (r: Result<()>)
      requires Valid()
      modifies this
      ensures Valid()
      ensures Step(r, Db()) == Operations.DeleteCustomer(old(Db()), id)
    {
      if id !in customers {
        r := Err(NotFound);
      } else if CustomerReferenced(Db(), id) {
        r := Err(ConstraintViolation);
      } else {
        customers := customers - {id};
        r := Ok(());
      }
    }

    // -------------------------------------------------------------------
    // Vehicles

    method CreateVehicle(vin: string, customerId: Option<int>, make: Option<string>, model: Option<string>, year: Option<int>, licensePlate: Option<string>)
      returns (r: Result<Vehicle>)
      requires Valid()
      modifies this
      ensures Valid()
      ensures Step(r, Db()) == Operations.CreateVehicle(old(Db()), vin, customerId, make, model, year, licensePlate)
    {
      var v := Vehicles.Vehicle(vin, customerId, make, model, year, licensePlate);
      if vin !in vehicles && VehicleAdmissible(Db(), v) {
        vehicles := vehicles[vin := v];
        r := Ok(v);
      } else {
        r := Err(ConstraintViolation);
      }
    }

    method ReadVehicles() returns (rows: seq<Vehicle>)
      requires Valid()
      ensures |rows| == |vehicles.Keys|
      ensures forall i :: 0 <= i < |rows| ==> rows[i].vin in vehicles && vehicles[rows[i].vin] == rows[i]
      ensures forall vin :: vin in vehicles ==> vehicles[vin] in rows
      ensures forall i, j :: 0 <= i < j < |rows| ==> rows[i].vin != rows[j].vin
    {
      assert forall vin :: vin in vehicles ==> vehicles[vin].vin == vin;
      rows := Rows(vehicles, (v: Vehicle) => v.vin);
    }

    method UpdateVehicle(vin: string, writes: seq<Vehicles.Write>) returns (r: Result<()>)
      requires Valid()
      modifies this
      ensures Valid()
      ensures Step(r, Db()) == Operations.UpdateVehicle(old(Db()), vin, writes)
    {
      var row := if vin in vehicles then Some(vehicles[vin]) else None;
      var i := 0;
      while i < |writes|
        invariant 0 <= i <= |writes|
        invariant row.Some? <==> vin in vehicles
        invariant row.None? ==> i == 0
        invariant Db() == old(Db())
        invariant row.Some? ==> row.value == Vehicles.Patch(vehicles[vin], writes[..i])
      {
        if row.None? {
          return Err(NotFound);
        }
        Vehicles.PatchOneMore(vehicles[vin], writes, i);
        row := Some(Vehicles.Put(row.value, writes[i]));
        i := i + 1;
      }
      assert writes[..i] == writes;
      if row.None? {
        r := Ok(());
      } else if VehicleAdmissible(Db(), row.value) {
        assert writes == [] ==> vehicles[vin := row.value] == vehicles;
        vehicles := vehicles[vin := row.value];
        r := Ok(());
      } else {
        r := Err(ConstraintViolation);
      }
    }

    method DeleteVehicle(vin: string) returns (r: Result<()>)
      requires Valid()
      modifies this
      ensures Valid()
      ensures Step(r, Db()) == Operations.DeleteVehicle(old(Db()), vin)
    {
      if vin !in vehicles {
        r := Err(NotFound);
      } else if VehicleReferenced(Db(), vin) {
        r := Err(ConstraintViolation);
      } else {
        vehicles := vehicles - {vin};
        r := Ok(());
      }
    }

    // -------------------------------------------------------------------
    // Mechanics

    method CreateMechanic(firstName: Option<string>, lastName: Option<string>, email: Option<string>, phone: Option<string>, salary: Option<int>)
      returns (r: Result<Mechanic>)
      requires Valid()
      modifies this
      ensures Valid()
      ensures Step(r, Db()) == Operations.CreateMechanic(old(Db()), firstName, lastName, email, phone, salary)
    {
      var id := AllocateRowId(mechanics.Keys);
      var m := Mechanics.Mechanic(id, firstName, lastName, email, phone, salary);
      if MechanicAdmissible(mechanics, m) {
        mechanics := mechanics[id := m];
        r := Ok(m);
      } else {
        r := Err(ConstraintViolation);
      }
    }

    method ReadMechanics() returns (rows: seq<Mechanic>)
      requires Valid()
      ensures |rows| == |mechanics.Keys|
      ensures forall i :: 0 <= i < |rows| ==> rows[i].mechanicId in mechanics && mechanics[rows[i].mechanicId] == rows[i]
      ensures forall id :: id in mechanics ==> mechanics[id] in rows
      ensures forall i, j :: 0 <= i < j < |rows| ==> rows[i].mechanicId != rows[j].mechanicId
    {
      assert forall id :: id in mechanics ==> mechanics[id].mechanicId == id;
      rows := Rows(mechanics, (m: Mechanic) => m.mechanicId);
    }

    method UpdateMechanic(id: int, writes: seq<Mechanics.Write>) returns (r: Result<()>)
      requires Valid()
      modifies this
      ensures Valid()
      ensures Step(r, Db()) == Operations.UpdateMechanic(old(Db()), id, writes)
    {
      var row := if id in mechanics then Some(mechanics[id]) else None;
      var i := 0;
      while i < |writes|
        invariant 0 <= i <= |writes|
        invariant row.Some? <==> id in mechanics
        invariant row.None? ==> i == 0
        invariant Db() == old(Db())
        invariant row.Some? ==> row.value == Mechanics.Patch(mechanics[id], writes[..i])
      {
        if row.None? {
          return Err(NotFound);
        }
        Mechanics.PatchOneMore(mechanics[id], writes, i);
        row := Some(Mechanics.Put(row.value, writes[i]));
        i := i + 1;
      }
      assert writes[..i] == writes;
      if row.None? {
        r := Ok(());
      } else if MechanicAdmissible(mechanics, row.value) {
        assert writes == [] ==> mechanics[id := row.value] == mechanics;
        mechanics := mechanics[id := row.value];
        r := Ok(());
      } else {
        r := Err(ConstraintViolation);
      }
    }

    method DeleteMechanic(id: int) returns (r: Result<()>)
      requires Valid()
      modifies this
      ensures Valid()
      ensures Step(r, Db()) == Operations.DeleteMechanic(old(Db()), id)
    {
      if id !in mechanics {
        r := Err(NotFound);
      } else if MechanicReferenced(Db(), id) {
        r := Err(ConstraintViolation);
      } else {
        mechanics := mechanics - {id};
        r := Ok(());
      }
    }

    // -------------------------------------------------------------------
    // Service tickets

    /** `now` is what `datetime.datetime.utcnow()` answers at the INSERT. */
    method CreateServiceTicket(vin: Option<string>, customerId: Option<int>, ticketDate: Option<Timestamp>, serviceDescription: Option<string>, cost: Option<int>, now: Timestamp)
      returns (r: Result<ServiceTicket>)
      requires Valid()
      modifies this
      ensures Valid()
      ensures Step(r, Db()) == Operations.CreateServiceTicket(old(Db()), vin, customerId, ticketDate, serviceDescription, cost, now)
    {
      var id := AllocateRowId(tickets.Keys);
      var date := if ticketDate.Some? then ticketDate.value else now;
      var t := Tickets.ServiceTicket(id, vin, customerId, Some(date), serviceDescription, cost);
      if TicketAdmissible(Db(), t) {
        tickets := tickets[id := t];
        r := Ok(t);
      } else {
        r := Err(ConstraintViolation);
      }
    }

    method ReadServiceTickets() returns (rows: seq<ServiceTicket>)
      requires Valid()
      ensures |rows| == |tickets.Keys|
      ensures forall i :: 0 <= i < |rows| ==> rows[i].ticketId in tickets && tickets[rows[i].ticketId] == rows[i]
      ensures forall id :: id in tickets ==> tickets[id] in rows
      ensures forall i, j :: 0 <= i < j < |rows| ==> rows[i].ticketId != rows[j].ticketId
    {
      assert forall id :: id in tickets ==> tickets[id].ticketId == id;
      rows := Rows(tickets, (t: ServiceTicket) => t.ticketId);
    }

    method UpdateServiceTicket(id: int, writes: seq<Tickets.Write>) returns (r: Result<()>)
      requires Valid()
      modifies this
      ensures Valid()
      ensures Step(r, Db()) == Operations.UpdateServiceTicket(old(Db()), id, writes)
    {
      var row := if id in tickets then Some(tickets[id]) else None;
      var i := 0;
      while i < |writes|
        invariant 0 <= i <= |writes|
        invariant row.Some? <==> id in tickets
        invariant row.None? ==> i == 0
        invariant Db() == old(Db())
        invariant row.Some? ==> row.value == Tickets.Patch(tickets[id], writes[..i])
      {
        if row.None? {
          return Err(NotFound);
        }
        Tickets.PatchOneMore(tickets[id], writes, i);
        row := Some(Tickets.Put(row.value, writes[i]));
        i := i + 1;
      }
      assert writes[..i] == writes;
      if row.None? {
        r := Ok(());
      } else if TicketAdmissible(Db(), row.value) {
        assert writes == [] ==> tickets[id := row.value] == tickets;
        tickets := tickets[id := row.value];
        r := Ok(());
      } else {
        r := Err(ConstraintViolation);
      }
    }

    method DeleteServiceTicket(id: int) returns (r: Result<()>)
      requires Valid()
      modifies this
      ensures Valid()
      ensures Step(r, Db()) == Operations.DeleteServiceTicket(old(Db()), id)
    {
      if id !in tickets {
        r := Err(NotFound);
      } else if TicketReferenced(Db(), id) {
        r := Err(ConstraintViolation);
      } else {
        tickets := tickets - {id};
        r := Ok(());
      }
    }

    // -------------------------------------------------------------------
    // Assignments of mechanics to tickets

    method CreateServiceMechanic(serviceTicketId: int, mechanicId: int) returns (r: Result<ServiceMechanic>)
      requires Valid()
      modifies this
      ensures Valid()
      ensures Step(r, Db()) == Operations.CreateServiceMechanic(old(Db()), serviceTicketId, mechanicId)
    {
      var a := Assignments.ServiceMechanic(serviceTicketId, mechanicId);
      if a !in assignments && AssignmentAdmissible(Db(), a) {
        assignments := assignments + {a};
        r := Ok(a);
      } else {
        r := Err(ConstraintViolation);
      }
    }

    method ReadServiceMechanics() returns (rows: seq<ServiceMechanic>)
      ensures |rows| == |assignments|
      ensures forall a :: a in rows <==> a in assignments
      ensures forall i, j :: 0 <= i < j < |rows| ==> rows[i] != rows[j]
    {
      rows := Members(assignments);
    }

    /**
     * The keyword arguments are given by attribute name; none of them can be
     * a column (see `Operations.UpdateServiceMechanic`).
     */
    method UpdateServiceMechanic(serviceTicketId: int, mechanicId: int, attributes: seq<string>) returns (r: Result<()>)
      requires Valid()
      modifies this
      ensures Valid()
      ensures Step(r, Db()) == Operations.UpdateServiceMechanic(old(Db()), serviceTicketId, mechanicId, attributes)
    {
      var a := Assignments.ServiceMechanic(serviceTicketId, mechanicId);
      var found := a in assignments;
      var i := 0;
      while i < |attributes|
        invariant 0 <= i <= |attributes|
        invariant !found ==> i == 0
      {
        if !found {
          return Err(NotFound);
        }
        i := i + 1;
      }
      r := Ok(());
    }

    method DeleteServiceMechanic(serviceTicketId: int, mechanicId: int) returns (r: Result<()>)
      requires Valid()
      modifies this
      ensures Valid()
      ensures Step(r, Db()) == Operations.DeleteServiceMechanic(old(Db()), serviceTicketId, mechanicId)
    {
      var a := Assignments.ServiceMechanic(serviceTicketId, mechanicId);
      if a !in assignments {
        r := Err(NotFound);
      } else {
        assignments := assignments - {a};
        r := Ok(());
      }
    }
  }
}
