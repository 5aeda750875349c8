/**
 * Properties of the operations that relate more than one call, or that spell
 * out what the store invariant promises about the stored rows.
 */
module Properties {
  import opened Wrappers
  import opened Sql
  import opened Store
  import opened Operations
  import Customers
  import Vehicles
  import Mechanics
  import Tickets
  import Assignments
  import Patches

  // ---------------------------------------------------------------------
  // The declared constraints, row by row

  /** No two customers share a phone or an email; no two mechanics share an email; no two vehicles share a plate. */
  lemma UniqueColumns(db: Db)
    requires Valid(db)
    ensures forall i, j :: i in db.customers && j in db.customers && i != j ==>
      db.customers[i].phone != db.customers[j].phone && db.customers[i].email != db.customers[j].email
    ensures forall i, j :: i in db.mechanics && j in db.mechanics && i != j ==>
      db.mechanics[i].email != db.mechanics[j].email
    ensures forall v, w :: v in db.vehicles && w in db.vehicles && v != w ==>
      db.vehicles[v].licensePlate != db.vehicles[w].licensePlate
  {
  }

  /** Every foreign key names an existing row. */
  lemma ReferencesHold(db: Db)
    requires Valid(db)
    ensures forall vin :: vin in db.vehicles ==>
      db.vehicles[vin].customerId.Some? && db.vehicles[vin].customerId.value in db.customers
    ensures forall id :: id in db.tickets ==>
      && db.tickets[id].vin.Some? && db.tickets[id].vin.value in db.vehicles
      && db.tickets[id].customerId.Some? && db.tickets[id].customerId.value in db.customers
    ensures forall a :: a in db.assignments ==> a.serviceTicketId in db.tickets && a.mechanicId in db.mechanics
  {
  }

  /** A row id that no customer holds is referred to by no vehicle and no ticket. */
  lemma UnusedCustomerIdUnreferenced(db: Db, id: int)
    requires Valid(db)
    requires id !in db.customers
    ensures !CustomerReferenced(db, id)
  {
  }

  // ---------------------------------------------------------------------
  // Create

  /** The second create with a phone already held is refused, and changes nothing. */
  lemma CreateCustomerRejectsTakenPhone(db: Db, firstName: Option<string>, lastName: Option<string>, phone: Option<string>, email: Option<string>, address: Option<string>,
                                         firstName': Option<string>, lastName': Option<string>, email': Option<string>, address': Option<string>)
    requires Valid(db)
    requires CreateCustomer(db, firstName, lastName, phone, email, address).result.Ok?
    ensures var s := CreateCustomer(db, firstName, lastName, phone, email, address);
      CreateCustomer(s.db, firstName', lastName', phone, email', address') == Step(Err(ConstraintViolation), s.db)
  {
    var s := CreateCustomer(db, firstName, lastName, phone, email, address);
    var id := s.result.value.customerId;
    assert id in s.db.customers && s.db.customers[id].phone == phone;
  }

  /** The same for an email already held by a customer. */
  lemma CreateCustomerRejectsTakenEmail(db: Db, firstName: Option<string>, lastName: Option<string>, phone: Option<string>, email: Option<string>, address: Option<string>,
                                         firstName': Option<string>, lastName': Option<string>, phone': Option<string>, address': Option<string>)
    requires Valid(db)
    requires CreateCustomer(db, firstName, lastName, phone, email, address).result.Ok?
    ensures var s := CreateCustomer(db, firstName, lastName, phone, email, address);
      CreateCustomer(s.db, firstName', lastName', phone', email, address') == Step(Err(ConstraintViolation), s.db)
  {
    var s := CreateCustomer(db, firstName, lastName, phone, email, address);
    var id := s.result.value.customerId;
    assert id in s.db.customers && s.db.customers[id].email == email;
  }

  /** A second mechanic with an email already held is refused. */
  lemma CreateMechanicRejectsTakenEmail(db: Db, firstName: Option<string>, lastName: Option<string>, email: Option<string>, phone: Option<string>, salary: Option<int>,
                                         firstName': Option<string>, lastName': Option<string>, phone': Option<string>, salary': Option<int>)
    requires Valid(db)
    requires CreateMechanic(db, firstName, lastName, email, phone, salary).result.Ok?
    ensures var s := CreateMechanic(db, firstName, lastName, email, phone, salary);
      CreateMechanic(s.db, firstName', lastName', email, phone', salary') == Step(Err(ConstraintViolation), s.db)
  {
    var s := CreateMechanic(db, firstName, lastName, email, phone, salary);
    var id := s.result.value.mechanicId;
    assert id in s.db.mechanics && s.db.mechanics[id].email == email;
  }

  /** A second vehicle with the same VIN, or with a plate already carried, is refused. */
  lemma CreateVehicleRejectsTaken(db: Db, vin: string, customerId: Option<int>, make: Option<string>, model: Option<string>, year: Option<int>, licensePlate: Option<string>,
                                   vin': string, customerId': Option<int>, make': Option<string>, model': Option<string>, year': Option<int>, licensePlate': Option<string>)
    requires Valid(db)
    requires CreateVehicle(db, vin, customerId, make, model, year, licensePlate).result.Ok?
    requires vin' == vin || licensePlate' == licensePlate
    ensures var s := CreateVehicle(db, vin, customerId, make, model, year, licensePlate);
      CreateVehicle(s.db, vin', customerId', make', model', year', licensePlate') == Step(Err(ConstraintViolation), s.db)
  {
    var s := CreateVehicle(db, vin, customerId, make, model, year, licensePlate);
    assert vin in s.db.vehicles && s.db.vehicles[vin].licensePlate == licensePlate;
  }

  /** A second link of the same mechanic to the same ticket is refused. */
  lemma CreateServiceMechanicRejectsPair(db: Db, serviceTicketId: int, mechanicId: int)
    requires Valid(db)
    requires CreateServiceMechanic(db, serviceTicketId, mechanicId).result.Ok?
    ensures var s := CreateServiceMechanic(db, serviceTicketId, mechanicId);
      CreateServiceMechanic(s.db, serviceTicketId, mechanicId) == Step(Err(ConstraintViolation), s.db)
  {
  }

  /** Ids handed out one after another without a delete in between count up by one. */
  lemma NextRowIdCountsUp(ids: set<int>)
    ensures NextRowId(ids + {NextRowId(ids)}) == NextRowId(ids) + 1
  {
  }

  /**
   * Without the AUTOINCREMENT keyword a deleted id comes back: after a
   * customer is created and deleted again, the next customer created gets
   * the same id.
   */
  lemma CustomerIdReused(db: Db, firstName: Option<string>, lastName: Option<string>, phone: Option<string>, email: Option<string>, address: Option<string>,
                         firstName': Option<string>, lastName': Option<string>, phone': Option<string>, email': Option<string>, address': Option<string>)
    requires Valid(db)
    requires CreateCustomer(db, firstName, lastName, phone, email, address).result.Ok?
    ensures var s := CreateCustomer(db, firstName, lastName, phone, email, address);
      var d := DeleteCustomer(s.db, s.result.value.customerId);
      && d.result.Ok?
      && var again := CreateCustomer(d.db, firstName', lastName', phone', email', address');
         again.result.Ok? ==> again.result.value.customerId == s.result.value.customerId
  {
    DeleteUndoesCreateCustomer(db, firstName, lastName, phone, email, address);
  }

  // ---------------------------------------------------------------------
  // Delete undoes create

  lemma DeleteUndoesCreateCustomer(db: Db, firstName: Option<string>, lastName: Option<string>, phone: Option<string>, email: Option<string>, address: Option<string>)
    requires Valid(db)
    ensures var s := CreateCustomer(db, firstName, lastName, phone, email, address);
      s.result.Ok? ==> DeleteCustomer(s.db, s.result.value.customerId) == Step(Ok(()), db)
  {
  }

  lemma DeleteUndoesCreateVehicle(db: Db, vin: string, customerId: Option<int>, make: Option<string>, model: Option<string>, year: Option<int>, licensePlate: Option<string>)
    requires Valid(db)
    ensures var s := CreateVehicle(db, vin, customerId, make, model, year, licensePlate);
      s.result.Ok? ==> DeleteVehicle(s.db, vin) == Step(Ok(()), db)
  {
  }

  lemma DeleteUndoesCreateMechanic(db: Db, firstName: Option<string>, lastName: Option<string>, email: Option<string>, phone: Option<string>, salary: Option<int>)
    requires Valid(db)
    ensures var s := CreateMechanic(db, firstName, lastName, email, phone, salary);
      s.result.Ok? ==> DeleteMechanic(s.db, s.result.value.mechanicId) == Step(Ok(()), db)
  {
  }

  lemma DeleteUndoesCreateServiceTicket(db: Db, vin: Option<string>, customerId: Option<int>, ticketDate: Option<Timestamp>, serviceDescription: Option<string>, cost: Option<int>, now: Timestamp)
    requires Valid(db)
    ensures var s := CreateServiceTicket(db, vin, customerId, ticketDate, serviceDescription, cost, now);
      s.result.Ok? ==> DeleteServiceTicket(s.db, s.result.value.ticketId) == Step(Ok(()), db)
  {
  }

  lemma DeleteUndoesCreateServiceMechanic(db: Db, serviceTicketId: int, mechanicId: int)
    requires Valid(db)
    ensures var s := CreateServiceMechanic(db, serviceTicketId, mechanicId);
      s.result.Ok? ==> DeleteServiceMechanic(s.db, serviceTicketId, mechanicId) == Step(Ok(()), db)
  {
  }

  // ---------------------------------------------------------------------
  // Delete removes exactly one row

  lemma DeleteCustomerRemovesOne(db: Db, id: int)
    requires Valid(db)
    ensures var s := DeleteCustomer(db, id);
      s.result.Ok? ==>
        && s.db.customers.Keys == db.customers.Keys - {id}
        && |s.db.customers| == |db.customers| - 1
        && forall k :: k in s.db.customers ==> s.db.customers[k] == db.customers[k]
  {
  }

  lemma DeleteVehicleRemovesOne(db: Db, vin: string)
    requires Valid(db)
    ensures var s := DeleteVehicle(db, vin);
      s.result.Ok? ==>
        && s.db.vehicles.Keys == db.vehicles.Keys - {vin}
        && |s.db.vehicles| == |db.vehicles| - 1
        && forall k :: k in s.db.vehicles ==> s.db.vehicles[k] == db.vehicles[k]
  {
  }

  lemma DeleteMechanicRemovesOne(db: Db, id: int)
    requires Valid(db)
    ensures var s := DeleteMechanic(db, id);
      s.result.Ok? ==>
        && s.db.mechanics.Keys == db.mechanics.Keys - {id}
        && |s.db.mechanics| == |db.mechanics| - 1
        && forall k :: k in s.db.mechanics ==> s.db.mechanics[k] == db.mechanics[k]
  {
  }

  lemma DeleteServiceTicketRemovesOne(db: Db, id: int)
    requires Valid(db)
    ensures var s := DeleteServiceTicket(db, id);
      s.result.Ok? ==>
        && s.db.tickets.Keys == db.tickets.Keys - {id}
        && |s.db.tickets| == |db.tickets| - 1
        && forall k :: k in s.db.tickets ==> s.db.tickets[k] == db.tickets[k]
  {
  }

  lemma DeleteServiceMechanicRemovesOne(db: Db, serviceTicketId: int, mechanicId: int)
    requires Valid(db)
    ensures var s := DeleteServiceMechanic(db, serviceTicketId, mechanicId);
      s.result.Ok? ==>
        && s.db.assignments == db.assignments - {Assignments.ServiceMechanic(serviceTicketId, mechanicId)}
        && |s.db.assignments| == |db.assignments| - 1
  {
  }

  // ---------------------------------------------------------------------
  // Update overwrites exactly the supplied columns

  lemma UpdateCustomerCells(db: Db, id: int, writes: seq<Customers.Write>)
    requires Valid(db)
    ensures var s := UpdateCustomer(db, id, writes);
      s.result.Ok? && id in db.customers ==>
        && s.db.customers.Keys == db.customers.Keys
        && s.db.customers[id].customerId == id
        && (forall col :: Customers.Cell(s.db.customers[id], col) ==
              Patches.LastWritten(writes, Customers.ColumnOf, Customers.ValueOf, col, Customers.Cell(db.customers[id], col)))
        && forall k :: k in db.customers && k != id ==> s.db.customers[k] == db.customers[k]
  {
    var s := UpdateCustomer(db, id, writes);
    if s.result.Ok? && id in db.customers {
      forall col | true
        ensures Customers.Cell(s.db.customers[id], col) ==
          Patches.LastWritten(writes, Customers.ColumnOf, Customers.ValueOf, col, Customers.Cell(db.customers[id], col))
      {
        Customers.PatchCells(db.customers[id], writes, col);
        if writes == [] {
          assert s.db.customers[id] == Customers.Patch(db.customers[id], writes);
        }
      }
    }
  }

  lemma UpdateVehicleCells(db: Db, vin: string, writes: seq<Vehicles.Write>)
    requires Valid(db)
    ensures var s := UpdateVehicle(db, vin, writes);
      s.result.Ok? && vin in db.vehicles ==>
        && s.db.vehicles.Keys == db.vehicles.Keys
        && s.db.vehicles[vin].vin == vin
        && (forall col :: Vehicles.Cell(s.db.vehicles[vin], col) ==
              Patches.LastWritten(writes, Vehicles.ColumnOf, Vehicles.ValueOf, col, Vehicles.Cell(db.vehicles[vin], col)))
        && forall k :: k in db.vehicles && k != vin ==> s.db.vehicles[k] == db.vehicles[k]
  {
    var s := UpdateVehicle(db, vin, writes);
    if s.result.Ok? && vin in db.vehicles {
      forall col | true
        ensures Vehicles.Cell(s.db.vehicles[vin], col) ==
          Patches.LastWritten(writes, Vehicles.ColumnOf, Vehicles.ValueOf, col, Vehicles.Cell(db.vehicles[vin], col))
      {
        Vehicles.PatchCells(db.vehicles[vin], writes, col);
        if writes == [] {
          assert s.db.vehicles[vin] == Vehicles.Patch(db.vehicles[vin], writes);
        }
      }
    }
  }

  lemma UpdateMechanicCells(db: Db, id: int, writes: seq<Mechanics.Write>)
    requires Valid(db)
    ensures var s := UpdateMechanic(db, id, writes);
      s.result.Ok? && id in db.mechanics ==>
        && s.db.mechanics.Keys == db.mechanics.Keys
        && s.db.mechanics[id].mechanicId == id
        && (forall col :: Mechanics.Cell(s.db.mechanics[id], col) ==
              Patches.LastWritten(writes, Mechanics.ColumnOf, Mechanics.ValueOf, col, Mechanics.Cell(db.mechanics[id], col)))
        && forall k :: k in db.mechanics && k != id ==> s.db.mechanics[k] == db.mechanics[k]
  {
    var s := UpdateMechanic(db, id, writes);
    if s.result.Ok? && id in db.mechanics {
      forall col | true
        ensures Mechanics.Cell(s.db.mechanics[id], col) ==
          Patches.LastWritten(writes, Mechanics.ColumnOf, Mechanics.ValueOf, col, Mechanics.Cell(db.mechanics[id], col))
      {
        Mechanics.PatchCells(db.mechanics[id], writes, col);
        if writes == [] {
          assert s.db.mechanics[id] == Mechanics.Patch(db.mechanics[id], writes);
        }
      }
    }
  }

  lemma UpdateServiceTicketCells(db: Db, id: int, writes: seq<Tickets.Write>)
    requires Valid(db)
    ensures var s := UpdateServiceTicket(db, id, writes);
      s.result.Ok? && id in db.tickets ==>
        && s.db.tickets.Keys == db.tickets.Keys
        && s.db.tickets[id].ticketId == id
        && (forall col :: Tickets.Cell(s.db.tickets[id], col) ==
              Patches.LastWritten(writes, Tickets.ColumnOf, Tickets.ValueOf, col, Tickets.Cell(db.tickets[id], col)))
        && forall k :: k in db.tickets && k != id ==> s.db.tickets[k] == db.tickets[k]
  {
    var s := UpdateServiceTicket(db, id, writes);
    if s.result.Ok? && id in db.tickets {
      forall col | true
        ensures Tickets.Cell(s.db.tickets[id], col) ==
          Patches.LastWritten(writes, Tickets.ColumnOf, Tickets.ValueOf, col, Tickets.Cell(db.tickets[id], col))
      {
        Tickets.PatchCells(db.tickets[id], writes, col);
        if writes == [] {
          assert s.db.tickets[id] == Tickets.Patch(db.tickets[id], writes);
        }
      }
    }
  }
}
