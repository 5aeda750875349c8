/**
 * The fifteen creating, updating and deleting functions of practice1.py as
 * transitions of the database value.
 * Each create, update and delete is one committed unit: it either succeeds or
 * is refused and leaves the database as it was. A refusal that the ORM
 * raises (`setattr` or `session.delete` on the None that `.first()` gives for
 * a missing row) is `NotFound`; one the database raises at commit is
 * `ConstraintViolation`.
 */
module Operations {
  import opened Wrappers
  import opened Sql
  import opened Store
  import Customers
  import Vehicles
  import Mechanics
  import Tickets
  import Assignments

  // ---------------------------------------------------------------------
  // Customers

  /**
   * create_customer: insert a row built from the arguments under the next
   * row id. An argument may be None, which the INSERT stores as NULL.
   */
  ghost function CreateCustomer(db: Db, firstName: Option<string>, lastName: Option<string>, phone: Option<string>, email: Option<string>, address: Option<string>): (s: Step<Customer>)
    requires Valid(db)
    ensures Valid(s.db)
    ensures s.result.Ok? <==>
      && firstName.Some? && lastName.Some? && phone.Some? && email.Some?
      && forall id :: id in db.customers ==> db.customers[id].phone != phone && db.customers[id].email != email
    ensures s.result.Ok? ==>
      var c := s.result.value;
      && c.customerId !in db.customers
      && IsNextRowId(db.customers.Keys, c.customerId)
      && c == Customers.Customer(c.customerId, firstName, lastName, phone, email, address)
      && s.db == db.(customers := db.customers[c.customerId := c])
    ensures s.result.Err? ==> s == Step(Err(ConstraintViolation), db)
  {
    var c := Customers.Customer(NextRowId(db.customers.Keys), firstName, lastName, phone, email, address);
    if CustomerAdmissible(db.customers, c) then Step(Ok(c), db.(customers := db.customers[c.customerId := c]))
    else Step(Err(ConstraintViolation), db)
  }

  /**
   * update_customer: perform the writes on the row named by `id`. With no
   * writes nothing happens, even when no row has that id.
   */
  ghost function UpdateCustomer(db: Db, id: int, writes: seq<Customers.Write>): (s: Step<()>)
    requires Valid(db)
    ensures Valid(s.db)
    ensures writes == [] ==> s == Step(Ok(()), db)
    ensures writes != [] && id !in db.customers ==> s == Step(Err(NotFound), db)
    ensures s.result == Err(NotFound) <==> writes != [] && id !in db.customers
    ensures s.result.Ok? <==>
      writes == [] || (id in db.customers && CustomerAdmissible(db.customers, Customers.Patch(db.customers[id], writes)))
    ensures s.result.Ok? && writes != [] ==>
      && id in db.customers
      && CustomerAdmissible(db.customers, Customers.Patch(db.customers[id], writes))
      && s.db == db.(customers := db.customers[id := Customers.Patch(db.customers[id], writes)])
    ensures s.result.Err? ==> s.db == db
    ensures s.result == Err(ConstraintViolation) <==>
      writes != [] && id in db.customers && !CustomerAdmissible(db.customers, Customers.Patch(db.customers[id], writes))
  {
    if writes == [] then Step(Ok(()), db)
    else if id !in db.customers then Step(Err(NotFound), db)
    else
      var c := Customers.Patch(db.customers[id], writes);
      if CustomerAdmissible(db.customers, c) then Step(Ok(()), db.(customers := db.customers[id := c]))
      else Step(Err(ConstraintViolation), db)
  }

  /** delete_customer: remove the row named by `id`, unless a vehicle or a ticket refers to it. */
  ghost function DeleteCustomer(db: Db, id: int): (s: Step<()>)
    requires Valid(db)
    ensures Valid(s.db)
    ensures s.result.Ok? <==> id in db.customers && !CustomerReferenced(db, id)
    ensures s.result.Ok? ==> s.db == db.(customers := db.customers - {id})
    ensures id !in db.customers ==> s == Step(Err(NotFound), db)
    ensures id in db.customers && CustomerReferenced(db, id) ==> s == Step(Err(ConstraintViolation), db)
  {
    if id !in db.customers then Step(Err(NotFound), db)
    else if CustomerReferenced(db, id) then Step(Err(ConstraintViolation), db)
    else Step(Ok(()), db.(customers := db.customers - {id}))
  }

  // ---------------------------------------------------------------------
  // Vehicles

  /** create_vehicle: insert a row under its VIN, which no vehicle may hold yet. */
  ghost function CreateVehicle(db: Db, vin: string, customerId: Option<int>, make: Option<string>, model: Option<string>, year: Option<int>, licensePlate: Option<string>): (s: Step<Vehicle>)
    requires Valid(db)
    ensures Valid(s.db)
    ensures s.result.Ok? <==>
      && vin !in db.vehicles
      && customerId.Some? && make.Some? && model.Some? && year.Some? && licensePlate.Some?
      && customerId.value in db.customers
      && forall k :: k in db.vehicles ==> db.vehicles[k].licensePlate != licensePlate
    ensures s.result.Ok? ==>
      && s.result.value == Vehicles.Vehicle(vin, customerId, make, model, year, licensePlate)
      && s.db == db.(vehicles := db.vehicles[vin := s.result.value])
    ensures s.result.Err? ==> s == Step(Err(ConstraintViolation), db)
  {
    var v := Vehicles.Vehicle(vin, customerId, make, model, year, licensePlate);
    if vin !in db.vehicles && VehicleAdmissible(db, v) then Step(Ok(v), db.(vehicles := db.vehicles[vin := v]))
    else Step(Err(ConstraintViolation), db)
  }

  /** update_vehicle: perform the writes on the row with this VIN. */
  ghost function UpdateVehicle(db: Db, vin: string, writes: seq<Vehicles.Write>): (s: Step<()>)
    requires Valid(db)
    ensures Valid(s.db)
    ensures writes == [] ==> s == Step(Ok(()), db)
    ensures writes != [] && vin !in db.vehicles ==> s == Step(Err(NotFound), db)
    ensures s.result == Err(NotFound) <==> writes != [] && vin !in db.vehicles
    ensures s.result.Ok? <==>
      writes == [] || (vin in db.vehicles && VehicleAdmissible(db, Vehicles.Patch(db.vehicles[vin], writes)))
    ensures s.result.Ok? && writes != [] ==>
      && vin in db.vehicles
      && VehicleAdmissible(db, Vehicles.Patch(db.vehicles[vin], writes))
      && s.db == db.(vehicles := db.vehicles[vin := Vehicles.Patch(db.vehicles[vin], writes)])
    ensures s.result.Err? ==> s.db == db
    ensures s.result == Err(ConstraintViolation) <==>
      writes != [] && vin in db.vehicles && !VehicleAdmissible(db, Vehicles.Patch(db.vehicles[vin], writes))
  {
    if writes == [] then Step(Ok(()), db)
    else if vin !in db.vehicles then Step(Err(NotFound), db)
    else
      var v := Vehicles.Patch(db.vehicles[vin], writes);
      if VehicleAdmissible(db, v) then Step(Ok(()), db.(vehicles := db.vehicles[vin := v]))
      else Step(Err(ConstraintViolation), db)
  }

  /** delete_vehicle: remove the row with this VIN, unless a ticket refers to it. */
  ghost function DeleteVehicle(db: Db, vin: string): (s: Step<()>)
    requires Valid(db)
    ensures Valid(s.db)
    ensures s.result.Ok? <==> vin in db.vehicles && !VehicleReferenced(db, vin)
    ensures s.result.Ok? ==> s.db == db.(vehicles := db.vehicles - {vin})
    ensures vin !in db.vehicles ==> s == Step(Err(NotFound), db)
    ensures vin in db.vehicles && VehicleReferenced(db, vin) ==> s == Step(Err(ConstraintViolation), db)
  {
    if vin !in db.vehicles then Step(Err(NotFound), db)
    else if VehicleReferenced(db, vin) then Step(Err(ConstraintViolation), db)
    else Step(Ok(()), db.(vehicles := db.vehicles - {vin}))
  }

  // ---------------------------------------------------------------------
  // Mechanics

  /** create_mechanic: insert under the next row id; a salary of None (the default) breaks NOT NULL. */
  ghost function CreateMechanic(db: Db, firstName: Option<string>, lastName: Option<string>, email: Option<string>, phone: Option<string>, salary: Option<int>): (s: Step<Mechanic>)
    requires Valid(db)
    ensures Valid(s.db)
    ensures s.result.Ok? <==>
      && firstName.Some? && lastName.Some? && email.Some? && salary.Some?
      && forall id :: id in db.mechanics ==> db.mechanics[id].email != email
    ensures s.result.Ok? ==>
      var m := s.result.value;
      && m.mechanicId !in db.mechanics
      && IsNextRowId(db.mechanics.Keys, m.mechanicId)
      && m == Mechanics.Mechanic(m.mechanicId, firstName, lastName, email, phone, salary)
      && s.db == db.(mechanics := db.mechanics[m.mechanicId := m])
    ensures s.result.Err? ==> s == Step(Err(ConstraintViolation), db)
  {
    var m := Mechanics.Mechanic(NextRowId(db.mechanics.Keys), firstName, lastName, email, phone, salary);
    if MechanicAdmissible(db.mechanics, m) then Step(Ok(m), db.(mechanics := db.mechanics[m.mechanicId := m]))
    else Step(Err(ConstraintViolation), db)
  }

  /** update_mechanic: perform the writes on the row named by `id`. */
  ghost function UpdateMechanic(db: Db, id: int, writes: seq<Mechanics.Write>): (s: Step<()>)
    requires Valid(db)
    ensures Valid(s.db)
    ensures writes == [] ==> s == Step(Ok(()), db)
    ensures writes != [] && id !in db.mechanics ==> s == Step(Err(NotFound), db)
    ensures s.result == Err(NotFound) <==> writes != [] && id !in db.mechanics
    ensures s.result.Ok? <==>
      writes == [] || (id in db.mechanics && MechanicAdmissible(db.mechanics, Mechanics.Patch(db.mechanics[id], writes)))
    ensures s.result.Ok? && writes != [] ==>
      && id in db.mechanics
      && MechanicAdmissible(db.mechanics, Mechanics.Patch(db.mechanics[id], writes))
      && s.db == db.(mechanics := db.mechanics[id := Mechanics.Patch(db.mechanics[id], writes)])
    ensures s.result.Err? ==> s.db == db
    ensures s.result == Err(ConstraintViolation) <==>
      writes != [] && id in db.mechanics && !MechanicAdmissible(db.mechanics, Mechanics.Patch(db.mechanics[id], writes))
  {
    if writes == [] then Step(Ok(()), db)
    else if id !in db.mechanics then Step(Err(NotFound), db)
    else
      var m := Mechanics.Patch(db.mechanics[id], writes);
      if MechanicAdmissible(db.mechanics, m) then Step(Ok(()), db.(mechanics := db.mechanics[id := m]))
      else Step(Err(ConstraintViolation), db)
  }

  /** delete_mechanic: remove the row named by `id`, unless an assignment refers to it. */
  ghost function DeleteMechanic(db: Db, id: int): (s: Step<()>)
    requires Valid(db)
    ensures Valid(s.db)
    ensures s.result.Ok? <==> id in db.mechanics && !MechanicReferenced(db, id)
    ensures s.result.Ok? ==> s.db == db.(mechanics := db.mechanics - {id})
    ensures id !in db.mechanics ==> s == Step(Err(NotFound), db)
    ensures id in db.mechanics && MechanicReferenced(db, id) ==> s == Step(Err(ConstraintViolation), db)
  {
    if id !in db.mechanics then Step(Err(NotFound), db)
    else if MechanicReferenced(db, id) then Step(Err(ConstraintViolation), db)
    else Step(Ok(()), db.(mechanics := db.mechanics - {id}))
  }

  // ---------------------------------------------------------------------
  // Service tickets

  /**
   * create_service_ticket: insert under the next row id. A `ticketDate` of
   * None is left out of the INSERT, so the column default, the clock's `now`,
   * fills it.
   */
  ghost function CreateServiceTicket(db: Db, vin: Option<string>, customerId: Option<int>, ticketDate: Option<Timestamp>, serviceDescription: Option<string>, cost: Option<int>, now: Timestamp): (s: Step<ServiceTicket>)
    requires Valid(db)
    ensures Valid(s.db)
    ensures s.result.Ok? <==>
      && vin.Some? && customerId.Some? && serviceDescription.Some? && cost.Some?
      && vin.value in db.vehicles && customerId.value in db.customers
    ensures s.result.Ok? ==>
      var t := s.result.value;
      && t.ticketId !in db.tickets
      && IsNextRowId(db.tickets.Keys, t.ticketId)
      && t == Tickets.ServiceTicket(t.ticketId, vin, customerId, Some(ticketDate.GetOr(now)), serviceDescription, cost)
      && s.db == db.(tickets := db.tickets[t.ticketId := t])
    ensures s.result.Err? ==> s == Step(Err(ConstraintViolation), db)
  {
    var t := Tickets.ServiceTicket(NextRowId(db.tickets.Keys), vin, customerId, Some(ticketDate.GetOr(now)), serviceDescription, cost);
    if TicketAdmissible(db, t) then Step(Ok(t), db.(tickets := db.tickets[t.ticketId := t]))
    else Step(Err(ConstraintViolation), db)
  }

  /** update_service_ticket: perform the writes on the row named by `id`. */
  ghost function UpdateServiceTicket(db: Db, id: int, writes: seq<Tickets.Write>): (s: Step<()>)
    requires Valid(db)
    ensures Valid(s.db)
    ensures writes == [] ==> s == Step(Ok(()), db)
    ensures writes != [] && id !in db.tickets ==> s == Step(Err(NotFound), db)
    ensures s.result == Err(NotFound) <==> writes != [] && id !in db.tickets
    ensures s.result.Ok? <==>
      writes == [] || (id in db.tickets && TicketAdmissible(db, Tickets.Patch(db.tickets[id], writes)))
    ensures s.result.Ok? && writes != [] ==>
      && id in db.tickets
      && TicketAdmissible(db, Tickets.Patch(db.tickets[id], writes))
      && s.db == db.(tickets := db.tickets[id := Tickets.Patch(db.tickets[id], writes)])
    ensures s.result.Err? ==> s.db == db
    ensures s.result == Err(ConstraintViolation) <==>
      writes != [] && id in db.tickets && !TicketAdmissible(db, Tickets.Patch(db.tickets[id], writes))
  {
    if writes == [] then Step(Ok(()), db)
    else if id !in db.tickets then Step(Err(NotFound), db)
    else
      var t := Tickets.Patch(db.tickets[id], writes);
      if TicketAdmissible(db, t) then Step(Ok(()), db.(tickets := db.tickets[id := t]))
      else Step(Err(ConstraintViolation), db)
  }

  /** delete_service_ticket: remove the row named by `id`, unless an assignment refers to it. */
  ghost function DeleteServiceTicket(db: Db, id: int): (s: Step<()>)
    requires Valid(db)
    ensures Valid(s.db)
    ensures s.result.Ok? <==> id in db.tickets && !TicketReferenced(db, id)
    ensures s.result.Ok? ==> s.db == db.(tickets := db.tickets - {id})
    ensures id !in db.tickets ==> s == Step(Err(NotFound), db)
    ensures id in db.tickets && TicketReferenced(db, id) ==> s == Step(Err(ConstraintViolation), db)
  {
    if id !in db.tickets then Step(Err(NotFound), db)
    else if TicketReferenced(db, id) then Step(Err(ConstraintViolation), db)
    else Step(Ok(()), db.(tickets := db.tickets - {id}))
  }

  // ---------------------------------------------------------------------
  // Assignments of mechanics to tickets

  /** create_service_mechanic: link a mechanic to a ticket; the pair is the primary key. */
  ghost function CreateServiceMechanic(db: Db, serviceTicketId: int, mechanicId: int): (s: Step<ServiceMechanic>)
    requires Valid(db)
    ensures Valid(s.db)
    ensures s.result.Ok? <==>
      && Assignments.ServiceMechanic(serviceTicketId, mechanicId) !in db.assignments
      && serviceTicketId in db.tickets
      && mechanicId in db.mechanics
    ensures s.result.Ok? ==>
      && s.result.value == Assignments.ServiceMechanic(serviceTicketId, mechanicId)
      && s.db == db.(assignments := db.assignments + {s.result.value})
    ensures s.result.Err? ==> s == Step(Err(ConstraintViolation), db)
  {
    var a := Assignments.ServiceMechanic(serviceTicketId, mechanicId);
    if a !in db.assignments && AssignmentAdmissible(db, a) then Step(Ok(a), db.(assignments := db.assignments + {a}))
    else Step(Err(ConstraintViolation), db)
  }

  /**
   * update_service_mechanic: both columns of the table are its key and are
   * the function's own parameters, so no keyword argument can name a column.
   * The keyword arguments, given here by name, set plain attributes of the
   * object and change no row; with at least one of them and no such row,
   * `setattr` on None fails.
   */
  ghost function UpdateServiceMechanic(db: Db, serviceTicketId: int, mechanicId: int, attributes: seq<string>): (s: Step<()>)
    requires Valid(db)
    ensures s.db == db
    ensures s.result.Err? <==>
      attributes != [] && Assignments.ServiceMechanic(serviceTicketId, mechanicId) !in db.assignments
    ensures s.result.Err? ==> s.result.error == NotFound
  {
    if attributes != [] && Assignments.ServiceMechanic(serviceTicketId, mechanicId) !in db.assignments then Step(Err(NotFound), db)
    else Step(Ok(()), db)
  }

  /** delete_service_mechanic: remove the link row for this pair. */
  ghost function DeleteServiceMechanic(db: Db, serviceTicketId: int, mechanicId: int): (s: Step<()>)
    requires Valid(db)
    ensures Valid(s.db)
    ensures s.result.Ok? <==> Assignments.ServiceMechanic(serviceTicketId, mechanicId) in db.assignments
    ensures s.result.Ok? ==> s.db == db.(assignments := db.assignments - {Assignments.ServiceMechanic(serviceTicketId, mechanicId)})
    ensures s.result.Err? ==> s == Step(Err(NotFound), db)
  {
    var a := Assignments.ServiceMechanic(serviceTicketId, mechanicId);
    if a in db.assignments then Step(Ok(()), db.(assignments := db.assignments - {a}))
    else Step(Err(NotFound), db)
  }
}
