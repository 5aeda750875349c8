/**
 * The whole shop database as a value: the five tables, the rules the schema
 * declares for them, and SQLite's choice of a new row id.
 */
module Store {
  import opened Wrappers
  import Customers
  import Vehicles
  import Mechanics
  import Tickets
  import Assignments
  import Sets

  type Customer = Customers.Customer
  type Vehicle = Vehicles.Vehicle
  type Mechanic = Mechanics.Mechanic
  type ServiceTicket = Tickets.ServiceTicket
  type ServiceMechanic = Assignments.ServiceMechanic

  /** The five tables, each keyed by its primary key. */
  datatype Db = Db(
    customers: map<int, Customer>,
    vehicles: map<string, Vehicle>,
    mechanics: map<int, Mechanic>,
    tickets: map<int, ServiceTicket>,
    assignments: set<ServiceMechanic>)

  /** The database right after `create_all`: every table empty. */
  const Empty: Db := Db(map[], map[], map[], map[], {})

  /** What one operation answers, and the database after it. */
  datatype Step<+T> = Step(result: Result<T>, db: Db)

  // ---------------------------------------------------------------------
  // Row ids

  /**
   * The id SQLite gives a new row of a table whose key is an INTEGER PRIMARY
   * KEY without the AUTOINCREMENT keyword: one more than the largest id in
   * use, or 1 when the table is empty.
   */
  ghost predicate IsNextRowId(ids: set<int>, id: int) {
    if ids == {} then id == 1 else id - 1 in ids && forall k :: k in ids ==> k < id
  }

  lemma {:induction false} NextRowIdExists(ids: set<int>)
    ensures exists id :: IsNextRowId(ids, id)
    decreases ids
  {
    if ids == {} {
      assert IsNextRowId(ids, 1);
    } else {
      var x := Sets.Pick(ids);
      var rest := ids - {x};
      if rest == {} {
        assert ids == {x};
        assert IsNextRowId(ids, x + 1);
      } else {
        NextRowIdExists(rest);
        var m :| IsNextRowId(rest, m);
        var top := if x < m then m else x + 1;
        forall k | k in ids
          ensures k < top
        {
          if k != x {
            assert k in rest;
          }
        }
        assert top - 1 in ids by {
          if x < m {
            assert m - 1 in rest;
          }
        }
        assert IsNextRowId(ids, top);
      }
    }
  }

  /** The id the next insert into a table holding `ids` receives: unique, and held by no current row. */
  ghost function NextRowId(ids: set<int>): (id: int)
    ensures IsNextRowId(ids, id)
    ensures id !in ids
    ensures forall other :: IsNextRowId(ids, other) ==> other == id
  {
    NextRowIdExists(ids);
    var id :| IsNextRowId(ids, id);
    id
  }

  // ---------------------------------------------------------------------
  // UNIQUE columns. SQL never counts two NULLs as equal, so NULL clashes with nothing.

  /** A customer other than `self` holds this phone. */
  predicate PhoneTaken(customers: map<int, Customer>, phone: Option<string>, self: int) {
    phone.Some? && exists id :: id in customers && id != self && customers[id].phone == phone
  }

  /** A customer other than `self` holds this email. */
  predicate CustomerEmailTaken(customers: map<int, Customer>, email: Option<string>, self: int) {
    email.Some? && exists id :: id in customers && id != self && customers[id].email == email
  }

  /** A vehicle other than the one with VIN `self` carries this plate. */
  predicate PlateTaken(vehicles: map<string, Vehicle>, plate: Option<string>, self: string) {
    plate.Some? && exists vin :: vin in vehicles && vin != self && vehicles[vin].licensePlate == plate
  }

  /** A mechanic other than `self` holds this email. */
  predicate MechanicEmailTaken(mechanics: map<int, Mechanic>, email: Option<string>, self: int) {
    email.Some? && exists id :: id in mechanics && id != self && mechanics[id].email == email
  }

  // ---------------------------------------------------------------------
  // What a commit accepts: a row may be stored when its NOT NULL columns hold
  // values, it clashes with no other row on a UNIQUE column, and its
  // FOREIGN KEY columns name existing rows.

  predicate CustomerAdmissible(customers: map<int, Customer>, c: Customer) {
    && c.Complete()
    && !PhoneTaken(customers, c.phone, c.customerId)
    && !CustomerEmailTaken(customers, c.email, c.customerId)
  }

  predicate VehicleAdmissible(db: Db, v: Vehicle) {
    && v.Complete()
    && v.customerId.value in db.customers
    && !PlateTaken(db.vehicles, v.licensePlate, v.vin)
  }

  predicate MechanicAdmissible(mechanics: map<int, Mechanic>, m: Mechanic) {
    && m.Complete()
    && !MechanicEmailTaken(mechanics, m.email, m.mechanicId)
  }

  predicate TicketAdmissible(db: Db, t: ServiceTicket) {
    && t.Complete()
    && t.vin.value in db.vehicles
    && t.customerId.value in db.customers
  }

  predicate AssignmentAdmissible(db: Db, a: ServiceMechanic) {
    && a.serviceTicketId in db.tickets
    && a.mechanicId in db.mechanics
  }

  // ---------------------------------------------------------------------
  // Rows that other rows refer to. Deleting one is refused (restrict).

  predicate CustomerReferenced(db: Db, id: int) {
    || (exists vin :: vin in db.vehicles && db.vehicles[vin].customerId == Some(id))
    || (exists t :: t in db.tickets && db.tickets[t].customerId == Some(id))
  }

  predicate VehicleReferenced(db: Db, vin: string) {
    exists t :: t in db.tickets && db.tickets[t].vin == Some(vin)
  }

  predicate MechanicReferenced(db: Db, id: int) {
    exists a :: a in db.assignments && a.mechanicId == id
  }

  predicate TicketReferenced(db: Db, id: int) {
    exists a :: a in db.assignments && a.serviceTicketId == id
  }

  // ---------------------------------------------------------------------
  // The store invariant

  /**
   * Every table is keyed by each row's own primary key, and every stored row
   * is admissible: NOT NULL columns hold values, UNIQUE columns hold no value
   * twice, and every FOREIGN KEY names an existing row.
   */
  ghost predicate Valid(db: Db) {
    && (forall id :: id in db.customers ==>
          db.customers[id].customerId == id && CustomerAdmissible(db.customers, db.customers[id]))
    && (forall vin :: vin in db.vehicles ==>
          db.vehicles[vin].vin == vin && VehicleAdmissible(db, db.vehicles[vin]))
    && (forall id :: id in db.mechanics ==>
          db.mechanics[id].mechanicId == id && MechanicAdmissible(db.mechanics, db.mechanics[id]))
    && (forall id :: id in db.tickets ==>
          db.tickets[id].ticketId == id && TicketAdmissible(db, db.tickets[id]))
    && (forall a :: a in db.assignments ==> AssignmentAdmissible(db, a))
  }

  /** The empty database satisfies the invariant. */
  lemma EmptyValid()
    ensures Valid(Empty)
  {
  }
}
