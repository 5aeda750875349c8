/**
 * Fixed call sequences on the session, with their outcomes proved: a
 * walk-through of the shop's use and the cases of test_practice1.py, each
 * from a fresh database.
 */
module Scenarios {
  import opened Wrappers
  import opened Sql
  import opened Store
  import opened Session
  import Customers
  import Vehicles
  import Mechanics
  import Tickets
  import Assignments

  /** A shop holding only the customer that every test case starts from. */
  method ShopWithJohn() returns (shop: Shop, john: Customer)
    ensures fresh(shop)
    ensures shop.Valid()
    ensures john == Customers.Customer(1, Some("John"), Some("Doe"), Some("1234567890"), Some("john@example.com"), None)
    ensures shop.Db() == Empty.(customers := map[1 := john])
  {
    shop := new Shop();
    var r := shop.CreateCustomer(Some("John"), Some("Doe"), Some("1234567890"), Some("john@example.com"), None);
    john := r.value;
  }

  /**
   * A customer, a vehicle, a ticket, a mechanic, and the mechanic assigned to
   * the ticket: the first rows get id 1, and the link table then holds the
   * single pair (1, 1).
   */
  method Walkthrough(now: Timestamp) returns (customerId: int, ticketId: int, mechanicId: int, links: seq<ServiceMechanic>)
    ensures customerId == 1 && ticketId == 1 && mechanicId == 1
    ensures links == [Assignments.ServiceMechanic(1, 1)]
  {
    var shop := new Shop();
    var c := shop.CreateCustomer(Some("John"), Some("Doe"), Some("123"), Some("john@x.com"), None);
    customerId := c.value.customerId;
    var v := shop.CreateVehicle("1HGBH41JXMN109186", Some(customerId), Some("Honda"), Some("Civic"), Some(2020), Some("ABC123"));
    assert v.Ok?;
    // 50.0 held as 5000 cents
    var t := shop.CreateServiceTicket(Some("1HGBH41JXMN109186"), Some(customerId), None, Some("Oil change"), Some(5000), now);
    ticketId := t.value.ticketId;
    var m := shop.CreateMechanic(Some("Alice"), Some("Smith"), Some("alice@x.com"), None, Some(5000000));
    mechanicId := m.value.mechanicId;
    var a := shop.CreateServiceMechanic(ticketId, mechanicId);
    assert a.Ok?;
    links := shop.ReadServiceMechanics();
    assert links[0] in shop.assignments;
  }

  /** test_create_customer: the customer created after the first one gets id 2. */
  method SecondCustomerGetsIdTwo() returns (id: int)
    ensures id == 2
  {
    var shop, john := ShopWithJohn();
    assert IsNextRowId({1}, 2);
    var r := shop.CreateCustomer(Some("Jane"), Some("Doe"), Some("0987654321"), Some("jane@example.com"), None);
    id := r.value.customerId;
  }

  /** test_update_customer: writing first_name changes that column of that row and nothing else. */
  method UpdateFirstName() returns (r: Result<()>, rows: seq<Customer>)
    ensures r == Ok(())
    ensures rows == [Customers.Customer(1, Some("Jane"), Some("Doe"), Some("1234567890"), Some("john@example.com"), None)]
  {
    var shop, john := ShopWithJohn();
    r := shop.UpdateCustomer(1, [Customers.SetFirstName(Some("Jane"))]);
    rows := shop.ReadCustomers();
    assert rows[0].customerId in shop.customers;
  }

  /** test_delete_customer: once the only customer is deleted, reading customers yields nothing. */
  method DeleteOnlyCustomer() returns (r: Result<()>, rows: seq<Customer>)
    ensures r == Ok(())
    ensures rows == []
  {
    var shop, john := ShopWithJohn();
    r := shop.DeleteCustomer(1);
    rows := shop.ReadCustomers();
  }

  /** The menu's blank answers reach update_customer as None, which the NOT NULL column refuses. */
  method BlankUpdateRefused() returns (r: Result<()>, rows: seq<Customer>)
    ensures r == Err(ConstraintViolation)
    ensures rows == [Customers.Customer(1, Some("John"), Some("Doe"), Some("1234567890"), Some("john@example.com"), None)]
  {
    var shop, john := ShopWithJohn();
    r := shop.UpdateCustomer(1, [Customers.SetFirstName(Some("Jack")), Customers.SetLastName(None)]);
    rows := shop.ReadCustomers();
    assert rows[0].customerId in shop.customers;
  }

  /** A customer with the phone of an existing one is refused and not stored. */
  method DuplicatePhoneRefused() returns (r: Result<Customer>, count: nat)
    ensures r == Err(ConstraintViolation)
    ensures count == 1
  {
    var shop, john := ShopWithJohn();
    r := shop.CreateCustomer(Some("Jane"), Some("Roe"), Some("1234567890"), Some("jane@example.com"), None);
    var rows := shop.ReadCustomers();
    count := |rows|;
  }

  /** create_mechanic without a salary leaves salary at its default, None, and is refused. */
  method MechanicWithoutSalaryRefused() returns (r: Result<Mechanic>, count: nat)
    ensures r == Err(ConstraintViolation)
    ensures count == 0
  {
    var shop := new Shop();
    r := shop.CreateMechanic(Some("Alice"), Some("Smith"), Some("alice@example.com"), Some("555-1234"), None);
    var rows := shop.ReadMechanics();
    count := |rows|;
  }

  /** The vehicle cases of the tests: create, update the make, delete; and a second vehicle with the same plate. */
  method VehicleLifecycle() returns (created: Result<Vehicle>, sameplate: Result<Vehicle>, rowsAfterUpdate: seq<Vehicle>, rowsAfterDelete: seq<Vehicle>)
    ensures created == Ok(Vehicles.Vehicle("1HGBH41JXMN109186", Some(1), Some("Honda"), Some("Civic"), Some(2020), Some("ABC123")))
    ensures sameplate == Err(ConstraintViolation)
    ensures rowsAfterUpdate == [Vehicles.Vehicle("1HGBH41JXMN109186", Some(1), Some("Toyota"), Some("Civic"), Some(2020), Some("ABC123"))]
    ensures rowsAfterDelete == []
  {
    var shop, john := ShopWithJohn();
    created := shop.CreateVehicle("1HGBH41JXMN109186", Some(1), Some("Honda"), Some("Civic"), Some(2020), Some("ABC123"));
    sameplate := shop.CreateVehicle("1HGBH41JXMN109187", Some(1), Some("Honda"), Some("Civic"), Some(2020), Some("ABC123"));
    var u := shop.UpdateVehicle("1HGBH41JXMN109186", [Vehicles.SetMake(Some("Toyota"))]);
    rowsAfterUpdate := shop.ReadVehicles();
    assert rowsAfterUpdate[0].vin in shop.vehicles;
    var d := shop.DeleteVehicle("1HGBH41JXMN109186");
    rowsAfterDelete := shop.ReadVehicles();
  }

  /**
   * A customer who owns a vehicle cannot be deleted, and a ticket cannot be
   * deleted while a mechanic is assigned to it; linking the same mechanic
   * twice is refused.
   */
  method ReferencedRowsStay(now: Timestamp) returns (deleteOwner: Result<()>, linkAgain: Result<ServiceMechanic>, deleteTicket: Result<()>)
    ensures deleteOwner == Err(ConstraintViolation)
    ensures linkAgain == Err(ConstraintViolation)
    ensures deleteTicket == Err(ConstraintViolation)
  {
    var shop, john := ShopWithJohn();
    var v := shop.CreateVehicle("1HGBH41JXMN109187", Some(1), Some("Honda"), Some("Civic"), Some(2020), Some("XYZ789"));
    deleteOwner := shop.DeleteCustomer(1);
    var t := shop.CreateServiceTicket(Some("1HGBH41JXMN109187"), Some(1), None, Some("Oil Change"), Some(5000), now);
    var m := shop.CreateMechanic(Some("Alice"), Some("Smith"), Some("alice@example.com"), Some("555-1234"), Some(5000000));
    var a := shop.CreateServiceMechanic(1, 1);
    linkAgain := shop.CreateServiceMechanic(1, 1);
    deleteTicket := shop.DeleteServiceTicket(1);
  }

  /** update and delete of an id with no row: NotFound, except for an update with no keyword arguments. */
  method MissingRows() returns (update: Result<()>, emptyUpdate: Result<()>, delete: Result<()>, db: Db)
    ensures update == Err(NotFound)
    ensures emptyUpdate == Ok(())
    ensures delete == Err(NotFound)
    ensures db == Empty
  {
    var shop := new Shop();
    update := shop.UpdateMechanic(7, [Mechanics.SetPhone(Some("555-0000"))]);
    emptyUpdate := shop.UpdateMechanic(7, []);
    delete := shop.DeleteServiceTicket(7);
    db := shop.Db();
  }
}
