# Auto-repair shop data layer, in Dafny

This project models the data layer of a small auto-repair shop (`practice1.py`)
and proves properties of the model. The data layer is a SQLAlchemy schema over
SQLite with five tables:

- `customers`;
- `vehicles`, keyed by VIN;
- `mechanics`;
- `service_tickets`;
- `service_mechanics`, which links mechanics to tickets.

Twenty functions create, read, update and delete the rows of these tables.
The fifteen that change a table work on a session and commit at once; the
five reads only query.

The model has three layers:

- **Rows and the schema's rules** (`wrappers.dfy`, `sql.dfy`,
  `customers.dfy`, `vehicles.dfy`, `mechanics.dfy`, `tickets.dfy`,
  `assignments.dfy`, `store.dfy`).
  - Each entity is a datatype.
  - Every column except the primary key is an `Option`, because the ORM
    object can hold None there.
  - `Store.Valid` is the store invariant. It holds when:
    - NOT NULL columns hold values;
    - UNIQUE columns hold no value twice;
    - every FOREIGN KEY names an existing row.
  - `Store.NextRowId` is SQLite's choice of a new integer key. SQLAlchemy's
    `autoincrement=True` does not emit the `AUTOINCREMENT` keyword on SQLite,
    so the new key is one more than the largest key in use, or 1 when the
    table is empty.
- **Operations** (`operations.dfy`).
  - Each of the fifteen changing functions is a transition from one database
    value to the next. It answers `Ok`, `NotFound` or `ConstraintViolation`,
    and leaves the database unchanged when it refuses.
  - An update is the sequence of its keyword arguments, in order
    (`Customers.Write` and its siblings). Each write names one column and may
    carry None, because the source writes whatever it is given.
- **The session** (`session.dfy`).
  - `Session.Shop` is a class whose fields are the five tables. Its fifteen
    changing methods update them in place; its five read methods only look.
  - Each changing method is proved to perform exactly its transition in
    `Operations`:
    - the update methods run the `kwargs` loop one `setattr` at a time;
    - the create methods find the new row id with a loop over the ids in use.
  - The read methods list every row exactly once.

`properties.dfy` proves what holds across several calls. `scenarios.dfy`
proves the outcome of fixed call sequences on the session: a walk-through of
the shop's use and the cases of `test_practice1.py`. Nothing is executed.

Errors are modelled as follows:

- A refusal that the ORM raises is `NotFound`. This is `setattr`, or
  `session.delete`, applied to the None that `.first()` returns for a missing
  row.
- A refusal that the database raises at commit is `ConstraintViolation`.
- An update with no keyword arguments never runs its loop. It does nothing
  and succeeds, even when no row has the given key.
- A create that sets a column to None leaves that column out of the INSERT,
  because the ORM skips None values there.
  - A NOT NULL column left out this way is a violation. `create_mechanic`
    with its default `salary=None` is therefore refused.
  - `ticket_date` left out this way takes its column default, the clock. The
    clock is the parameter `now`.

These points of the model deserve a note:

- **Foreign keys.** The schema declares them, but SQLite does not enforce
  them unless `PRAGMA foreign_keys` is on, and the code never turns it on. The
  model enforces them as declared.
- **Deleting a referenced row** (a customer with vehicles or tickets, a
  vehicle with tickets, a ticket or mechanic with assignments) is refused.
  - This "restrict" policy is a modelling choice. The code declares no
    cascade.
  - It agrees with what the ORM does by default: it would set the
    referencing column to NULL, and every such column is NOT NULL or part
    of a primary key, so the commit fails.
- **Costs.** A negative cost or salary would make no sense to the shop, but
  the schema (practice1.py:45, :58) has no CHECK constraint. The model
  follows the code, so any amount is accepted.
- **Reused ids.** A deleted id is not retired. With SQLite's rule, a
  customer created and then deleted again hands its id to the next customer
  created (`Properties.CustomerIdReused`).
- **Updating an identity with no row** fails with `NotFound` only when there
  is at least one keyword argument (practice1.py:87-89). With none, the loop
  never runs and the update succeeds.

## Model

| member | source | states |
|---|---|---|
| Customers.Put | practice1.py:88-89 | one `setattr` stores the written value in the named column and leaves every other column and the key as they were |
| Customers.PatchCells | practice1.py:86-90 | after the `kwargs` loop each column holds the value last written to it, or its old value when no keyword names it |
| Vehicles.Put | practice1.py:112-113 | one `setattr` on a vehicle changes the named column only, never the VIN |
| Vehicles.PatchCells | practice1.py:110-114 | each vehicle column ends with its last written value, or its old one |
| Mechanics.Put | practice1.py:136-137 | one `setattr` on a mechanic changes the named column only, never the id |
| Mechanics.PatchCells | practice1.py:134-138 | each mechanic column ends with its last written value, or its old one |
| Tickets.Put | practice1.py:160-161 | one `setattr` on a ticket changes the named column only, never the id |
| Tickets.PatchCells | practice1.py:158-162 | each ticket column ends with its last written value, or its old one |
| Patches.ApplyCells | practice1.py:88-89 | for any row type: if a write sets its own column and keeps every other column, then a loop of writes leaves each column at its last written value |
| Patches.LastWrittenWins | practice1.py:88-89 | the value of a keyword is the value its column keeps, as long as no later write names that column (Python keywords are distinct, so this holds for every keyword) |
| Patches.LastWrittenUnnamed | practice1.py:88-89 | a column no keyword names keeps its value |
| Store.Valid | practice1.py:12-69 | each row sits under its own key, NOT NULL columns hold values, no UNIQUE value appears twice, and every FOREIGN KEY names an existing row |
| Store.CustomerAdmissible | practice1.py:13-16 | a customer row may be committed when its NOT NULL columns hold values and no other customer holds its phone or its email |
| Store.VehicleAdmissible | practice1.py:27-31 | a vehicle row may be committed when its NOT NULL columns hold values, its owner is an existing customer and no other vehicle carries its plate |
| Store.MechanicAdmissible | practice1.py:41-45 | a mechanic row may be committed when its NOT NULL columns hold values and no other mechanic holds its email |
| Store.TicketAdmissible | practice1.py:54-58 | a ticket row may be committed when its NOT NULL columns hold values and its vin and customer name existing rows |
| Store.AssignmentAdmissible | practice1.py:68-69 | a link may be committed when its ticket and its mechanic exist |
| Store.CustomerReferenced | practice1.py:27 | some vehicle or ticket refers to the customer (practice1.py:55 for tickets) |
| Store.VehicleReferenced | practice1.py:54 | some ticket refers to the vehicle |
| Store.MechanicReferenced | practice1.py:69 | some link refers to the mechanic |
| Store.TicketReferenced | practice1.py:68 | some link refers to the ticket |
| Store.IsNextRowId | practice1.py:12 | SQLite's row-id rule: 1 in an empty table, otherwise one more than the largest id in use |
| Customers.Customer.Complete | practice1.py:13-17 | first name, last name, phone and email hold values; only the address may be NULL |
| Vehicles.Vehicle.Complete | practice1.py:27-31 | owner, make, model, year and plate all hold values |
| Mechanics.Mechanic.Complete | practice1.py:41-45 | first name, last name, email and salary hold values; only the phone may be NULL |
| Tickets.ServiceTicket.Complete | practice1.py:54-58 | vin, customer, description and cost hold values; the date may be NULL |
| Patches.Apply | practice1.py:88-89 | the row after every keyword's `setattr` has been performed in order |
| Customers.Patch | practice1.py:88-89 | the customer after the `kwargs` loop; the key is never written |
| Vehicles.Patch | practice1.py:112-113 | the vehicle after the `kwargs` loop; the VIN is never written |
| Mechanics.Patch | practice1.py:136-137 | the mechanic after the `kwargs` loop; the id is never written |
| Tickets.Patch | practice1.py:160-161 | the ticket after the `kwargs` loop; the id is never written |
| Store.NextRowId | practice1.py:12 | the id of a new row is one more than the largest id in use (1 in an empty table); it is unique and held by no current row |
| Store.NextRowIdExists | practice1.py:12 | every finite set of ids in use has such a next id |
| Store.EmptyValid | practice1.py:9-72 | the freshly created, empty tables satisfy every declared constraint |
| Operations.CreateCustomer | practice1.py:75-79 | succeeds exactly when first name, last name, phone and email are given and no customer holds that phone or email; the new row has a fresh next id and exactly the given fields; otherwise ConstraintViolation and nothing changes; the invariant is kept |
| Operations.UpdateCustomer | practice1.py:86-90 | no keywords: success, nothing changes; NotFound exactly when keywords are given and no row has the id; success exactly when there are no keywords or the row exists and the patched row is admissible, and then the row becomes the patched row; ConstraintViolation exactly when the patched row is not admissible; nothing changes on refusal; the invariant is kept |
| Operations.DeleteCustomer | practice1.py:93-96 | succeeds exactly when the row exists and no vehicle or ticket refers to it, and then removes that row only; NotFound for a missing row; nothing changes on refusal |
| Operations.CreateVehicle | practice1.py:99-103 | succeeds exactly when the VIN is new, every NOT NULL column is given, the owner exists and no vehicle carries the plate; stores exactly the given row under its VIN |
| Operations.UpdateVehicle | practice1.py:110-114 | as for customers; an update of `customer_id` must name an existing customer and a new plate must be free |
| Operations.DeleteVehicle | practice1.py:117-120 | succeeds exactly when the vehicle exists and no ticket refers to it, removing that row only |
| Operations.CreateMechanic | practice1.py:123-127 | succeeds exactly when names, email and salary are given and the email is free, so the default `salary=None` is refused; the new row has a fresh next id |
| Operations.UpdateMechanic | practice1.py:134-138 | as for customers, with the mechanic's NOT NULL and UNIQUE columns |
| Operations.DeleteMechanic | practice1.py:141-144 | succeeds exactly when the mechanic exists and no assignment refers to it |
| Operations.CreateServiceTicket | practice1.py:147-151 | succeeds exactly when vin, customer, description and cost are given and name an existing vehicle and customer; a missing date takes the insert-time clock; the new row has a fresh next id |
| Operations.UpdateServiceTicket | practice1.py:158-162 | as for customers; a rewritten vin or customer must name an existing row |
| Operations.DeleteServiceTicket | practice1.py:165-168 | succeeds exactly when the ticket exists and no assignment refers to it |
| Operations.CreateServiceMechanic | practice1.py:171-175 | succeeds exactly when the pair is not yet linked and both the ticket and the mechanic exist; adds exactly that pair |
| Operations.UpdateServiceMechanic | practice1.py:182-186 | never changes the database; fails with NotFound exactly when keywords are given and the pair is not linked |
| Operations.DeleteServiceMechanic | practice1.py:189-192 | succeeds exactly when the pair is linked, and removes exactly that pair; NotFound otherwise |
| Session.AllocateRowId | practice1.py:12 | one pass over the ids in use yields the next row id |
| Session.Rows | practice1.py:82-83 | lists every row of a table exactly once and nothing else |
| Session.Members | practice1.py:178-179 | lists every member of a set exactly once and nothing else |
| Session.Shop.constructor | practice1.py:9-72 | the five tables start empty and valid |
| Session.Shop.CreateCustomer | practice1.py:75-79 | performs `Operations.CreateCustomer` on the session's tables and keeps the invariant |
| Session.Shop.ReadCustomers | practice1.py:82-83 | returns each stored customer exactly once, and nothing else |
| Session.Shop.UpdateCustomer | practice1.py:86-90 | the `kwargs` loop of `setattr`, then the commit, performs `Operations.UpdateCustomer` |
| Session.Shop.DeleteCustomer | practice1.py:93-96 | performs `Operations.DeleteCustomer` |
| Session.Shop.CreateVehicle | practice1.py:99-103 | performs `Operations.CreateVehicle` |
| Session.Shop.ReadVehicles | practice1.py:106-107 | returns each stored vehicle exactly once, and nothing else |
| Session.Shop.UpdateVehicle | practice1.py:110-114 | the `kwargs` loop performs `Operations.UpdateVehicle` |
| Session.Shop.DeleteVehicle | practice1.py:117-120 | performs `Operations.DeleteVehicle` |
| Session.Shop.CreateMechanic | practice1.py:123-127 | performs `Operations.CreateMechanic` |
| Session.Shop.ReadMechanics | practice1.py:130-131 | returns each stored mechanic exactly once, and nothing else |
| Session.Shop.UpdateMechanic | practice1.py:134-138 | the `kwargs` loop performs `Operations.UpdateMechanic` |
| Session.Shop.DeleteMechanic | practice1.py:141-144 | performs `Operations.DeleteMechanic` |
| Session.Shop.CreateServiceTicket | practice1.py:147-151 | performs `Operations.CreateServiceTicket` with the clock's reading at the insert |
| Session.Shop.ReadServiceTickets | practice1.py:154-155 | returns each stored ticket exactly once, and nothing else |
| Session.Shop.UpdateServiceTicket | practice1.py:158-162 | the `kwargs` loop performs `Operations.UpdateServiceTicket` |
| Session.Shop.DeleteServiceTicket | practice1.py:165-168 | performs `Operations.DeleteServiceTicket` |
| Session.Shop.CreateServiceMechanic | practice1.py:171-175 | performs `Operations.CreateServiceMechanic` |
| Session.Shop.ReadServiceMechanics | practice1.py:178-179 | returns each stored link exactly once, and nothing else |
| Session.Shop.UpdateServiceMechanic | practice1.py:182-186 | the `kwargs` loop performs `Operations.UpdateServiceMechanic` |
| Session.Shop.DeleteServiceMechanic | practice1.py:189-192 | performs `Operations.DeleteServiceMechanic` |
| Properties.UniqueColumns | practice1.py:15-16 | in a valid store no two customers share a phone or an email, no two mechanics share an email and no two vehicles share a plate |
| Properties.ReferencesHold | practice1.py:27 | every vehicle's owner, every ticket's vehicle and customer, and every assignment's ticket and mechanic exist |
| Properties.UnusedCustomerIdUnreferenced | practice1.py:27 | no vehicle or ticket refers to an id that no customer holds |
| Properties.CreateCustomerRejectsTakenPhone | practice1.py:15 | a second customer with a phone already held is refused and nothing changes |
| Properties.CreateCustomerRejectsTakenEmail | practice1.py:16 | a second customer with an email already held is refused and nothing changes |
| Properties.CreateMechanicRejectsTakenEmail | practice1.py:43 | a second mechanic with an email already held is refused |
| Properties.CreateVehicleRejectsTaken | practice1.py:26-31 | a second vehicle with the same VIN or the same plate is refused |
| Properties.CreateServiceMechanicRejectsPair | practice1.py:68-69 | linking the same mechanic to the same ticket twice is refused |
| Properties.NextRowIdCountsUp | practice1.py:12 | ids handed out with no delete in between are consecutive |
| Properties.CustomerIdReused | practice1.py:12 | after a customer is created and deleted again, the next customer created receives the same id |
| Properties.DeleteUndoesCreateCustomer | practice1.py:75-96 | deleting the customer just created restores the database exactly |
| Properties.DeleteUndoesCreateVehicle | practice1.py:99-120 | deleting the vehicle just created restores the database exactly |
| Properties.DeleteUndoesCreateMechanic | practice1.py:123-144 | deleting the mechanic just created restores the database exactly |
| Properties.DeleteUndoesCreateServiceTicket | practice1.py:147-168 | deleting the ticket just created restores the database exactly |
| Properties.DeleteUndoesCreateServiceMechanic | practice1.py:171-192 | removing the link just created restores the database exactly |
| Properties.DeleteCustomerRemovesOne | practice1.py:93-96 | a delete removes exactly the one key, one fewer row, all other rows unchanged |
| Properties.DeleteVehicleRemovesOne | practice1.py:117-120 | a vehicle delete removes exactly that VIN's row |
| Properties.DeleteMechanicRemovesOne | practice1.py:141-144 | a mechanic delete removes exactly that row |
| Properties.DeleteServiceTicketRemovesOne | practice1.py:165-168 | a ticket delete removes exactly that row |
| Properties.DeleteServiceMechanicRemovesOne | practice1.py:189-192 | a link delete removes exactly that pair, keeps every other link and leaves one link fewer |
| Properties.UpdateCustomerCells | practice1.py:86-90 | a successful update keeps the keys, leaves every other row as it was, and gives each column of the row its last written value or its old one |
| Properties.UpdateVehicleCells | practice1.py:110-114 | the same for vehicles |
| Properties.UpdateMechanicCells | practice1.py:134-138 | the same for mechanics |
| Properties.UpdateServiceTicketCells | practice1.py:158-162 | the same for tickets |
| Scenarios.Walkthrough | practice1.py:75-179 | after a customer, a vehicle, a ticket and a mechanic are created, the customer, the ticket and the mechanic each have id 1, and listing the links gives exactly the pair (1, 1) |
| Scenarios.SecondCustomerGetsIdTwo | test_practice1.py:28-33 | the customer created after the first gets id 2 |
| Scenarios.UpdateFirstName | test_practice1.py:41-48 | writing first_name changes only that column |
| Scenarios.DeleteOnlyCustomer | test_practice1.py:50-57 | after the only customer is deleted, reading customers yields nothing |
| Scenarios.BlankUpdateRefused | practice1.py:86-90 | an update that writes None into a NOT NULL column is refused, and nothing changes, not even the other columns it named |
| Scenarios.DuplicatePhoneRefused | practice1.py:75-79 | a second customer with a held phone is refused and the table still has one row |
| Scenarios.MechanicWithoutSalaryRefused | practice1.py:123-127 | create_mechanic without salary is refused and stores nothing |
| Scenarios.VehicleLifecycle | test_practice1.py:60-98 | create stores the given vehicle, a second one with its plate is refused, updating the make changes only the make, and deleting leaves no vehicle |
| Scenarios.ReferencedRowsStay | practice1.py:93-96 | an owner of a vehicle and a ticket with an assigned mechanic cannot be deleted, and a second link of the same pair is refused |
| Scenarios.MissingRows | practice1.py:134-168 | update of a missing id with keywords and delete of a missing id give NotFound; an update without keywords succeeds; nothing changes |

## Left out

- The interactive menu in `main()`: it is input, output and text parsing.
  `Scenarios.BlankUpdateRefused` shows what its blank-to-None answers, passed
  to the update functions, lead to.
- Engine and session construction. Each operation is one atomic step.
- After a failed commit the source never rolls back, so SQLAlchemy refuses
  every later use of that session until it does. The model treats each
  refusal as leaving the session as it was, ready for the next call.
- The relationship attributes (`vehicles`, `owner`, `service_tickets`,
  `mechanics`, ...). They are lazy views of the foreign keys, which
  `Properties.ReferencesHold` states directly.
- `String(n)` length limits. SQLite does not enforce them.
- DECIMAL salary and cost are integers (cents). The model does no
  floating-point or decimal arithmetic.
- `ticket_date` is an integer timestamp. The clock reading at the insert is
  the parameter `now`.
- The keywords of an update are typed writes to real columns. Left out:
  keywords that name something that is not a column, and values of the
  wrong type, which SQLite's dynamic typing would store anyway. For
  `update_service_mechanic`, whose columns are all its own key parameters,
  the keywords are only attribute names.
- None as the VIN of a new vehicle, or as a key of a new link. The ORM
  refuses a NULL identity, and these parameters are plain values here.
- `Patches.LastWritten` and the `seq<Write>` patches admit two writes to the
  same column, which Python keyword arguments cannot express. The model
  gives such a patch the later write's value. No proved property depends on
  the columns being distinct.
- The upper limit of SQLite row ids (2^63 - 1). Row ids are unbounded
  integers.
- The order of the rows a read returns. SQL leaves it unspecified, and the
  read methods promise only that each row appears exactly once.
