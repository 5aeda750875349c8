/** The `service_mechanics` link table (practice1.py, class ServiceMechanic). */
module Assignments {

  /**
   * A link row: mechanic `mechanicId` works on ticket `serviceTicketId`. Both
   * columns are foreign keys and together the composite primary key, so the
   * table holds each pair at most once.
   */
  datatype ServiceMechanic = ServiceMechanic(serviceTicketId: int, mechanicId: int)
}
