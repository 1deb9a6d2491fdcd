/** The records the core passes around: employees (a user or an
    administrator), timesheets and their rows. The Java classes `Employee`,
    `Timesheet` and `TimesheetRow` come from a library whose classes are
    plain holders of these fields; here they are values, and the
    store-assigned timesheet id is an explicit field. */
module Entities {
  import opened Base
  import HourCodec

  /** An administrator is an instance of the Java class `Admin`; any other
      employee is an ordinary user. */
  datatype Role = User | Admin

  datatype Employee = Employee(name: string, empNumber: int, userName: string, role: Role)

  /** `e instanceof Admin`. */
  predicate IsAdmin(e: Employee)
  {
    e.role == Admin
  }

  /** One line of a timesheet: a project, a work package, seven day values
      (Saturday..Friday, in hours) and free-text notes. Every reference
      field may be null. */
  datatype Row = Row(projectId: int, workPackageId: Option<string>, hours: Option<seq<real>>, notes: Option<string>)

  /** A timesheet: its store id once it has one, its owner, the Friday it
      ends on, the overtime and flextime figures, and its rows in order. */
  datatype Timesheet = Timesheet(
    id: Option<int>,
    employee: Option<Employee>,
    endDate: Option<int>,
    overtime: int,
    flextime: int,
    details: seq<Row>)

  /** A week of zero hours. */
  function ZeroWeek(): (w: seq<real>)
    ensures |w| == HourCodec.DAYS
  {
    seq(HourCodec.DAYS, _ => 0.0)
  }

  /** `new TimesheetRow()`. The library class is not part of this model: a
      fresh row is taken to have project 0, no work package, a week of zero
      hours and no notes. */
  function NewRow(): Row
  {
    Row(0, None, Some(ZeroWeek()), None)
  }
}
