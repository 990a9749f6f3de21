/** The records the components exchange with the back-end (the interfaces that the
    services declare), and the shapes of a server reply. Identifiers are integers
    with 0 standing for "absent": where the components test whether an id is
    present, they test its truthiness. Other fields the services mark optional, and that a form can leave
    out, are `Option`s. */
module Api {

  datatype Option<T> = None | Some(value: T) {
    /** `x || d` for a value that may be missing. */
    function GetOr(d: T): T {
      match this
      case Some(v) => v
      case None => d
    }
  }

  /** What a subscription sees: the `next` callback with the reply's `success`
      flag and `data`, or the `error` callback. A handler that tests whether `data`
      is present takes `Response<Option<…>>`. */
  datatype Response<T> = Reply(success: bool, data: T) | HttpError

  /** The outcome of one create/update call whose reply carries no data: the
      `next` callback with `success`, or the `error` callback with the message of
      the server's error body ("" when it has none). */
  datatype CallOutcome = Answered(success: bool) | Failed(message: string)

  /** `error.error?.message || fallback`: the message of a failed call, the
      server's when it sent one, otherwise the screen's own. */
  function FailureMessage(reply: CallOutcome, fallback: string): string
    requires reply.Failed?
  {
    if reply.message != "" then reply.message else fallback
  }

  /** A month/year pair a request asks the server about. */
  datatype Period = Period(month: string, year: int)

  /** The verdict of a `validateForm`: accepted, or the message it shows. */
  datatype Check = Pass | Fail(message: string)

  /** `PayrollRecord` (services/payroll.service.ts). The derived money fields
      other than `netSalary` are never read by the components and are left out. */
  datatype PayrollRecord = PayrollRecord(
    id: int,
    employeeID: int,
    month: string,
    year: int,
    deliveries: int,
    netSalary: Option<real>)

  /** The linked user object of an employee, of which only `is_admin` is read. */
  datatype LinkedUser = LinkedUser(isAdmin: Option<bool>)

  /** `Employee` (services/employee.service.ts); also the shape of the employee form. */
  datatype Employee = Employee(
    id: int,
    employeeNumber: string,
    nameEmployee: string,
    roleID: int,
    user: Option<LinkedUser>,
    password: Option<string>,
    isAdmin: bool)

  /** `Role` (services/role.service.ts); also the shape of the role form. */
  datatype Role = Role(
    id: int,
    nameRole: string,
    salaryBase: real,
    bonusRole: Option<real>,
    bonusHours: Option<real>,
    bonusDeliveries: Option<real>,
    isAdmin: bool)

  /** `User` (services/user.service.ts); also the shape of the user form. */
  datatype User = User(
    id: int,
    employeeNumber: string,
    password: Option<string>,
    attempts: Option<int>,
    isBlock: Option<bool>,
    changePass: bool,
    isAdmin: bool)

  /** `DashboardStats` as the comparative dashboard stores it. */
  datatype PeriodStats = PeriodStats(
    totalPayroll: real,
    totalDeliveries: int,
    totalBonuses: real,
    totalDeductions: real)

  /** `DashboardStats` as the main dashboard reads it: any field may be missing. */
  datatype RawStats = RawStats(
    totalPayroll: Option<real>,
    totalDeliveries: Option<int>,
    totalBonuses: Option<real>,
    totalDeductions: Option<real>)

  /** `EmployeeDetail` (services/dashboard.service.ts). */
  datatype EmployeeDetail = EmployeeDetail(
    employeeNumber: string,
    name: string,
    hoursWorked: real,
    deliveryPayment: real,
    deductions: real,
    foodVouchers: real,
    totalNet: real)

  /** `ExpenseDistribution` (services/dashboard.service.ts). */
  datatype ExpenseDistribution = ExpenseDistribution(netSalary: real, deductions: real)
}
