/** The payroll screen: monthly grouping of the year's records, the past-period
    rule, the bulk creation form and the single create/update form. */
module Payroll {
  import opened Api
  import Text
  import Calendar

  /** The audit name sent as `userCreation` / `userUpdate`. */
  const UserAction: string := "admin"

  /** Employees of this role (the administrators) get no payroll. */
  const AdminRoleID: int := 1

  /** One row of the bulk form. */
  datatype EmployeeDelivery = EmployeeDelivery(employee: Employee, deliveries: int, hasExistingRecord: bool)

  /** One entry of `payrollsByMonth`. */
  datatype MonthlyBucket = MonthlyBucket(month: string, payrolls: seq<PayrollRecord>, totalNet: real)

  /** The body of one create call of the bulk form. */
  datatype NewPayroll = NewPayroll(employeeID: int, month: string, year: int, deliveries: int, userCreation: string)

  /** The write call the single form issues. */
  datatype PayrollRequest =
    | NoRequest
    | UpdatePayroll(id: int, deliveries: int, userUpdate: string)
    | CreatePayroll(record: PayrollRecord, userCreation: string)

  // ---------------------------------------------------------------------------
  // Years offered by the period filter and the past-period rule

  /** The constructor's year range: two years back to one year ahead. */
  function YearsAround(currentYear: int): (r: seq<int>)
    ensures |r| == 4 && r[0] == currentYear - 2 && r[3] == currentYear + 1
    ensures forall i :: 0 < i < |r| ==> r[i] == r[i - 1] + 1
    ensures currentYear in r
  {
    var r := seq(4, k requires 0 <= k < 4 => currentYear - 2 + k);
    assert r[2] == currentYear;
    r
  }

  /** `isPastPeriod(month, year)` at the date whose year is `currentYear` and whose
      month is `Months[currentMonthIndex]`. */
  function IsPastPeriod(month: string, year: int, currentYear: int, currentMonthIndex: int): (r: bool)
    requires 0 <= currentMonthIndex < |Calendar.Months|
    ensures year < currentYear ==> r
    ensures year > currentYear ==> !r
    ensures year == currentYear && month !in Calendar.Months ==> r
    ensures year == currentYear && month in Calendar.Months ==>
      (r <==> exists i :: 0 <= i < currentMonthIndex && Calendar.Months[i] == month)
  {
    Calendar.MonthIndexOfMonth(currentMonthIndex);
    Calendar.MonthsDistinct();
    var currentMonth := Calendar.Months[currentMonthIndex];
    if year < currentYear then true
    else if year == currentYear then Calendar.MonthIndex(month) < Calendar.MonthIndex(currentMonth)
    else false
  }

  /** In the current year, the months before the current one are past, and the
      current month and the later ones are not. */
  lemma PastMonthsOfCurrentYear(currentYear: int, currentMonthIndex: int, k: int)
    requires 0 <= currentMonthIndex < |Calendar.Months| && 0 <= k < |Calendar.Months|
    ensures IsPastPeriod(Calendar.Months[k], currentYear, currentYear, currentMonthIndex) <==> k < currentMonthIndex
  {
    Calendar.MonthsDistinct();
    if IsPastPeriod(Calendar.Months[k], currentYear, currentYear, currentMonthIndex) {
      var i :| 0 <= i < currentMonthIndex && Calendar.Months[i] == Calendar.Months[k];
      assert i == k;
    }
  }

  // ---------------------------------------------------------------------------
  // Monthly grouping

  /** What a record adds to its month's total: `netSalary`, 0 when missing. */
  function NetOf(p: PayrollRecord): real {
    p.netSalary.GetOr(0.0)
  }

  /** The records of one month, in input order. */
  function RecordsOf(ps: seq<PayrollRecord>, month: string): (r: seq<PayrollRecord>)
    ensures forall p :: p in r <==> p in ps && p.month == month
  {
    if ps == [] then []
    else
      assert ps == ps[..|ps| - 1] + [ps[|ps| - 1]];
      RecordsOf(ps[..|ps| - 1], month) + (if ps[|ps| - 1].month == month then [ps[|ps| - 1]] else [])
  }

  function SumNet(ps: seq<PayrollRecord>): real {
    if ps == [] then 0.0 else SumNet(ps[..|ps| - 1]) + NetOf(ps[|ps| - 1])
  }

  /** The bucket of one month. */
  function Bucket(ps: seq<PayrollRecord>, month: string): MonthlyBucket {
    var records := RecordsOf(ps, month);
    MonthlyBucket(month, records, SumNet(records))
  }

  /** `grouped[payroll.month].payrolls.push(payroll)` and `totalNet += netSalary`, on
      the bucket of the record's month; other buckets are left as they are. */
  function BucketStepped(b: MonthlyBucket, p: PayrollRecord): MonthlyBucket {
    if p.month == b.month then b.(payrolls := b.payrolls + [p], totalNet := b.totalNet + NetOf(p)) else b
  }

  /** What `groupPayrollsByMonth(ps)` leaves in `payrollsByMonth`: twelve buckets in
      calendar order, each holding exactly the records of its month. */
  function GroupedByMonth(ps: seq<PayrollRecord>): (r: seq<MonthlyBucket>)
    ensures |r| == |Calendar.Months|
    ensures forall i :: 0 <= i < |r| ==> r[i].month == Calendar.Months[i]
    ensures forall i, p :: 0 <= i < |r| ==> (p in r[i].payrolls <==> p in ps && p.month == Calendar.Months[i])
  {
    seq(|Calendar.Months|, i requires 0 <= i < |Calendar.Months| => Bucket(ps, Calendar.Months[i]))
  }

  /** Bucketing keeps input order: the records of a longer list are those of its
      first part followed by those of the rest. */
  lemma {:induction false} RecordsOfAppend(ps: seq<PayrollRecord>, qs: seq<PayrollRecord>, month: string)
    ensures RecordsOf(ps + qs, month) == RecordsOf(ps, month) + RecordsOf(qs, month)
  {
    if qs != [] {
      var q := qs[|qs| - 1];
      var qs' := qs[..|qs| - 1];
      assert (ps + qs)[..|ps + qs| - 1] == ps + qs';
      RecordsOfAppend(ps, qs', month);
    } else {
      assert ps + qs == ps;
    }
  }

  /** With no records every month's bucket is empty. */
  lemma GroupedEmpty()
    ensures forall i :: 0 <= i < |Calendar.Months| ==>
      GroupedByMonth([])[i] == MonthlyBucket(Calendar.Months[i], [], 0.0)
  {
  }

  /** The records whose month is one of the twelve names. */
  function WithKnownMonth(ps: seq<PayrollRecord>): (r: seq<PayrollRecord>)
    ensures forall p :: p in r <==> p in ps && p.month in Calendar.Months
  {
    if ps == [] then []
    else
      assert ps == ps[..|ps| - 1] + [ps[|ps| - 1]];
      WithKnownMonth(ps[..|ps| - 1]) + (if ps[|ps| - 1].month in Calendar.Months then [ps[|ps| - 1]] else [])
  }

  function SumReals(s: seq<real>): real {
    if s == [] then 0.0 else SumReals(s[..|s| - 1]) + s[|s| - 1]
  }

  function BucketTotals(bs: seq<MonthlyBucket>): (r: seq<real>)
    ensures |r| == |bs| && forall i :: 0 <= i < |bs| ==> r[i] == bs[i].totalNet
  {
    seq(|bs|, i requires 0 <= i < |bs| => bs[i].totalNet)
  }

  lemma {:induction false} SumNetSnoc(ps: seq<PayrollRecord>, p: PayrollRecord)
    ensures SumNet(ps + [p]) == SumNet(ps) + NetOf(p)
  {
    assert (ps + [p])[..|ps|] == ps;
  }

  lemma {:induction false} SumRealsZero(s: seq<real>)
    requires forall i :: 0 <= i < |s| ==> s[i] == 0.0
    ensures SumReals(s) == 0.0
  {
    if s != [] {
      SumRealsZero(s[..|s| - 1]);
    }
  }

  /** Adding `v` to the entry named `m` adds `v` to the sum of the first `k`
      entries when `m` is among the first `k` of the distinct `names`. */
  lemma {:induction false} SumShift(a: seq<real>, b: seq<real>, names: seq<string>, m: string, v: real, k: nat)
    requires |a| == |b| == |names| && k <= |names|
    requires forall i, j :: 0 <= i < j < |names| ==> names[i] != names[j]
    requires forall i :: 0 <= i < |names| ==> a[i] == b[i] + (if names[i] == m then v else 0.0)
    ensures SumReals(a[..k]) == SumReals(b[..k]) + (if m in names[..k] then v else 0.0)
  {
    if k > 0 {
      SumShift(a, b, names, m, v, k - 1);
      assert a[..k][..k - 1] == a[..k - 1];
      assert b[..k][..k - 1] == b[..k - 1];
      assert names[..k] == names[..k - 1] + [names[k - 1]];
      if names[k - 1] == m {
        assert m !in names[..k - 1];
      }
    }
  }

  lemma {:induction false} RecordsOfSnoc(q: seq<PayrollRecord>, p: PayrollRecord, m: string)
    ensures RecordsOf(q + [p], m) == RecordsOf(q, m) + (if p.month == m then [p] else [])
  {
    assert (q + [p])[..|q|] == q;
  }

  /** One more record adds its net salary to its own month's bucket only. */
  lemma {:induction false} BucketStep(q: seq<PayrollRecord>, p: PayrollRecord, m: string)
    ensures Bucket(q + [p], m) == BucketStepped(Bucket(q, m), p)
  {
    var r := RecordsOf(q, m);
    RecordsOfSnoc(q, p, m);
    if p.month == m {
      assert RecordsOf(q + [p], m) == r + [p];
      SumNetSnoc(r, p);
    } else {
      assert r + [] == r;
      assert RecordsOf(q + [p], m) == r;
    }
  }

  lemma {:induction false} WithKnownMonthSnoc(q: seq<PayrollRecord>, p: PayrollRecord)
    ensures WithKnownMonth(q + [p]) == WithKnownMonth(q) + (if p.month in Calendar.Months then [p] else [])
  {
    assert (q + [p])[..|q|] == q;
  }

  lemma {:induction false} KnownStep(q: seq<PayrollRecord>, p: PayrollRecord)
    ensures SumNet(WithKnownMonth(q + [p])) == SumNet(WithKnownMonth(q)) + (if p.month in Calendar.Months then NetOf(p) else 0.0)
  {
    WithKnownMonthSnoc(q, p);
    if p.month in Calendar.Months {
      SumNetSnoc(WithKnownMonth(q), p);
    } else {
      assert WithKnownMonth(q) + [] == WithKnownMonth(q);
    }
  }

  lemma SumAllShift(a: seq<real>, b: seq<real>, m: string, v: real)
    requires |a| == |b| == |Calendar.Months|
    requires forall i :: 0 <= i < |Calendar.Months| ==> a[i] == b[i] + (if Calendar.Months[i] == m then v else 0.0)
    ensures SumReals(a) == SumReals(b) + (if m in Calendar.Months then v else 0.0)
  {
    Calendar.MonthsDistinct();
    SumShift(a, b, Calendar.Months, m, v, |Calendar.Months|);
    assert a[..|Calendar.Months|] == a && b[..|Calendar.Months|] == b;
    assert Calendar.Months[..|Calendar.Months|] == Calendar.Months;
  }

  /** The month totals add up to the net salary of every record with a valid
      month; records with another month are dropped. */
  lemma {:induction false} GroupedTotal(ps: seq<PayrollRecord>)
    ensures SumReals(BucketTotals(GroupedByMonth(ps))) == SumNet(WithKnownMonth(ps))
  {
    if ps == [] {
      SumRealsZero(BucketTotals(GroupedByMonth(ps)));
    } else {
      var q := ps[..|ps| - 1];
      var p := ps[|ps| - 1];
      assert ps == q + [p];
      GroupedTotal(q);
      TotalsStep(q, p);
      SumAllShift(BucketTotals(GroupedByMonth(ps)), BucketTotals(GroupedByMonth(q)), p.month, NetOf(p));
      KnownStep(q, p);
    }
  }

  /** One more record adds its net salary to the total of its own month only. */
  lemma TotalsStep(q: seq<PayrollRecord>, p: PayrollRecord)
    ensures var a, b := BucketTotals(GroupedByMonth(q + [p])), BucketTotals(GroupedByMonth(q));
      forall i :: 0 <= i < |Calendar.Months| ==> a[i] == b[i] + (if Calendar.Months[i] == p.month then NetOf(p) else 0.0)
  {
    var a, b := BucketTotals(GroupedByMonth(q + [p])), BucketTotals(GroupedByMonth(q));
    forall i | 0 <= i < |Calendar.Months|
      ensures a[i] == b[i] + (if Calendar.Months[i] == p.month then NetOf(p) else 0.0)
    {
      BucketStep(q, p, Calendar.Months[i]);
      assert a[i] == GroupedByMonth(q + [p])[i].totalNet == Bucket(q + [p], Calendar.Months[i]).totalNet;
      assert b[i] == GroupedByMonth(q)[i].totalNet == Bucket(q, Calendar.Months[i]).totalNet;
    }
  }

  // ---------------------------------------------------------------------------
  // The employee list, the bulk form and the message tally

  /** `loadEmployees`' filter: every employee except the administrators, in order. */
  function WithoutAdmins(es: seq<Employee>): (r: seq<Employee>)
    ensures |r| <= |es|
    ensures forall e :: e in r <==> e in es && e.roleID != AdminRoleID
  {
    if es == [] then []
    else
      assert es == es[..|es| - 1] + [es[|es| - 1]];
      WithoutAdmins(es[..|es| - 1]) + (if es[|es| - 1].roleID != AdminRoleID then [es[|es| - 1]] else [])
  }

  /** Dropping the administrators keeps the order of the rest. */
  lemma {:induction false} WithoutAdminsAppend(a: seq<Employee>, b: seq<Employee>)
    ensures WithoutAdmins(a + b) == WithoutAdmins(a) + WithoutAdmins(b)
  {
    if b != [] {
      var b' := b[..|b| - 1];
      assert (a + b)[..|a + b| - 1] == a + b';
      WithoutAdminsAppend(a, b');
    } else {
      assert a + b == a;
    }
  }

  /** One employee is kept exactly when it is not an administrator. */
  lemma WithoutAdminsSingle(e: Employee)
    ensures WithoutAdmins([e]) == if e.roleID != AdminRoleID then [e] else []
  {
    assert [e][..0] == [];
  }

  /** `records.find(record => record.employeeID === employeeID)`. */
  function FindRecord(records: seq<PayrollRecord>, employeeID: int): (r: Option<PayrollRecord>)
    ensures r.None? <==> forall p :: p in records ==> p.employeeID != employeeID
    ensures r.Some? ==> r.value in records && r.value.employeeID == employeeID
  {
    if records == [] then None
    else if records[0].employeeID == employeeID then Some(records[0])
    else
      assert forall p :: p in records ==> p == records[0] || p in records[1..];
      FindRecord(records[1..], employeeID)
  }

  /** The record found is the first of the employee's. */
  lemma {:induction false} FindRecordIsFirst(records: seq<PayrollRecord>, employeeID: int, i: int)
    requires 0 <= i < |records| && records[i].employeeID == employeeID
    requires forall j :: 0 <= j < i ==> records[j].employeeID != employeeID
    ensures FindRecord(records, employeeID) == Some(records[i])
  {
    if i > 0 {
      FindRecordIsFirst(records[1..], employeeID, i - 1);
      assert forall j :: 0 <= j < i - 1 ==> records[1..][j] == records[j + 1];
    }
  }

  /** The rows of the bulk form built by `openCreateForm`: one per employee, in order,
      with no deliveries yet, flagged when the period already has a record of it. */
  function PrepareDeliveries(employees: seq<Employee>, existing: seq<PayrollRecord>): (r: seq<EmployeeDelivery>)
    ensures |r| == |employees|
    ensures forall i :: 0 <= i < |r| ==> r[i].employee == employees[i] && r[i].deliveries == 0
    ensures forall i :: 0 <= i < |r| ==>
      (r[i].hasExistingRecord <==> exists p :: p in existing && p.employeeID == employees[i].id)
  {
    seq(|employees|, i requires 0 <= i < |employees| =>
      EmployeeDelivery(employees[i], 0, FindRecord(existing, employees[i].id).Some?))
  }

  /** `saveBulkPayroll`'s filter: the rows with deliveries and no record yet, in order. */
  function EligibleEntries(eds: seq<EmployeeDelivery>): (r: seq<EmployeeDelivery>)
    ensures |r| <= |eds|
    ensures forall e :: e in r <==> e in eds && e.deliveries > 0 && !e.hasExistingRecord
  {
    if eds == [] then []
    else
      var last := eds[|eds| - 1];
      assert eds == eds[..|eds| - 1] + [last];
      EligibleEntries(eds[..|eds| - 1]) + (if last.deliveries > 0 && !last.hasExistingRecord then [last] else [])
  }

  /** Filtering keeps the order of the rows. */
  lemma {:induction false} EligibleAppend(a: seq<EmployeeDelivery>, b: seq<EmployeeDelivery>)
    ensures EligibleEntries(a + b) == EligibleEntries(a) + EligibleEntries(b)
  {
    if b != [] {
      var b' := b[..|b| - 1];
      assert (a + b)[..|a + b| - 1] == a + b';
      EligibleAppend(a, b');
    } else {
      assert a + b == a;
    }
  }

  /** A freshly prepared form submits nothing until deliveries are typed in. */
  lemma PreparedFormHasNothingToCreate(employees: seq<Employee>, existing: seq<PayrollRecord>)
    ensures EligibleEntries(PrepareDeliveries(employees, existing)) == []
  {
    NoDeliveriesNothingEligible(PrepareDeliveries(employees, existing));
  }

  lemma {:induction false} NoDeliveriesNothingEligible(eds: seq<EmployeeDelivery>)
    requires forall i :: 0 <= i < |eds| ==> eds[i].deliveries == 0
    ensures EligibleEntries(eds) == []
  {
    if eds != [] {
      NoDeliveriesNothingEligible(eds[..|eds| - 1]);
    }
  }

  /** Three employees: the first already has a record of the period, the second has
      no deliveries typed in, the third has five. Only the third is submitted. */
  lemma BulkExample(a: Employee, b: Employee, c: Employee, existing: PayrollRecord)
    requires existing.employeeID == a.id && b.id != a.id && c.id != a.id
    ensures var prepared := PrepareDeliveries([a, b, c], [existing]);
      var typed := [prepared[0].(deliveries := 4), prepared[1], prepared[2].(deliveries := 5)];
      EligibleEntries(typed) == [EmployeeDelivery(c, 5, false)]
  {
    var prepared := PrepareDeliveries([a, b, c], [existing]);
    var typed := [prepared[0].(deliveries := 4), prepared[1], prepared[2].(deliveries := 5)];
    assert typed == [typed[0], typed[1]] + [typed[2]];
    assert [typed[0], typed[1]] == [typed[0]] + [typed[1]];
    EligibleAppend([typed[0], typed[1]], [typed[2]]);
    EligibleAppend([typed[0]], [typed[1]]);
    assert EligibleEntries([typed[0]]) == [];
    assert EligibleEntries([typed[1]]) == [];
  }

  /** The create calls of the bulk form, one per eligible row. */
  function BulkRequests(entries: seq<EmployeeDelivery>, month: string, year: int): seq<NewPayroll> {
    seq(|entries|, i requires 0 <= i < |entries| =>
      NewPayroll(entries[i].employee.id, month, year, entries[i].deliveries, UserAction))
  }

  /** Calls whose reply said `success: true`. */
  function CountCreated(os: seq<CallOutcome>): nat {
    if os == [] then 0 else CountCreated(os[..|os| - 1]) + (if os[|os| - 1] == Answered(true) then 1 else 0)
  }

  /** Calls that ended in the error callback. */
  function CountErrors(os: seq<CallOutcome>): nat {
    if os == [] then 0 else CountErrors(os[..|os| - 1]) + (if os[|os| - 1].Failed? then 1 else 0)
  }

  /** Calls whose reply said `success: false`: counted by neither tally. */
  function CountRejected(os: seq<CallOutcome>): nat {
    if os == [] then 0 else CountRejected(os[..|os| - 1]) + (if os[|os| - 1] == Answered(false) then 1 else 0)
  }

  /** Every call is created, rejected or failed, so the two counts shown never
      exceed the number of calls. */
  lemma {:induction false} TallyAccounts(os: seq<CallOutcome>)
    ensures CountCreated(os) + CountErrors(os) + CountRejected(os) == |os|
    ensures CountCreated(os) + CountErrors(os) <= |os|
  {
    if os != [] {
      TallyAccounts(os[..|os| - 1]);
    }
  }

  /** The loop of `saveBulkPayroll` counting the settled calls. */
  method TallyOutcomes(outcomes: seq<CallOutcome>) returns (createdCount: nat, errorCount: nat)
    ensures createdCount == CountCreated(outcomes)
    ensures errorCount == CountErrors(outcomes)
  {
    createdCount, errorCount := 0, 0;
    var i := 0;
    while i < |outcomes|
      invariant 0 <= i <= |outcomes|
      invariant createdCount == CountCreated(outcomes[..i])
      invariant errorCount == CountErrors(outcomes[..i])
    {
      match outcomes[i] {
        case Answered(ok) =>
          if ok {
            createdCount := createdCount + 1;
          }
        case Failed(_) =>
          errorCount := errorCount + 1;
      }
      assert outcomes[..i + 1][..i] == outcomes[..i];
      i := i + 1;
    }
    assert outcomes[..|outcomes|] == outcomes;
  }

  const NothingToCreate: string := "No hay registros para crear. Ingrese al menos una cantidad de entregas."

  /** The success text of the bulk form; the variant without "exitosamente" is the
      one written when the last call failed. */
  function CreatedMessage(count: nat, lastFailed: bool): string {
    "Se crearon " + Text.NatToString(count)
      + (if lastFailed then " registro(s) de nómina" else " registro(s) de nómina exitosamente")
  }

  function ErrorsMessage(count: nat): string {
    "Hubo " + Text.NatToString(count) + " error(es) al crear algunas nóminas"
  }

  // ---------------------------------------------------------------------------
  // The single form

  const NoEmployee: string := "Debe seleccionar un empleado"
  const NoMonth: string := "Debe seleccionar un mes"
  const NoYear: string := "Debe seleccionar un año"
  const NegativeDeliveries: string := "La cantidad de entregas no puede ser negativa"

  /** `validateForm`: the first failing check decides the message. */
  function ValidatePayrollForm(form: PayrollRecord): (r: Check)
    ensures r == Pass <==> form.employeeID != 0 && !Text.IsBlank(form.month) && form.year != 0 && form.deliveries >= 0
    ensures form.employeeID == 0 ==> r == Fail(NoEmployee)
    ensures form.employeeID != 0 && Text.IsBlank(form.month) ==> r == Fail(NoMonth)
    ensures form.employeeID != 0 && !Text.IsBlank(form.month) && form.year == 0 ==> r == Fail(NoYear)
    ensures form.employeeID != 0 && !Text.IsBlank(form.month) && form.year != 0 && form.deliveries < 0 ==>
      r == Fail(NegativeDeliveries)
  {
    if form.employeeID == 0 then Fail(NoEmployee)
    else if Text.IsBlank(form.month) then Fail(NoMonth)
    else if form.year == 0 then Fail(NoYear)
    else if form.deliveries < 0 then Fail(NegativeDeliveries)
    else Pass
  }

  /** A record with no deliveries is accepted. */
  lemma ZeroDeliveriesAccepted(form: PayrollRecord)
    requires form.employeeID != 0 && !Text.IsBlank(form.month) && form.year != 0
    ensures ValidatePayrollForm(form.(deliveries := 0)) == Pass
  {
  }

  /** The single form updates when it edits a stored record; otherwise it creates. */
  predicate Updates(form: PayrollRecord, isEditing: bool) {
    isEditing && form.id != 0
  }

  /** The write call `saveSinglePayroll` ends in, given the reply to the duplicate
      check: an update for an edited record, a create only when the period has no
      record of the employee, nothing otherwise. */
  function SingleSaveRequest(form: PayrollRecord, isEditing: bool, check: Response<seq<PayrollRecord>>): (r: PayrollRequest)
    ensures ValidatePayrollForm(form).Fail? ==> r == NoRequest
    ensures r.UpdatePayroll? <==> ValidatePayrollForm(form) == Pass && Updates(form, isEditing)
    ensures r.UpdatePayroll? ==> r == UpdatePayroll(form.id, form.deliveries, UserAction)
    ensures r.CreatePayroll? <==>
      && ValidatePayrollForm(form) == Pass && !Updates(form, isEditing)
      && check.Reply? && check.success
      && forall p :: p in check.data ==> p.employeeID != form.employeeID
    ensures r.CreatePayroll? ==> r == CreatePayroll(form, UserAction)
  {
    if ValidatePayrollForm(form).Fail? then NoRequest
    else if Updates(form, isEditing) then UpdatePayroll(form.id, form.deliveries, UserAction)
    else if check.Reply? && check.success && FindRecord(check.data, form.employeeID).None? then
      CreatePayroll(form, UserAction)
    else NoRequest
  }

  function DuplicateMessage(month: string, year: int): string {
    "Ya existe un registro de nómina para este empleado en " + month + " " + Text.IntToString(year)
  }

  const CheckFailed: string := "Error al verificar registros existentes"
  const Updated: string := "Nómina actualizada exitosamente"
  const Created: string := "Nómina creada exitosamente"
  const UpdateFailed: string := "Error al actualizar la nómina"
  const CreateFailed: string := "Error al crear la nómina"
  const LoadFailed: string := "Error al cargar las nóminas"
  const PrepareFailed: string := "Error al cargar información"

  function EmptyForm(year: int): PayrollRecord {
    PayrollRecord(0, 0, "", year, 0, None)
  }

  // ---------------------------------------------------------------------------
  // The component

  class PayrollComponent {
    const currentYear: int
    var employees: seq<Employee>
    var employeeDeliveries: seq<EmployeeDelivery>
    var payrolls: seq<PayrollRecord>
    var payrollsByMonth: seq<MonthlyBucket>
    var years: seq<int>
    var selectedMonth: string
    var selectedYear: int
    var formMonth: string
    var formYear: int
    var payrollForm: PayrollRecord
    var loading: bool
    var showForm: bool
    var isEditing: bool
    var isBulkMode: bool
    var successMessage: string
    var errorMessage: string

    /** The state `closeForm` leaves. */
    predicate FormClosed()
      reads this
    {
      !showForm && !isBulkMode && employeeDeliveries == [] && payrollForm == EmptyForm(currentYear)
    }

    /** The form state a call left alone. */
    twostate predicate FormKept()
      reads this
    {
      && showForm == old(showForm) && isBulkMode == old(isBulkMode)
      && employeeDeliveries == old(employeeDeliveries) && payrollForm == old(payrollForm)
    }

    /** The field initialisers and the constructor's loop over the year range. */
    constructor(currentYear: int)
      ensures this.currentYear == currentYear
      ensures years == YearsAround(currentYear)
      ensures selectedYear == currentYear && formYear == currentYear
      ensures selectedMonth == "" && formMonth == ""
      ensures payrollForm == EmptyForm(currentYear)
      ensures employees == [] && employeeDeliveries == [] && payrolls == [] && payrollsByMonth == []
      ensures !loading && !showForm && !isEditing && !isBulkMode
      ensures successMessage == "" && errorMessage == ""
    {
      this.currentYear := currentYear;
      employees, employeeDeliveries, payrolls, payrollsByMonth := [], [], [], [];
      selectedMonth, selectedYear := "", currentYear;
      formMonth, formYear := "", currentYear;
      payrollForm := EmptyForm(currentYear);
      loading, showForm, isEditing, isBulkMode := false, false, false, false;
      successMessage, errorMessage := "", "";
      var ys: seq<int> := [];
      var year := currentYear - 2;
      while year <= currentYear + 1
        invariant currentYear - 2 <= year <= currentYear + 2
        invariant |ys| == year - (currentYear - 2)
        invariant forall k :: 0 <= k < |ys| ==> ys[k] == currentYear - 2 + k
      {
        ys := ys + [year];
        year := year + 1;
      }
      years := ys;
    }

    /** `ngOnInit`'s choice of the current month for the period filter. */
    method SelectCurrentMonth(currentMonthIndex: int)
      requires 0 <= currentMonthIndex < |Calendar.Months|
      modifies this`selectedMonth
      ensures selectedMonth == Calendar.Months[currentMonthIndex]
      ensures Calendar.MonthIndex(selectedMonth) == currentMonthIndex
    {
      selectedMonth := Calendar.Months[currentMonthIndex];
      Calendar.MonthIndexOfMonth(currentMonthIndex);
    }

    method ShowSuccess(message: string)
      modifies this`successMessage, this`errorMessage
      ensures successMessage == message && errorMessage == ""
    {
      successMessage := message;
      errorMessage := "";
    }

    method ShowError(message: string)
      modifies this`successMessage, this`errorMessage
      ensures errorMessage == message && successMessage == ""
    {
      errorMessage := message;
      successMessage := "";
    }

    method ClearMessages()
      modifies this`successMessage, this`errorMessage
      ensures successMessage == "" && errorMessage == ""
    {
      successMessage := "";
      errorMessage := "";
    }

    /** `loadEmployees`: a successful reply that carries a list replaces the list,
        administrators removed; a reply without data keeps the old one. */
    method LoadEmployees(response: Response<Option<seq<Employee>>>)
      modifies this`employees
      ensures response.Reply? && response.success && response.data.Some? ==>
        employees == WithoutAdmins(response.data.value)
      ensures !(response.Reply? && response.success && response.data.Some?) ==> employees == old(employees)
      ensures forall e :: e in employees ==> e.roleID != AdminRoleID || e in old(employees)
    {
      if response.Reply? && response.success && response.data.Some? {
        employees := WithoutAdmins(response.data.value);
      }
    }

    /** `loadPayrolls`: the records of the selected period. */
    method LoadPayrolls(response: Response<seq<PayrollRecord>>) returns (query: Period)
      modifies this`payrolls, this`loading, this`successMessage, this`errorMessage
      ensures query == Period(selectedMonth, selectedYear)
      ensures !loading
      ensures response.Reply? && response.success ==> payrolls == response.data
      ensures !(response.Reply? && response.success) ==> payrolls == old(payrolls)
      ensures response.HttpError? ==> errorMessage == LoadFailed && successMessage == ""
      ensures response.Reply? ==> successMessage == old(successMessage) && errorMessage == old(errorMessage)
    {
      loading := true;
      query := Period(selectedMonth, selectedYear);
      match response {
        case Reply(ok, data) =>
          if ok {
            payrolls := data;
          }
        case HttpError =>
          ShowError(LoadFailed);
      }
      loading := false;
    }

    /** `groupPayrollsByMonth`: fills a dictionary keyed by month name, then lists it
        in calendar order. */
    method GroupPayrollsByMonth(ps: seq<PayrollRecord>)
      modifies this`payrollsByMonth
      ensures payrollsByMonth == GroupedByMonth(ps)
    {
      var grouped: map<string, MonthlyBucket> := map[];
      var k := 0;
      while k < |Calendar.Months|
        invariant 0 <= k <= |Calendar.Months|
        invariant forall m :: m in grouped <==> m in Calendar.Months[..k]
        invariant forall m :: m in grouped ==> grouped[m] == MonthlyBucket(m, [], 0.0)
      {
        assert Calendar.Months[..k + 1] == Calendar.Months[..k] + [Calendar.Months[k]];
        grouped := grouped[Calendar.Months[k] := MonthlyBucket(Calendar.Months[k], [], 0.0)];
        k := k + 1;
      }
      assert Calendar.Months[..k] == Calendar.Months;
      var j := 0;
      while j < |ps|
        invariant 0 <= j <= |ps|
        invariant forall m :: m in grouped <==> m in Calendar.Months
        invariant forall m :: m in grouped ==> grouped[m] == Bucket(ps[..j], m)
      {
        var p := ps[j];
        assert ps[..j + 1] == ps[..j] + [p];
        forall m | m in grouped
          ensures BucketStepped(grouped[m], p) == Bucket(ps[..j + 1], m)
        {
          BucketStep(ps[..j], p, m);
        }
        if p.month in grouped {
          grouped := grouped[p.month := BucketStepped(grouped[p.month], p)];
        }
        j := j + 1;
      }
      assert ps[..j] == ps;
      payrollsByMonth := seq(|Calendar.Months|, i requires 0 <= i < |Calendar.Months| => grouped[Calendar.Months[i]]);
      assert forall i :: 0 <= i < |Calendar.Months| ==> payrollsByMonth[i] == GroupedByMonth(ps)[i];
    }

    /** `loadAllMonths`: the year's records grouped by month, or twelve empty buckets
        when the reply is not a success. */
    method LoadAllMonths(response: Response<seq<PayrollRecord>>) returns (year: int)
      modifies this`payrollsByMonth, this`loading
      ensures year == selectedYear
      ensures !loading
      ensures response.Reply? && response.success ==> payrollsByMonth == GroupedByMonth(response.data)
      ensures !(response.Reply? && response.success) ==> payrollsByMonth == GroupedByMonth([])
    {
      loading := true;
      GroupPayrollsByMonth([]);
      year := selectedYear;
      if response.Reply? && response.success {
        GroupPayrollsByMonth(response.data);
      } else {
        GroupPayrollsByMonth([]);
      }
      loading := false;
    }

    /** `openCreateForm`: the bulk form for the selected period, with the employees
        that already have a record of it flagged. */
    method OpenCreateForm(response: Response<seq<PayrollRecord>>) returns (query: Period)
      modifies this`isEditing, this`isBulkMode, this`formMonth, this`formYear,
        this`employeeDeliveries, this`showForm, this`successMessage, this`errorMessage
      ensures !isEditing && isBulkMode
      ensures formMonth == selectedMonth && formYear == selectedYear
      ensures query == Period(selectedMonth, selectedYear)
      ensures response.Reply? ==>
        && employeeDeliveries == PrepareDeliveries(employees, if response.success then response.data else [])
        && showForm && successMessage == "" && errorMessage == ""
      ensures response.HttpError? ==>
        && employeeDeliveries == old(employeeDeliveries) && showForm == old(showForm)
        && errorMessage == PrepareFailed && successMessage == ""
    {
      isEditing := false;
      isBulkMode := true;
      formMonth := selectedMonth;
      formYear := selectedYear;
      query := Period(formMonth, formYear);
      match response {
        case Reply(ok, data) =>
          var existing := if ok then data else [];
          employeeDeliveries := PrepareDeliveries(employees, existing);
          showForm := true;
          ClearMessages();
        case HttpError =>
          ShowError(PrepareFailed);
      }
    }

    /** `openEditForm`: the single form on a copy of the record. */
    method OpenEditForm(p: PayrollRecord)
      modifies this`isEditing, this`isBulkMode, this`payrollForm, this`showForm,
        this`successMessage, this`errorMessage
      ensures isEditing && !isBulkMode && showForm && payrollForm == p
      ensures successMessage == "" && errorMessage == ""
    {
      isEditing := true;
      isBulkMode := false;
      payrollForm := p;
      showForm := true;
      ClearMessages();
    }

    method CloseForm()
      modifies this`showForm, this`isBulkMode, this`employeeDeliveries, this`payrollForm
      ensures FormClosed()
    {
      showForm := false;
      isBulkMode := false;
      employeeDeliveries := [];
      payrollForm := EmptyForm(currentYear);
    }

    /** `saveBulkPayroll`, with `outcomes[i]` the settlement of the i-th create call,
        all settled in order before the last one is reported. */
    method SaveBulkPayroll(outcomes: seq<CallOutcome>) returns (requests: seq<NewPayroll>, reloads: bool)
      requires |outcomes| == |EligibleEntries(employeeDeliveries)|
      modifies this`loading, this`successMessage, this`errorMessage,
        this`showForm, this`isBulkMode, this`employeeDeliveries, this`payrollForm
      ensures requests == BulkRequests(EligibleEntries(old(employeeDeliveries)), formMonth, formYear)
      ensures requests == [] ==>
        && errorMessage == NothingToCreate && successMessage == ""
        && !reloads && loading == old(loading) && FormKept()
      ensures requests != [] ==> !loading
      ensures requests != [] ==> (reloads <==> CountCreated(outcomes) > 0)
      ensures requests != [] && CountCreated(outcomes) > 0 ==> FormClosed()
      ensures requests != [] && CountCreated(outcomes) == 0 ==> FormKept()
      ensures requests != [] && CountErrors(outcomes) > 0 ==>
        errorMessage == ErrorsMessage(CountErrors(outcomes)) && successMessage == ""
      ensures requests != [] && CountErrors(outcomes) == 0 && CountCreated(outcomes) > 0 ==>
        successMessage == CreatedMessage(CountCreated(outcomes), false) && errorMessage == ""
      ensures requests != [] && CountErrors(outcomes) == 0 && CountCreated(outcomes) == 0 ==>
        successMessage == old(successMessage) && errorMessage == old(errorMessage)
    {
      var toCreate := EligibleEntries(employeeDeliveries);
      requests := BulkRequests(toCreate, formMonth, formYear);
      reloads := false;
      if |toCreate| == 0 {
        ShowError(NothingToCreate);
        return;
      }
      loading := true;
      var createdCount, errorCount := TallyOutcomes(outcomes);
      var last := outcomes[|outcomes| - 1];
      loading := false;
      if last.Answered? {
        if createdCount > 0 {
          ShowSuccess(CreatedMessage(createdCount, false));
          reloads := true;
          CloseForm();
        }
        if errorCount > 0 {
          ShowError(ErrorsMessage(errorCount));
        }
      } else {
        if createdCount > 0 {
          ShowSuccess(CreatedMessage(createdCount, true));
          reloads := true;
          CloseForm();
        }
        ShowError(ErrorsMessage(errorCount));
      }
    }

    /** How the single form ends once the write call `reply` settles: `done` on
        success, the server's message or `fallback` on an error. */
    twostate predicate WriteSettled(reply: CallOutcome, done: string, fallback: string, reloads: bool)
      reads this
    {
      && !loading
      && (reloads <==> reply == Answered(true))
      && (reloads ==> successMessage == done && errorMessage == "" && FormClosed())
      && (!reloads ==> FormKept())
      && (reply.Failed? ==> errorMessage == FailureMessage(reply, fallback) && successMessage == "")
      && (reply == Answered(false) ==> successMessage == old(successMessage) && errorMessage == old(errorMessage))
    }

    /** How the create path ends, given the reply to the duplicate check: an error
        for a failed check or a duplicate, nothing at all (and still loading) for a
        check that reports `success: false`, the create call otherwise. */
    twostate predicate CheckSettled(form: PayrollRecord, check: Response<seq<PayrollRecord>>, reply: CallOutcome, reloads: bool)
      reads this
    {
      && (check.HttpError? ==>
            errorMessage == CheckFailed && successMessage == "" && !loading && !reloads && FormKept())
      && (check.Reply? && !check.success ==>
            && loading && successMessage == old(successMessage) && errorMessage == old(errorMessage)
            && !reloads && FormKept())
      && (check.Reply? && check.success && FindRecord(check.data, form.employeeID).Some? ==>
            && errorMessage == DuplicateMessage(form.month, form.year) && successMessage == ""
            && !loading && !reloads && FormKept())
      && (check.Reply? && check.success && FindRecord(check.data, form.employeeID).None? ==>
            WriteSettled(reply, Created, CreateFailed, reloads))
    }

    /** How `saveSinglePayroll` ends for `form`: the validator's message and no call
        for an invalid form, the update's settlement when editing a stored record, the
        duplicate check and the create otherwise. */
    twostate predicate SingleSettled(form: PayrollRecord, editing: bool, check: Response<seq<PayrollRecord>>,
                                     reply: CallOutcome, reloads: bool)
      reads this
    {
      && (ValidatePayrollForm(form).Fail? ==>
            && errorMessage == ValidatePayrollForm(form).message && successMessage == ""
            && loading == old(loading) && !reloads && FormKept())
      && (ValidatePayrollForm(form) == Pass && Updates(form, editing) ==>
            WriteSettled(reply, Updated, UpdateFailed, reloads))
      && (ValidatePayrollForm(form) == Pass && !Updates(form, editing) ==>
            CheckSettled(form, check, reply, reloads))
    }

    /** The reply to the write call of the single form. */
    method SettleWrite(reply: CallOutcome, done: string, fallback: string) returns (reloads: bool)
      modifies this`loading, this`successMessage, this`errorMessage,
        this`showForm, this`isBulkMode, this`employeeDeliveries, this`payrollForm
      ensures WriteSettled(reply, done, fallback, reloads)
    {
      reloads := false;
      match reply {
        case Answered(ok) =>
          if ok {
            ShowSuccess(done);
            reloads := true;
            CloseForm();
          }
        case Failed(_) =>
          ShowError(FailureMessage(reply, fallback));
      }
      loading := false;
    }

    /** The create path of `saveSinglePayroll`: the duplicate check, then
        `createNewPayroll`. */
    method CreateChecked(form: PayrollRecord, check: Response<seq<PayrollRecord>>, reply: CallOutcome) returns (reloads: bool)
      requires loading
      modifies this`loading, this`successMessage, this`errorMessage,
        this`showForm, this`isBulkMode, this`employeeDeliveries, this`payrollForm
      ensures CheckSettled(form, check, reply, reloads)
    {
      reloads := false;
      match check {
        case HttpError =>
          ShowError(CheckFailed);
          loading := false;
        case Reply(ok, data) =>
          if ok {
            if FindRecord(data, form.employeeID).Some? {
              ShowError(DuplicateMessage(form.month, form.year));
              loading := false;
            } else {
              reloads := SettleWrite(reply, Created, CreateFailed);
            }
          }
      }
    }

    /** `saveSinglePayroll`, with `check` the reply to the duplicate check (asked only
        when creating) and `reply` the settlement of the write call. */
    method SaveSinglePayroll(check: Response<seq<PayrollRecord>>, reply: CallOutcome)
      returns (lookup: Option<Period>, request: PayrollRequest, reloads: bool)
      modifies this`loading, this`successMessage, this`errorMessage,
        this`showForm, this`isBulkMode, this`employeeDeliveries, this`payrollForm
      ensures request == SingleSaveRequest(old(payrollForm), isEditing, check)
      ensures lookup == (if ValidatePayrollForm(old(payrollForm)) == Pass && !Updates(old(payrollForm), isEditing)
                         then Some(Period(old(payrollForm).month, old(payrollForm).year)) else None)
      ensures SingleSettled(old(payrollForm), isEditing, check, reply, reloads)
    {
      request := SingleSaveRequest(payrollForm, isEditing, check);
      lookup, reloads := SubmitForm(payrollForm, check, reply);
    }

    /** Shows the validator's message for an invalid form, or goes on with the
        valid one. */
    method SubmitForm(form: PayrollRecord, check: Response<seq<PayrollRecord>>, reply: CallOutcome)
      returns (lookup: Option<Period>, reloads: bool)
      modifies this`loading, this`successMessage, this`errorMessage,
        this`showForm, this`isBulkMode, this`employeeDeliveries, this`payrollForm
      ensures lookup == (if ValidatePayrollForm(form) == Pass && !Updates(form, isEditing)
                         then Some(Period(form.month, form.year)) else None)
      ensures SingleSettled(form, isEditing, check, reply, reloads)
    {
      var verdict := ValidatePayrollForm(form);
      if verdict.Fail? {
        lookup, reloads := None, false;
        ShowError(verdict.message);
      } else {
        lookup, reloads := SubmitValid(form, check, reply);
      }
    }

    /** The valid-form branch of `saveSinglePayroll`: the update call, or the
        duplicate check followed by the create call. */
    method SubmitValid(form: PayrollRecord, check: Response<seq<PayrollRecord>>, reply: CallOutcome)
      returns (lookup: Option<Period>, reloads: bool)
      modifies this`loading, this`successMessage, this`errorMessage,
        this`showForm, this`isBulkMode, this`employeeDeliveries, this`payrollForm
      ensures lookup == (if Updates(form, isEditing) then None else Some(Period(form.month, form.year)))
      ensures Updates(form, isEditing) ==> WriteSettled(reply, Updated, UpdateFailed, reloads)
      ensures !Updates(form, isEditing) ==> CheckSettled(form, check, reply, reloads)
    {
      loading := true;
      if Updates(form, isEditing) {
        lookup := None;
        reloads := SettleWrite(reply, Updated, UpdateFailed);
      } else {
        lookup := Some(Period(form.month, form.year));
        reloads := CreateChecked(form, check, reply);
      }
    }
  }
}
