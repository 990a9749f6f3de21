/** The main dashboard: the year selector, the four totals of the selected period,
    the expense split and the hours progress bar of the employee table. */
module Dashboard {
  import opened Api
  import Years

  /** 8 hours a day, 6 days a week, 4 weeks. */
  const MaxHours: real := 192.0

  /** `getProgressPercentage(hoursWorked)`: the hours as a share of a full month. */
  function ProgressPercentage(hoursWorked: real): (r: real)
    ensures r * MaxHours == hoursWorked * 100.0
  {
    (hoursWorked / MaxHours) * 100.0
  }

  lemma ProgressExamples()
    ensures ProgressPercentage(0.0) == 0.0
    ensures ProgressPercentage(96.0) == 50.0
    ensures ProgressPercentage(MaxHours) == 100.0
  {
  }

  /** More hours never show less progress, and a month within the full month stays
      within 0 and 100. */
  lemma ProgressMonotone(h1: real, h2: real)
    requires h1 <= h2
    ensures ProgressPercentage(h1) <= ProgressPercentage(h2)
  {
    var p1, p2 := ProgressPercentage(h1), ProgressPercentage(h2);
    assert (p2 - p1) * MaxHours == (h2 - h1) * 100.0;
  }

  lemma ProgressBounds(h: real)
    requires 0.0 <= h <= MaxHours
    ensures 0.0 <= ProgressPercentage(h) <= 100.0
  {
    ProgressMonotone(0.0, h);
    ProgressMonotone(h, MaxHours);
    ProgressExamples();
  }

  /** The two percentages `prepareExpenseChart` writes into the chart labels. */
  datatype ExpenseShares = ExpenseShares(netPercentage: real, deductionsPercentage: real)

  /** The guarded split: each amount's share of their total, or 0 and 0 when the
      total is not positive. */
  function Shares(data: ExpenseDistribution): (r: ExpenseShares)
    ensures var total := data.netSalary + data.deductions;
      total > 0.0 ==>
        && r.netPercentage * total == data.netSalary * 100.0
        && r.deductionsPercentage * total == data.deductions * 100.0
    ensures data.netSalary + data.deductions <= 0.0 ==> r == ExpenseShares(0.0, 0.0)
  {
    var total := data.netSalary + data.deductions;
    if total > 0.0 then
      ExpenseShares((data.netSalary / total) * 100.0, (data.deductions / total) * 100.0)
    else
      ExpenseShares(0.0, 0.0)
  }

  /** When there is something to split, the two shares add up to 100, and with no
      negative amount each lies within 0 and 100. */
  lemma SharesComplete(data: ExpenseDistribution)
    requires data.netSalary + data.deductions > 0.0
    ensures Shares(data).netPercentage + Shares(data).deductionsPercentage == 100.0
    ensures data.netSalary >= 0.0 && data.deductions >= 0.0 ==>
      0.0 <= Shares(data).netPercentage <= 100.0 && 0.0 <= Shares(data).deductionsPercentage <= 100.0
  {
    var total := data.netSalary + data.deductions;
    var n, d := Shares(data).netPercentage, Shares(data).deductionsPercentage;
    assert (n + d) * total == n * total + d * total;
    CancelPositive(n + d, 100.0, total);
    if data.netSalary >= 0.0 && data.deductions >= 0.0 {
      NonNegativeFactor(n, total);
      NonNegativeFactor(d, total);
    }
  }

  /** A positive factor cancels. */
  lemma CancelPositive(x: real, y: real, t: real)
    requires t > 0.0 && x * t == y * t
    ensures x == y
  {
    assert (x - y) * t == 0.0;
  }

  /** A product with a positive factor is signed like the other factor. */
  lemma NonNegativeFactor(x: real, t: real)
    requires t > 0.0 && x * t >= 0.0
    ensures x >= 0.0
  {
  }

  /** `loadStats`' reading of a reply: each missing total counts as 0. */
  function StatsOf(data: RawStats): (r: PeriodStats)
    ensures r.totalPayroll == (if data.totalPayroll.Some? then data.totalPayroll.value else 0.0)
    ensures r.totalDeliveries == (if data.totalDeliveries.Some? then data.totalDeliveries.value else 0)
    ensures r.totalBonuses == (if data.totalBonuses.Some? then data.totalBonuses.value else 0.0)
    ensures r.totalDeductions == (if data.totalDeductions.Some? then data.totalDeductions.value else 0.0)
  {
    PeriodStats(
      data.totalPayroll.GetOr(0.0), data.totalDeliveries.GetOr(0),
      data.totalBonuses.GetOr(0.0), data.totalDeductions.GetOr(0.0))
  }

  /** A reply with no totals at all shows four zeros. */
  lemma EmptyStatsAreZero()
    ensures StatsOf(RawStats(None, None, None, None)) == PeriodStats(0.0, 0, 0.0, 0.0)
  {
  }

  class DashboardComponent {
    var totalPayroll: real
    var totalDeliveries: int
    var totalBonuses: real
    var totalDeductions: real
    var employeeDetails: seq<EmployeeDetail>
    var years: seq<int>
    var nextYear: int
    var selectedMonth: string
    var selectedYear: int
    var loading: bool

    /** The field initialisers; `ngOnInit` starts on the whole year (month ""). */
    constructor(currentYear: int)
      ensures totalPayroll == 0.0 && totalDeliveries == 0 && totalBonuses == 0.0 && totalDeductions == 0.0
      ensures employeeDetails == [] && years == []
      ensures nextYear == currentYear + 1 && selectedYear == currentYear && selectedMonth == ""
      ensures !loading
    {
      totalPayroll, totalDeliveries, totalBonuses, totalDeductions := 0.0, 0, 0.0, 0.0;
      employeeDetails, years := [], [];
      nextYear, selectedYear, selectedMonth := currentYear + 1, currentYear, "";
      loading := false;
    }

    /** The four totals shown, as one value. */
    function Totals(): PeriodStats
      reads this
    {
      PeriodStats(totalPayroll, totalDeliveries, totalBonuses, totalDeductions)
    }

    /** `loadDashboardData`: the period all four requests ask about. */
    method LoadDashboardData() returns (period: Period)
      modifies this`loading
      ensures loading && period == Period(selectedMonth, selectedYear)
    {
      loading := true;
      period := Period(selectedMonth, selectedYear);
    }

    /** `loadAvailableYears` (with the clock's year `currentYear`), then
        `loadDashboardData` on the resulting selection. */
    method LoadAvailableYears(response: Response<seq<int>>, currentYear: int) returns (period: Period)
      modifies this`years, this`selectedYear, this`loading
      ensures (years, selectedYear) == Years.LoadedYears(response, currentYear, old(selectedYear))
      ensures currentYear in years && loading
      ensures period == Period(selectedMonth, selectedYear)
    {
      var loaded := Years.LoadedYears(response, currentYear, selectedYear);
      years := loaded.0;
      selectedYear := loaded.1;
      period := LoadDashboardData();
    }

    /** `loadStats`: a successful reply replaces the four totals, 0 for each missing one. */
    method LoadStats(response: Response<RawStats>)
      modifies this`totalPayroll, this`totalDeliveries, this`totalBonuses, this`totalDeductions
      ensures Totals() == (if response.Reply? && response.success then StatsOf(response.data) else old(Totals()))
    {
      if response.Reply? && response.success {
        totalPayroll := response.data.totalPayroll.GetOr(0.0);
        totalDeliveries := response.data.totalDeliveries.GetOr(0);
        totalBonuses := response.data.totalBonuses.GetOr(0.0);
        totalDeductions := response.data.totalDeductions.GetOr(0.0);
      }
    }

    /** `loadExpenseDistribution`: the shares drawn for a successful reply; the
        loading indicator stops whatever the reply. */
    method LoadExpenseDistribution(response: Response<ExpenseDistribution>) returns (drawn: Option<ExpenseShares>)
      modifies this`loading
      ensures !loading
      ensures drawn == (if response.Reply? && response.success then Some(Shares(response.data)) else None)
    {
      drawn := None;
      if response.Reply? && response.success {
        drawn := Some(Shares(response.data));
      }
      loading := false;
    }

    method LoadEmployeeDetails(response: Response<seq<EmployeeDetail>>)
      modifies this`employeeDetails
      ensures employeeDetails == (if response.Reply? && response.success then response.data else old(employeeDetails))
    {
      if response.Reply? && response.success {
        employeeDetails := response.data;
      }
    }
  }
}
