/** The comparative dashboard: a month of the selected year against the same month
    of the year before, as four percentage changes and an employee-by-employee list. */
module Comparative {
  import opened Api
  import Calendar
  import Years

  /** `calculatePercentageDiff(oldValue, newValue)`: the change relative to the old
      value, in percent, with a zero baseline reported as 100 (growth) or 0. */
  function PercentageDiff(oldValue: real, newValue: real): (r: real)
    ensures oldValue == 0.0 && newValue > 0.0 ==> r == 100.0
    ensures oldValue == 0.0 && newValue <= 0.0 ==> r == 0.0
    ensures oldValue != 0.0 ==> r * oldValue == (newValue - oldValue) * 100.0
  {
    if oldValue == 0.0 then (if newValue > 0.0 then 100.0 else 0.0)
    else ((newValue - oldValue) / oldValue) * 100.0
  }

  /** The four documented examples. */
  lemma PercentageDiffExamples()
    ensures PercentageDiff(0.0, 50.0) == 100.0
    ensures PercentageDiff(0.0, 0.0) == 0.0
    ensures PercentageDiff(100.0, 150.0) == 50.0
    ensures PercentageDiff(100.0, 50.0) == -50.0
  {
  }

  /** Away from a zero baseline the change can be applied back: the old value grown
      by the reported percentage is the new value. */
  lemma PercentageDiffRoundTrip(oldValue: real, newValue: real)
    requires oldValue != 0.0
    ensures oldValue + oldValue * PercentageDiff(oldValue, newValue) / 100.0 == newValue
  {
    var r := PercentageDiff(oldValue, newValue);
    assert r * oldValue == (newValue - oldValue) * 100.0;
    calc {
      oldValue * r / 100.0;
      == (r * oldValue) / 100.0;
      == newValue - oldValue;
    }
  }

  /** No change reports 0, and from a positive baseline the sign of the result is
      the direction of the change. */
  lemma PercentageDiffSign(oldValue: real, newValue: real)
    requires oldValue > 0.0
    ensures PercentageDiff(oldValue, newValue) > 0.0 <==> newValue > oldValue
    ensures PercentageDiff(oldValue, newValue) == 0.0 <==> newValue == oldValue
  {
    var r := PercentageDiff(oldValue, newValue);
    assert r * oldValue == (newValue - oldValue) * 100.0;
    if r > 0.0 {
      assert r * oldValue > 0.0;
    } else if r < 0.0 {
      assert r * oldValue < 0.0;
    }
  }

  /** A zero baseline hides the size and the sign of the change: a drop to a
      negative value and no change at all both report 0. */
  lemma ZeroBaselineIsAFlag(newValue: real)
    ensures PercentageDiff(0.0, newValue) == 0.0 || PercentageDiff(0.0, newValue) == 100.0
    ensures newValue < 0.0 ==> PercentageDiff(0.0, newValue) == PercentageDiff(0.0, 0.0)
  {
  }

  /** The four percentage fields, current period against the previous one. */
  datatype StatsDiff = StatsDiff(payrollDiff: real, deliveriesDiff: real, bonusesDiff: real, deductionsDiff: real)

  /** `calculateDifferences`, field by field with the previous period as baseline. */
  function Differences(previous: PeriodStats, current: PeriodStats): (r: StatsDiff)
    ensures r.payrollDiff == PercentageDiff(previous.totalPayroll, current.totalPayroll)
    ensures r.deliveriesDiff == PercentageDiff(previous.totalDeliveries as real, current.totalDeliveries as real)
    ensures r.bonusesDiff == PercentageDiff(previous.totalBonuses, current.totalBonuses)
    ensures r.deductionsDiff == PercentageDiff(previous.totalDeductions, current.totalDeductions)
  {
    StatsDiff(
      PercentageDiff(previous.totalPayroll, current.totalPayroll),
      PercentageDiff(previous.totalDeliveries as real, current.totalDeliveries as real),
      PercentageDiff(previous.totalBonuses, current.totalBonuses),
      PercentageDiff(previous.totalDeductions, current.totalDeductions))
  }

  /** Two equal periods show no change in any field. */
  lemma SamePeriodNoChange(s: PeriodStats)
    ensures Differences(s, s) == StatsDiff(0.0, 0.0, 0.0, 0.0)
  {
  }

  // ---------------------------------------------------------------------------
  // Employees of both periods

  /** `details.find(e => e.employeeNumber === number)`. */
  function FindDetail(details: seq<EmployeeDetail>, number: string): (r: Option<EmployeeDetail>)
    ensures r.None? <==> forall d :: d in details ==> d.employeeNumber != number
    ensures r.Some? ==> r.value in details && r.value.employeeNumber == number
  {
    if details == [] then None
    else if details[0].employeeNumber == number then Some(details[0])
    else
      assert forall d :: d in details ==> d == details[0] || d in details[1..];
      FindDetail(details[1..], number)
  }

  /** The detail found is the first one of that employee. */
  lemma {:induction false} FindDetailIsFirst(details: seq<EmployeeDetail>, number: string, i: int)
    requires 0 <= i < |details| && details[i].employeeNumber == number
    requires forall j :: 0 <= j < i ==> details[j].employeeNumber != number
    ensures FindDetail(details, number) == Some(details[i])
  {
    if i > 0 {
      FindDetailIsFirst(details[1..], number, i - 1);
    }
  }

  /** The object `getEmployeeDifference` returns. */
  datatype EmployeeDiff = EmployeeDiff(current: EmployeeDetail, previous: EmployeeDetail, diff: real)

  /** `getEmployeeDifference(number)`: null unless the employee appears in both
      periods; otherwise the two first matches and the change of their net pay. */
  function EmployeeDifference(number: string, current: seq<EmployeeDetail>, previous: seq<EmployeeDetail>): (r: Option<EmployeeDiff>)
    ensures r.None? <==>
      (forall d :: d in current ==> d.employeeNumber != number)
      || (forall d :: d in previous ==> d.employeeNumber != number)
    ensures r.Some? ==>
      && r.value.current == FindDetail(current, number).value
      && r.value.previous == FindDetail(previous, number).value
      && r.value.current.employeeNumber == number && r.value.previous.employeeNumber == number
      && r.value.diff == PercentageDiff(r.value.previous.totalNet, r.value.current.totalNet)
  {
    var c := FindDetail(current, number);
    var p := FindDetail(previous, number);
    if c.None? || p.None? then None
    else Some(EmployeeDiff(c.value, p.value, PercentageDiff(p.value.totalNet, c.value.totalNet)))
  }

  function Numbers(details: seq<EmployeeDetail>): (r: seq<string>)
    ensures |r| == |details| && forall i :: 0 <= i < |details| ==> r[i] == details[i].employeeNumber
  {
    seq(|details|, i requires 0 <= i < |details| => details[i].employeeNumber)
  }

  /** `Array.from(new Set(s))`: each string once, where it first occurs. */
  function Dedup(s: seq<string>): (r: seq<string>)
    ensures forall x :: x in r <==> x in s
    ensures forall i, j :: 0 <= i < j < |r| ==> r[i] != r[j]
  {
    if s == [] then []
    else
      var r := Dedup(s[..|s| - 1]);
      assert s == s[..|s| - 1] + [s[|s| - 1]];
      if s[|s| - 1] in r then r else r + [s[|s| - 1]]
  }

  /** Deduplicating a concatenation keeps the first part's result in front and adds
      only strings the first part lacks. */
  lemma {:induction false} DedupAppend(a: seq<string>, b: seq<string>)
    ensures |Dedup(a)| <= |Dedup(a + b)|
    ensures Dedup(a + b)[..|Dedup(a)|] == Dedup(a)
    ensures forall k :: |Dedup(a)| <= k < |Dedup(a + b)| ==> Dedup(a + b)[k] !in a
  {
    if b == [] {
      assert a + b == a;
    } else {
      var b' := b[..|b| - 1];
      assert (a + b)[..|a + b| - 1] == a + b';
      DedupAppend(a, b');
      var r' := Dedup(a + b');
      var r := Dedup(a + b);
      var x := b[|b| - 1];
      assert (a + b)[|a + b| - 1] == x;
      if x !in r' {
        assert r == r' + [x];
        assert x !in a;
        assert r[..|r'|] == r';
        assert r[..|Dedup(a)|] == r'[..|Dedup(a)|];
      }
    }
  }

  /** `getAllEmployeeNumbers`: every number of either period exactly once, the
      current period's first in the order they occur there, then the numbers that
      occur only in the previous period. */
  function AllEmployeeNumbers(current: seq<EmployeeDetail>, previous: seq<EmployeeDetail>): (r: seq<string>)
    ensures forall x :: x in r <==>
      (exists d :: d in current && d.employeeNumber == x) || (exists d :: d in previous && d.employeeNumber == x)
    ensures forall i, j :: 0 <= i < j < |r| ==> r[i] != r[j]
    ensures |Dedup(Numbers(current))| <= |r| && r[..|Dedup(Numbers(current))|] == Dedup(Numbers(current))
    ensures forall k :: |Dedup(Numbers(current))| <= k < |r| ==>
      (forall d :: d in current ==> d.employeeNumber != r[k])
  {
    var cs, ps := Numbers(current), Numbers(previous);
    DedupAppend(cs, ps);
    var r := Dedup(cs + ps);
    assert forall x :: x in cs <==> exists d :: d in current && d.employeeNumber == x by {
      forall x ensures x in cs <==> exists d :: d in current && d.employeeNumber == x {
        if x in cs {
          var i :| 0 <= i < |cs| && cs[i] == x;
          assert current[i] in current;
        }
        if exists d :: d in current && d.employeeNumber == x {
          var d :| d in current && d.employeeNumber == x;
          var i :| 0 <= i < |current| && current[i] == d;
          assert cs[i] == x;
        }
      }
    }
    assert forall x :: x in ps <==> exists d :: d in previous && d.employeeNumber == x by {
      forall x ensures x in ps <==> exists d :: d in previous && d.employeeNumber == x {
        if x in ps {
          var i :| 0 <= i < |ps| && ps[i] == x;
          assert previous[i] in previous;
        }
        if exists d :: d in previous && d.employeeNumber == x {
          var d :| d in previous && d.employeeNumber == x;
          var i :| 0 <= i < |previous| && previous[i] == d;
          assert ps[i] == x;
        }
      }
    }
    assert forall x :: x in cs + ps <==> x in cs || x in ps;
    r
  }

  // ---------------------------------------------------------------------------
  // The component

  function ZeroStats(): PeriodStats {
    PeriodStats(0.0, 0, 0.0, 0.0)
  }

  class DashboardComparativo {
    var currentStats: PeriodStats
    var previousStats: PeriodStats
    var payrollDiff: real
    var deliveriesDiff: real
    var bonusesDiff: real
    var deductionsDiff: real
    var currentEmployeeDetails: seq<EmployeeDetail>
    var previousEmployeeDetails: seq<EmployeeDetail>
    var years: seq<int>
    var nextYear: int
    var selectedMonth: string
    var selectedYear: int
    var loading: bool

    /** The field initialisers and `ngOnInit`'s choice of the current month. */
    constructor(currentYear: int, currentMonthIndex: int)
      requires 0 <= currentMonthIndex < |Calendar.Months|
      ensures currentStats == ZeroStats() && previousStats == ZeroStats()
      ensures payrollDiff == 0.0 && deliveriesDiff == 0.0 && bonusesDiff == 0.0 && deductionsDiff == 0.0
      ensures currentEmployeeDetails == [] && previousEmployeeDetails == [] && years == []
      ensures nextYear == currentYear + 1 && selectedYear == currentYear
      ensures selectedMonth == Calendar.Months[currentMonthIndex]
      ensures !loading
    {
      currentStats, previousStats := ZeroStats(), ZeroStats();
      payrollDiff, deliveriesDiff, bonusesDiff, deductionsDiff := 0.0, 0.0, 0.0, 0.0;
      currentEmployeeDetails, previousEmployeeDetails, years := [], [], [];
      nextYear, selectedYear := currentYear + 1, currentYear;
      selectedMonth := Calendar.Months[currentMonthIndex];
      loading := false;
    }

    /** The percentages shown, as one value. */
    function Shown(): StatsDiff
      reads this
    {
      StatsDiff(payrollDiff, deliveriesDiff, bonusesDiff, deductionsDiff)
    }

    /** `calculateDifferences`. */
    method CalculateDifferences()
      modifies this`payrollDiff, this`deliveriesDiff, this`bonusesDiff, this`deductionsDiff
      ensures Shown() == Differences(previousStats, currentStats)
    {
      payrollDiff := PercentageDiff(previousStats.totalPayroll, currentStats.totalPayroll);
      deliveriesDiff := PercentageDiff(previousStats.totalDeliveries as real, currentStats.totalDeliveries as real);
      bonusesDiff := PercentageDiff(previousStats.totalBonuses, currentStats.totalBonuses);
      deductionsDiff := PercentageDiff(previousStats.totalDeductions, currentStats.totalDeductions);
    }

    /** `loadComparativeData`: the period of the four requests and the one compared
        with it, the same month a year earlier. */
    method LoadComparativeData() returns (current: Period, previous: Period)
      modifies this`loading
      ensures loading
      ensures current == Period(selectedMonth, selectedYear)
      ensures previous == Period(selectedMonth, selectedYear - 1)
    {
      loading := true;
      current := Period(selectedMonth, selectedYear);
      previous := Period(selectedMonth, selectedYear - 1);
    }

    /** `loadAvailableYears` (with the clock's year `currentYear`), then
        `loadComparativeData` on the resulting selection. */
    method LoadAvailableYears(response: Response<seq<int>>, currentYear: int) returns (current: Period, previous: Period)
      modifies this`years, this`selectedYear, this`loading
      ensures (years, selectedYear) == Years.LoadedYears(response, currentYear, old(selectedYear))
      ensures currentYear in years && loading
      ensures current == Period(selectedMonth, selectedYear)
      ensures previous == Period(selectedMonth, selectedYear - 1)
    {
      var loaded := Years.LoadedYears(response, currentYear, selectedYear);
      years := loaded.0;
      selectedYear := loaded.1;
      current, previous := LoadComparativeData();
    }

    /** `loadCurrentStats`: a successful reply replaces the current stats and the
        percentages follow. */
    method LoadCurrentStats(response: Response<PeriodStats>)
      modifies this`currentStats, this`payrollDiff, this`deliveriesDiff, this`bonusesDiff, this`deductionsDiff
      ensures response.Reply? && response.success ==>
        currentStats == response.data && Shown() == Differences(previousStats, response.data)
      ensures !(response.Reply? && response.success) ==> currentStats == old(currentStats) && Shown() == old(Shown())
    {
      if response.Reply? && response.success {
        currentStats := response.data;
        CalculateDifferences();
      }
    }

    /** `loadPreviousStats`: as the current stats, and the loading indicator stops
        whatever the reply. */
    method LoadPreviousStats(response: Response<PeriodStats>)
      modifies this`previousStats, this`loading, this`payrollDiff, this`deliveriesDiff, this`bonusesDiff, this`deductionsDiff
      ensures !loading
      ensures response.Reply? && response.success ==>
        previousStats == response.data && Shown() == Differences(response.data, currentStats)
      ensures !(response.Reply? && response.success) ==> previousStats == old(previousStats) && Shown() == old(Shown())
    {
      if response.Reply? && response.success {
        previousStats := response.data;
        CalculateDifferences();
      }
      loading := false;
    }

    method LoadCurrentEmployeeDetails(response: Response<seq<EmployeeDetail>>)
      modifies this`currentEmployeeDetails
      ensures currentEmployeeDetails == (if response.Reply? && response.success then response.data else old(currentEmployeeDetails))
    {
      if response.Reply? && response.success {
        currentEmployeeDetails := response.data;
      }
    }

    method LoadPreviousEmployeeDetails(response: Response<seq<EmployeeDetail>>)
      modifies this`previousEmployeeDetails
      ensures previousEmployeeDetails == (if response.Reply? && response.success then response.data else old(previousEmployeeDetails))
    {
      if response.Reply? && response.success {
        previousEmployeeDetails := response.data;
      }
    }
  }
}
