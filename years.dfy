/** The available-years step that the dashboard and the comparative dashboard both
    run on the reply of `getAvailableYears`. */
module Years {
  import opened Api
  import TableSort

  /** `Math.max(...years)`. */
  function MaxOf(s: seq<int>): (m: int)
    requires s != []
    ensures m in s
    ensures forall x :: x in s ==> x <= m
  {
    if |s| == 1 then s[0]
    else
      var t := MaxOf(s[1..]);
      assert forall x :: x in s ==> x == s[0] || x in s[1..];
      if s[0] >= t then s[0] else t
  }

  function YearCell(y: int): TableSort.SortKey {
    TableSort.Num(y as real)
  }

  /** `years.sort((a, b) => a - b)`. */
  function SortAscending(ys: seq<int>): (r: seq<int>)
    ensures multiset(r) == multiset(ys)
    ensures forall i, j :: 0 <= i < j < |r| ==> r[i] <= r[j]
  {
    var r := TableSort.SortRows(ys, YearCell, TableSort.Asc);
    TableSort.SortRowsOrdered(ys, YearCell, TableSort.Asc);
    assert forall i, j :: 0 <= i < j < |r| ==> r[i] <= r[j] by {
      forall i, j | 0 <= i < j < |r|
        ensures r[i] <= r[j]
      {
        TableSort.InOrderMeaning(YearCell(r[i]), YearCell(r[j]), TableSort.Asc);
      }
    }
    r
  }

  /** The list kept from a non-empty reply: the server's, with the current year
      added and the whole list sorted when it was missing. */
  function WithCurrentYear(data: seq<int>, currentYear: int): (r: seq<int>)
    ensures currentYear in r
    ensures currentYear in data ==> r == data
    ensures currentYear !in data ==> multiset(r) == multiset(data) + multiset{currentYear}
    ensures currentYear !in data ==> forall i, j :: 0 <= i < j < |r| ==> r[i] <= r[j]
  {
    if currentYear in data then data
    else
      var r := SortAscending(data + [currentYear]);
      assert currentYear in multiset(r);
      r
  }

  /** The reply is used when it succeeded with at least one year. */
  predicate Usable(response: Response<seq<int>>) {
    response.Reply? && response.success && |response.data| > 0
  }

  /** `loadAvailableYears`: the new `years` and `selectedYear`. A usable reply keeps
      its years plus the current one and selects the latest; otherwise the list is
      just the current year and the selection stays as it was. */
  function LoadedYears(response: Response<seq<int>>, currentYear: int, selectedYear: int): (r: (seq<int>, int))
    ensures currentYear in r.0
    ensures Usable(response) ==> forall y :: y in r.0 <==> y in response.data || y == currentYear
    ensures Usable(response) ==> r.1 in r.0 && forall y :: y in r.0 ==> y <= r.1
    ensures !Usable(response) ==> r == ([currentYear], selectedYear)
  {
    if Usable(response) then
      var years := WithCurrentYear(response.data, currentYear);
      assert forall y :: y in years <==> y in multiset(years);
      (years, MaxOf(years))
    else
      ([currentYear], selectedYear)
  }
}
