/** The fixed Spanish month list shared by the payroll screen and both dashboards,
    and `months.indexOf`. */
module Calendar {

  const Months: seq<string> := [
    "Enero", "Febrero", "Marzo", "Abril", "Mayo", "Junio",
    "Julio", "Agosto", "Septiembre", "Octubre", "Noviembre", "Diciembre"
  ]

  /** Length, first and third letter: enough to tell the twelve names apart. */
  function Signature(m: string): (int, char, char) {
    if |m| < 3 then (|m|, ' ', ' ') else (|m|, m[0], m[2])
  }

  /** No month name occurs twice. */
  lemma MonthsDistinct()
    ensures forall i, j :: 0 <= i < j < |Months| ==> Months[i] != Months[j]
  {
    forall i, j | 0 <= i < j < |Months|
      ensures Months[i] != Months[j]
    {
      assert Signature(Months[i]) != Signature(Months[j]);
    }
  }

  function IndexFrom(month: string, k: nat): (r: int)
    requires k <= |Months|
    ensures -1 <= r < |Months|
    ensures r >= 0 ==> k <= r && Months[r] == month && forall i :: k <= i < r ==> Months[i] != month
    ensures r == -1 <==> forall i :: k <= i < |Months| ==> Months[i] != month
    decreases |Months| - k
  {
    if k == |Months| then -1
    else if Months[k] == month then k
    else IndexFrom(month, k + 1)
  }

  /** `months.indexOf(month)`: the position of the name, or -1 for any other string. */
  function MonthIndex(month: string): (r: int)
    ensures -1 <= r < |Months|
    ensures r >= 0 ==> Months[r] == month
    ensures r == -1 <==> month !in Months
  {
    IndexFrom(month, 0)
  }

  /** Looking up the k-th name gives back k. */
  lemma MonthIndexOfMonth(k: int)
    requires 0 <= k < |Months|
    ensures MonthIndex(Months[k]) == k
  {
    MonthsDistinct();
    assert IndexFrom(Months[k], 0) != -1;
  }
}
