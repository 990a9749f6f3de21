/** The column sorting that the roles, users and employees tables share: the
    `sortBy` state change, the `getSortIcon` marker, the comparator handed to
    `Array.prototype.sort`, and the stable sort that the library applies with it. */
module TableSort {
  import Text

  datatype Direction = Asc | Desc

  /** A cell of the sorted column as JavaScript's `<` sees it: booleans and numbers
      compare as numbers, strings as strings. */
  datatype SortKey = Num(n: real) | Str(s: string)

  /** `sortBy(column)` on the sort state: the same column flips the direction,
      another column becomes the sorted one, ascending. */
  function NextSort(sortColumn: string, sortDirection: Direction, column: string): (r: (string, Direction))
    ensures r.0 == column
    ensures sortColumn == column ==> r.1 != sortDirection
    ensures sortColumn != column ==> r.1 == Asc
  {
    if sortColumn == column then (column, if sortDirection == Asc then Desc else Asc)
    else (column, Asc)
  }

  /** Clicking the sorted column twice restores its direction. */
  lemma NextSortTwice(column: string, sortDirection: Direction)
    ensures var (c, d) := NextSort(column, sortDirection, column); NextSort(c, d, column) == (column, sortDirection)
  {
  }

  const Ascending: string := "▲"
  const Descending: string := "▼"

  lemma MarkersDiffer()
    ensures Ascending != Descending && Ascending != "" && Descending != ""
  {
    assert Ascending[0] != Descending[0];
  }

  /** `getSortIcon(column)`: nothing for an unsorted column, a marker for the sorted one. */
  function SortIcon(sortColumn: string, sortDirection: Direction, column: string): (r: string)
    ensures r == "" <==> sortColumn != column
    ensures r == Ascending <==> sortColumn == column && sortDirection.Asc?
    ensures r == Descending <==> sortColumn == column && sortDirection.Desc?
  {
    MarkersDiffer();
    if sortColumn != column then ""
    else if sortDirection.Asc? then Ascending else Descending
  }

  /** The comparator lower-cases string cells before comparing them. */
  function Lowered(k: SortKey): SortKey {
    match k
    case Str(s) => Str(Text.ToLower(s))
    case Num(_) => k
  }

  /** `a < b` on two cells of one column (a column holds cells of one kind; numbers
      are put first should two kinds meet). */
  predicate KeyLess(a: SortKey, b: SortKey) {
    match (a, b)
    case (Num(x), Num(y)) => x < y
    case (Str(x), Str(y)) => Text.StrLess(x, y)
    case (Num(_), Str(_)) => true
    case (Str(_), Num(_)) => false
  }

  lemma KeyLessIrreflexive(a: SortKey)
    ensures !KeyLess(a, a)
  {
    if a.Str? {
      Text.StrLessIrreflexive(a.s);
    }
  }

  lemma KeyLessTransitive(a: SortKey, b: SortKey, c: SortKey)
    requires KeyLess(a, b) && KeyLess(b, c)
    ensures KeyLess(a, c)
  {
    if a.Str? && b.Str? && c.Str? {
      Text.StrLessTransitive(a.s, b.s, c.s);
    }
  }

  lemma KeyLessTotal(a: SortKey, b: SortKey)
    requires a != b
    ensures KeyLess(a, b) || KeyLess(b, a)
  {
    if a.Str? && b.Str? {
      Text.StrLessTotal(a.s, b.s);
    }
  }

  /** The comparator of `sortBy`: negative when `a` goes first, positive when `b`
      goes first, 0 when the two cells are equal once lower-cased. */
  function Compare(a: SortKey, b: SortKey, dir: Direction): int {
    var x, y := Lowered(a), Lowered(b);
    if KeyLess(x, y) then (if dir == Asc then -1 else 1)
    else if KeyLess(y, x) then (if dir == Asc then 1 else -1)
    else 0
  }

  /** `a` may stand before `b` in a table sorted in direction `dir`. */
  predicate InOrder(a: SortKey, b: SortKey, dir: Direction) {
    Compare(a, b, dir) <= 0
  }

  /** Ascending means no cell is smaller than one before it; descending means no
      cell is larger than one before it. */
  lemma InOrderMeaning(a: SortKey, b: SortKey, dir: Direction)
    ensures dir == Asc ==> (InOrder(a, b, dir) <==> !KeyLess(Lowered(b), Lowered(a)))
    ensures dir == Desc ==> (InOrder(a, b, dir) <==> !KeyLess(Lowered(a), Lowered(b)))
  {
    var x, y := Lowered(a), Lowered(b);
    if KeyLess(x, y) && KeyLess(y, x) {
      KeyLessTransitive(x, y, x);
      KeyLessIrreflexive(x);
    }
  }

  lemma InOrderTotal(a: SortKey, b: SortKey, dir: Direction)
    ensures InOrder(a, b, dir) || InOrder(b, a, dir)
  {
    InOrderMeaning(a, b, dir);
    InOrderMeaning(b, a, dir);
    var x, y := Lowered(a), Lowered(b);
    if x != y {
      KeyLessTotal(x, y);
    }
    if KeyLess(x, y) && KeyLess(y, x) {
      KeyLessTransitive(x, y, x);
      KeyLessIrreflexive(x);
    }
  }

  lemma InOrderTransitive(a: SortKey, b: SortKey, c: SortKey, dir: Direction)
    requires InOrder(a, b, dir) && InOrder(b, c, dir)
    ensures InOrder(a, c, dir)
  {
    InOrderMeaning(a, b, dir);
    InOrderMeaning(b, c, dir);
    InOrderMeaning(a, c, dir);
    var x, y, z := Lowered(a), Lowered(b), Lowered(c);
    if dir == Asc && KeyLess(z, x) {
      if x != y {
        KeyLessTotal(x, y);
        KeyLessTransitive(z, x, y);
      }
      assert false;
    }
    if dir == Desc && KeyLess(x, z) {
      if y != z {
        KeyLessTotal(y, z);
        KeyLessTransitive(x, z, y);
      }
      assert false;
    }
  }

  /** A table ordered by column `key` in direction `dir`. */
  ghost predicate Ordered<T>(s: seq<T>, key: T -> SortKey, dir: Direction) {
    forall i, j :: 0 <= i < j < |s| ==> InOrder(key(s[i]), key(s[j]), dir)
  }

  /** Puts `x` before the first row it may precede; as `x` stood before every row
      of `ys` in the input, this keeps equal rows in their input order. */
  function Insert<T>(x: T, ys: seq<T>, key: T -> SortKey, dir: Direction): (r: seq<T>)
    ensures |r| == |ys| + 1
    ensures multiset(r) == multiset(ys) + multiset{x}
  {
    if ys == [] then [x]
    else if Compare(key(x), key(ys[0]), dir) <= 0 then [x] + ys
    else
      assert ys == [ys[0]] + ys[1..];
      [ys[0]] + Insert(x, ys[1..], key, dir)
  }

  /** `rows.sort(comparator)`: a stable sort, so its result is fully determined by
      the comparator; this insertion sort computes that result. */
  function SortRows<T>(s: seq<T>, key: T -> SortKey, dir: Direction): (r: seq<T>)
    ensures |r| == |s|
    ensures multiset(r) == multiset(s)
  {
    if s == [] then []
    else
      assert s == [s[0]] + s[1..];
      Insert(s[0], SortRows(s[1..], key, dir), key, dir)
  }

  lemma {:induction false} InsertOrdered<T>(x: T, ys: seq<T>, key: T -> SortKey, dir: Direction)
    requires Ordered(ys, key, dir)
    ensures Ordered(Insert(x, ys, key, dir), key, dir)
  {
    if ys != [] && Compare(key(x), key(ys[0]), dir) > 0 {
      var rest := Insert(x, ys[1..], key, dir);
      InsertOrdered(x, ys[1..], key, dir);
      InOrderTotal(key(x), key(ys[0]), dir);
      var r := [ys[0]] + rest;
      forall j | 0 < j < |r|
        ensures InOrder(key(ys[0]), key(r[j]), dir)
      {
        assert r[j] in multiset(rest);
        assert r[j] == x || r[j] in multiset(ys[1..]);
        if r[j] != x {
          var k :| 0 <= k < |ys[1..]| && ys[1..][k] == r[j];
          assert ys[k + 1] == r[j];
        }
      }
    } else if ys != [] {
      var r := [x] + ys;
      forall j | 0 < j < |r|
        ensures InOrder(key(x), key(r[j]), dir)
      {
        if j > 1 {
          InOrderTransitive(key(x), key(ys[0]), key(r[j]), dir);
        }
      }
    }
  }

  /** After `sortBy`, the table is ordered by the column in the chosen direction. */
  lemma {:induction false} SortRowsOrdered<T>(s: seq<T>, key: T -> SortKey, dir: Direction)
    ensures Ordered(SortRows(s, key, dir), key, dir)
  {
    if s != [] {
      SortRowsOrdered(s[1..], key, dir);
      InsertOrdered(s[0], SortRows(s[1..], key, dir), key, dir);
    }
  }

  /** A column whose cells are all equal (for instance a column the rows do not
      have, whose cells are all `undefined`) leaves the table as it was. */
  lemma {:induction false} SortRowsEqualKeys<T>(s: seq<T>, key: T -> SortKey, dir: Direction)
    requires forall i :: 0 <= i < |s| ==> key(s[i]) == key(s[0])
    ensures SortRows(s, key, dir) == s
  {
    if s != [] {
      SortRowsEqualKeys(s[1..], key, dir);
      assert s == [s[0]] + s[1..];
      KeyLessIrreflexive(Lowered(key(s[0])));
      if |s| > 1 {
        assert key(s[1..][0]) == key(s[0]);
      }
    }
  }

  /** The comparator finds two cells equal exactly when they are the same once
      lower-cased. */
  lemma CompareZero(a: SortKey, b: SortKey, dir: Direction)
    ensures Compare(a, b, dir) == 0 <==> Lowered(a) == Lowered(b)
  {
    var x, y := Lowered(a), Lowered(b);
    if x == y {
      KeyLessIrreflexive(x);
    } else {
      KeyLessTotal(x, y);
    }
  }

  /** `x` alone if its cell in column `key`, lower-cased, is `v`; nothing otherwise. */
  function Kept<T>(x: T, key: T -> SortKey, v: SortKey): seq<T> {
    if Lowered(key(x)) == v then [x] else []
  }

  /** The rows of `s` whose cell in column `key`, lower-cased, is `v`, in order:
      the rows the comparator cannot tell apart. */
  function WithCell<T>(s: seq<T>, key: T -> SortKey, v: SortKey): (r: seq<T>)
    ensures |r| <= |s|
    ensures forall i :: 0 <= i < |r| ==> Lowered(key(r[i])) == v
  {
    if s == [] then []
    else Kept(s[0], key, v) + WithCell(s[1..], key, v)
  }

  /** `WithCell` keeps a row of the table iff its cell is the one asked for. */
  lemma {:induction false} WithCellMembers<T>(s: seq<T>, key: T -> SortKey, v: SortKey)
    ensures forall i :: 0 <= i < |WithCell(s, key, v)| ==> WithCell(s, key, v)[i] in s
    ensures forall i :: 0 <= i < |s| ==> (s[i] in WithCell(s, key, v) <==> Lowered(key(s[i])) == v)
  {
    if s != [] {
      WithCellMembers(s[1..], key, v);
      var r := WithCell(s, key, v);
      assert s == [s[0]] + s[1..];
      forall i | 0 <= i < |s|
        ensures s[i] in r <==> Lowered(key(s[i])) == v
      {
        if i > 0 {
          assert s[i] == s[1..][i - 1];
        }
      }
    }
  }

  lemma {:induction false} WithCellAppend<T>(a: seq<T>, b: seq<T>, key: T -> SortKey, v: SortKey)
    ensures WithCell(a + b, key, v) == WithCell(a, key, v) + WithCell(b, key, v)
  {
    if a == [] {
      assert a + b == b;
    } else {
      calc {
        WithCell(a + b, key, v);
        { assert (a + b)[0] == a[0] && (a + b)[1..] == a[1..] + b; }
        Kept(a[0], key, v) + WithCell(a[1..] + b, key, v);
        { WithCellAppend(a[1..], b, key, v); }
        Kept(a[0], key, v) + (WithCell(a[1..], key, v) + WithCell(b, key, v));
      }
    }
  }

  lemma WithCellCons<T>(x: T, s: seq<T>, key: T -> SortKey, v: SortKey)
    ensures WithCell([x] + s, key, v) == Kept(x, key, v) + WithCell(s, key, v)
  {
    assert ([x] + s)[1..] == s;
  }

  /** Stepping `x` past a row `y` with a different cell leaves the rows equal to
      one another in the same order. */
  lemma PassDifferent<T>(x: T, y: T, rest: seq<T>, tail: seq<T>, key: T -> SortKey, v: SortKey)
    requires Lowered(key(x)) != Lowered(key(y))
    requires WithCell(rest, key, v) == WithCell([x] + tail, key, v)
    ensures WithCell([y] + rest, key, v) == WithCell([x] + ([y] + tail), key, v)
  {
    var kx, ky := Kept(x, key, v), Kept(y, key, v);
    assert kx == [] || ky == [];
    assert ky + kx == kx + ky;
    WithCellCons(y, rest, key, v);
    WithCellCons(x, tail, key, v);
    WithCellCons(y, tail, key, v);
    WithCellCons(x, [y] + tail, key, v);
  }

  /** Inserting `x` passes only rows whose cells differ from its own, so among the
      rows equal to one another `x` still comes first. */
  lemma {:induction false} InsertKeepsEqualOrder<T>(x: T, ys: seq<T>, key: T -> SortKey, dir: Direction, v: SortKey)
    ensures WithCell(Insert(x, ys, key, dir), key, v) == WithCell([x] + ys, key, v)
  {
    if ys != [] && Compare(key(x), key(ys[0]), dir) > 0 {
      var y, tail := ys[0], ys[1..];
      var rest := Insert(x, tail, key, dir);
      assert Insert(x, ys, key, dir) == [y] + rest;
      assert ys == [y] + tail;
      CompareZero(key(x), key(y), dir);
      InsertKeepsEqualOrder(x, tail, key, dir, v);
      PassDifferent(x, y, rest, tail, key, v);
    } else {
      assert Insert(x, ys, key, dir) == [x] + ys;
    }
  }

  /** `rows.sort(comparator)` is stable: the rows the comparator finds equal keep
      their relative order from the input. */
  lemma {:induction false} SortRowsStable<T>(s: seq<T>, key: T -> SortKey, dir: Direction, v: SortKey)
    ensures WithCell(SortRows(s, key, dir), key, v) == WithCell(s, key, v)
  {
    if s != [] {
      var sorted := SortRows(s[1..], key, dir);
      SortRowsStable(s[1..], key, dir, v);
      InsertKeepsEqualOrder(s[0], sorted, key, dir, v);
      assert ([s[0]] + sorted)[1..] == sorted;
    }
  }
}
