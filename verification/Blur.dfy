/** `box_blur` of demo/outline.py: the sum of the square around each entry, from a table of sums. */
module Blur {
  import opened Numbers

  type Table = seq<seq<int>>

  predicate Rectangular(t: Table, rows: nat, columns: nat) {
    |t| == rows && forall j :: 0 <= j < rows ==> |t[j]| == columns
  }

  /** Zero outside the edges. */
  function Entry(t: Table, j: int, i: int): int {
    if 0 <= j < |t| && 0 <= i < |t[j]| then t[j][i] else 0
  }

  function RowSum(t: Table, j: int, i0: int, i1: int): int
    decreases i1 - i0
  {
    if i1 <= i0 then 0 else RowSum(t, j, i0, i1 - 1) + Entry(t, j, i1 - 1)
  }

  /** The entries of rows j0 to j1 and columns i0 to i1, the ends left out. */
  function WindowSum(t: Table, j0: int, i0: int, j1: int, i1: int): int
    decreases j1 - j0
  {
    if j1 <= j0 then 0 else WindowSum(t, j0, i0, j1 - 1, i1) + RowSum(t, j1 - 1, i0, i1)
  }

  lemma {:induction false} RowSplit(t: Table, j: int, i0: int, i: int, i1: int)
    requires i0 <= i <= i1
    ensures RowSum(t, j, i0, i1) == RowSum(t, j, i0, i) + RowSum(t, j, i, i1)
    decreases i1 - i
  {
    if i < i1 { RowSplit(t, j, i0, i, i1 - 1); }
  }

  lemma {:induction false} ColumnsSplit(t: Table, j0: int, i0: int, i: int, j1: int, i1: int)
    requires i0 <= i <= i1
    ensures WindowSum(t, j0, i0, j1, i1) == WindowSum(t, j0, i0, j1, i) + WindowSum(t, j0, i, j1, i1)
    decreases j1 - j0
  {
    if j0 < j1 {
      ColumnsSplit(t, j0, i0, i, j1 - 1, i1);
      RowSplit(t, j1 - 1, i0, i, i1);
    }
  }

  lemma {:induction false} RowsSplit(t: Table, j0: int, i0: int, j: int, j1: int, i1: int)
    requires j0 <= j <= j1
    ensures WindowSum(t, j0, i0, j1, i1) == WindowSum(t, j0, i0, j, i1) + WindowSum(t, j, i0, j1, i1)
    decreases j1 - j
  {
    if j < j1 { RowsSplit(t, j0, i0, j, j1 - 1, i1); }
  }

  /** A window that has no square of the table in it. */
  lemma {:induction false} RowOff(t: Table, rows: nat, columns: nat, j: int, i0: int, i1: int)
    requires Rectangular(t, rows, columns)
    requires !(0 <= j < rows) || i1 <= 0 || columns <= i0 || i1 <= i0
    ensures RowSum(t, j, i0, i1) == 0
    decreases i1 - i0
  {
    if i0 < i1 { RowOff(t, rows, columns, j, i0, i1 - 1); }
  }

  lemma {:induction false} WindowOff(t: Table, rows: nat, columns: nat, j0: int, i0: int, j1: int, i1: int)
    requires Rectangular(t, rows, columns)
    requires j1 <= 0 || rows <= j0 || i1 <= 0 || columns <= i0 || i1 <= i0 || j1 <= j0
    ensures WindowSum(t, j0, i0, j1, i1) == 0
    decreases j1 - j0
  {
    if j0 < j1 {
      WindowOff(t, rows, columns, j0, i0, j1 - 1, i1);
      RowOff(t, rows, columns, j1 - 1, i0, i1);
    }
  }

  function Clamped(at: int, end: nat): nat {
    if at < 0 then 0 else if at > end then end else at
  }

  /** What hangs over the edges adds nothing. */
  lemma WindowClamped(t: Table, rows: nat, columns: nat, j0: int, i0: int, j1: int, i1: int)
    requires Rectangular(t, rows, columns) && j0 <= j1 && i0 <= i1
    ensures WindowSum(t, j0, i0, j1, i1)
            == WindowSum(t, Clamped(j0, rows), Clamped(i0, columns), Clamped(j1, rows), Clamped(i1, columns))
  {
    if j1 <= 0 || rows <= j0 || i1 <= 0 || columns <= i0 {
      WindowOff(t, rows, columns, j0, i0, j1, i1);
      WindowOff(t, rows, columns, Clamped(j0, rows), Clamped(i0, columns), Clamped(j1, rows), Clamped(i1, columns));
    } else {
      var b, d := Clamped(j0, rows), Clamped(j1, rows);
      RowsSplit(t, j0, i0, b, j1, i1);
      RowsSplit(t, b, i0, d, j1, i1);
      WindowOff(t, rows, columns, j0, i0, b, i1);
      WindowOff(t, rows, columns, d, i0, j1, i1);
      ClampColumns(t, rows, columns, b, i0, d, i1);
    }
  }

  lemma ClampColumns(t: Table, rows: nat, columns: nat, j0: int, i0: int, j1: int, i1: int)
    requires Rectangular(t, rows, columns) && i0 < columns && 0 < i1 && i0 <= i1
    ensures WindowSum(t, j0, i0, j1, i1) == WindowSum(t, j0, Clamped(i0, columns), j1, Clamped(i1, columns))
  {
    var a, c := Clamped(i0, columns), Clamped(i1, columns);
    ColumnsSplit(t, j0, i0, a, j1, i1);
    ColumnsSplit(t, j0, a, c, j1, i1);
    WindowOff(t, rows, columns, j0, i0, j1, a);
    WindowOff(t, rows, columns, j0, c, j1, i1);
  }

  /** A window from the sums of the four windows at the table's corner. */
  lemma WindowFromCorners(t: Table, j0: nat, i0: nat, j1: nat, i1: nat)
    requires j0 <= j1 && i0 <= i1
    ensures WindowSum(t, j0, i0, j1, i1)
            == WindowSum(t, 0, 0, j1, i1) - WindowSum(t, 0, 0, j0, i1) - WindowSum(t, 0, 0, j1, i0)
              + WindowSum(t, 0, 0, j0, i0)
  {
    RowsSplit(t, 0, 0, j0, j1, i1);
    RowsSplit(t, 0, 0, j0, j1, i0);
    ColumnsSplit(t, j0, 0, i0, j1, i1);
  }

  /** Each sum from the three before it. */
  lemma CornerGrows(t: Table, j: nat, i: nat)
    ensures WindowSum(t, 0, 0, j + 1, i + 1)
            == Entry(t, j, i) + WindowSum(t, 0, 0, j, i + 1) + WindowSum(t, 0, 0, j + 1, i) - WindowSum(t, 0, 0, j, i)
  {
    assert RowSum(t, j, 0, i + 1) == RowSum(t, j, 0, i) + Entry(t, j, i);
  }

  lemma {:induction false} EmptyCorner(t: Table, j: nat)
    ensures WindowSum(t, 0, 0, j, 0) == 0
  {
    if j > 0 { EmptyCorner(t, j - 1); }
  }

  /** Each entry is the sum of the window from the table's corner to it. */
  ghost predicate SumsOf(sums: array2<int>, t: Table, rows: nat, columns: nat)
    reads sums
  {
    && sums.Length0 == rows + 1 && sums.Length1 == columns + 1
    && forall j: nat, i: nat :: j <= rows && i <= columns ==> sums[j, i] == WindowSum(t, 0, 0, j, i)
  }

  method SumTable(a: Table, rows: nat, columns: nat) returns (sums: array2<int>)
    requires Rectangular(a, rows, columns)
    ensures fresh(sums) && SumsOf(sums, a, rows, columns)
  {
    sums := new int[rows + 1, columns + 1]((j, i) => 0);
    forall j: nat ensures WindowSum(a, 0, 0, j, 0) == 0 { EmptyCorner(a, j); }
    for j := 0 to rows
      invariant forall b: nat, c: nat :: b <= rows && c <= columns && (b <= j || c == 0) ==>
                sums[b, c] == WindowSum(a, 0, 0, b, c)
    {
      for i := 0 to columns
        invariant forall b: nat, c: nat ::
                    b <= rows && c <= columns && (b <= j || c == 0 || (b == j + 1 && c <= i)) ==>
                    sums[b, c] == WindowSum(a, 0, 0, b, c)
      {
        CornerGrows(a, j, i);
        sums[j + 1, i + 1] := a[j][i] + sums[j, i + 1] + sums[j + 1, i] - sums[j, i];
      }
    }
  }

  /** `total`: the part of a window that is in the table. */
  method Total(a: Table, sums: array2<int>, rows: nat, columns: nat, j0: int, i0: int, j1: int, i1: int)
    returns (total: int)
    requires Rectangular(a, rows, columns) && SumsOf(sums, a, rows, columns)
    requires j0 <= j1 && i0 <= i1 && j0 <= rows && 0 <= j1 && i0 <= columns && 0 <= i1
    ensures total == WindowSum(a, j0, i0, j1, i1)
  {
    var b, c, d, e := Max(j0, 0), Max(i0, 0), Min(j1, rows), Min(i1, columns);
    total := sums[d, e] - sums[b, e] - sums[d, c] + sums[b, c];
    WindowFromCorners(a, b, c, d, e);
    WindowClamped(a, rows, columns, j0, i0, j1, i1);
  }

  /** Each entry's window, two radii and one across. */
  ghost predicate Blurred(a: Table, blurred: Table, r: nat, j: nat, i: nat) {
    Entry(blurred, j, i) == WindowSum(a, j - r, i - r, j + r + 1, i + r + 1)
  }

  method BoxBlur(a: Table, r: nat) returns (blurred: Table)
    requires |a| > 0 && Rectangular(a, |a|, |a[0]|)
    ensures Rectangular(blurred, |a|, |a[0]|)
    ensures forall j, i :: 0 <= j < |a| && 0 <= i < |a[0]| ==> Blurred(a, blurred, r, j, i)
  {
    var rows, columns := |a|, |a[0]|;
    var sums := SumTable(a, rows, columns);
    blurred := [];
    for j := 0 to rows
      invariant Rectangular(blurred, j, columns) && SumsOf(sums, a, rows, columns)
      invariant forall b, i :: 0 <= b < j && 0 <= i < columns ==> Blurred(a, blurred, r, b, i)
    {
      var row: seq<int> := [];
      for i := 0 to columns
        invariant |row| == i && SumsOf(sums, a, rows, columns)
        invariant forall c :: 0 <= c < i ==> row[c] == WindowSum(a, j - r, c - r, j + r + 1, c + r + 1)
      {
        var total := Total(a, sums, rows, columns, j - r, i - r, j + r + 1, i + r + 1);
        row := row + [total];
      }
      ghost var before := blurred;
      blurred := blurred + [row];
      forall b, i | 0 <= b < j + 1 && 0 <= i < columns ensures Blurred(a, blurred, r, b, i) {
        assert b < j ==> Blurred(a, before, r, b, i) && blurred[b] == before[b];
      }
    }
  }
}
