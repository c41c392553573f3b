// Filled Young tableaux: shapes, columns, and overwriting a column.

module Tableaux {
  import opened Signs

  type Filled<T> = seq<seq<T>>

  ghost predicate YoungRows<T>(tab: Filled<T>) {
    && (forall r :: 0 <= r < |tab| ==> |tab[r]| > 0)
    && (forall r :: 0 < r < |tab| ==> |tab[r]| <= |tab[r - 1]|)
  }

  // No value stands in two boxes.
  ghost predicate DistinctBoxes<T>(tab: Filled<T>) {
    forall r, c, s, d :: 0 <= r < |tab| && 0 <= c < |tab[r]| && 0 <= s < |tab| && 0 <= d < |tab[s]|
      && tab[r][c] == tab[s][d]
      ==> r == s && c == d
  }

  // The boxes of the first r rows, row by row.
  function Boxes<T>(tab: Filled<T>, r: nat): seq<T>
    requires r <= |tab|
  {
    if r == 0 then [] else Boxes(tab, r - 1) + tab[r - 1]
  }

  function RowBlocks<T>(tab: Filled<T>, r: nat): (b: seq<nat>)
    requires r < |tab|
    ensures |b| == |tab[r]| && forall c :: 0 <= c < |b| ==> b[c] == |Boxes(tab, r)| + c
  {
    seq(|tab[r]|, c requires 0 <= c < |tab[r]| => |Boxes(tab, r)| + c)
  }

  // Boxes of column c from row r down.
  function ColumnFrom<T>(tab: Filled<T>, c: nat, r: nat): (x: seq<T>)
    requires r <= |tab|
    decreases |tab| - r
  {
    if r < |tab| && c < |tab[r]| then [tab[r][c]] + ColumnFrom(tab, c, r + 1) else []
  }

  lemma {:induction false} ColumnAt<T>(tab: Filled<T>, c: nat, r: nat, i: nat)
    requires r <= |tab| && i < |ColumnFrom(tab, c, r)|
    ensures r + i < |tab| && c < |tab[r + i]| && ColumnFrom(tab, c, r)[i] == tab[r + i][c]
    decreases |tab| - r
  {
    if i > 0 { ColumnAt(tab, c, r + 1, i - 1); }
  }

  function Column<T>(tab: Filled<T>, c: nat): seq<T> {
    ColumnFrom(tab, c, 0)
  }

  lemma ColumnDistinct<T>(tab: Filled<T>, c: nat)
    requires DistinctBoxes(tab)
    ensures Distinct(Column(tab, c))
  {
    var x := Column(tab, c);
    forall i, j | 0 <= i < j < |x| ensures x[i] != x[j] {
      ColumnAt(tab, c, 0, i);
      ColumnAt(tab, c, 0, j);
    }
  }

  lemma ColumnsDisjoint<T>(tab: Filled<T>, c: nat, d: nat)
    requires DistinctBoxes(tab) && c != d
    ensures Disjoint(Column(tab, c), Column(tab, d))
  {
    var x, y := Column(tab, c), Column(tab, d);
    forall i, j | 0 <= i < |x| && 0 <= j < |y| ensures x[i] != y[j] {
      ColumnAt(tab, c, 0, i);
      ColumnAt(tab, d, 0, j);
    }
  }

  ghost predicate Disjoint<T>(x: seq<T>, y: seq<T>) {
    forall i, j :: 0 <= i < |x| && 0 <= j < |y| ==> x[i] != y[j]
  }

  // ------------------------------------------------------------------ Columns

  // On Young rows, row i reaches column c exactly above the foot of the column.
  lemma {:induction false} ColumnReach<T>(tab: Filled<T>, c: nat, r: nat, i: nat)
    requires YoungRows(tab) && r <= i <= |tab|
    ensures i - r < |ColumnFrom(tab, c, r)| <==> i < |tab| && c < |tab[i]|
    decreases i - r
  {
    if r < i {
      if r < |tab| && c < |tab[r]| {
        ColumnReach(tab, c, r + 1, i);
      } else {
        YoungRowsChain(tab, r, i);
      }
    }
  }

  lemma {:induction false} YoungRowsChain<T>(tab: Filled<T>, h: nat, i: nat)
    requires YoungRows(tab) && h <= i
    ensures i < |tab| ==> |tab[i]| <= |tab[h]|
    decreases i
  {
    if h < i <= |tab| { YoungRowsChain(tab, h, i - 1); }
  }

  lemma ColumnCell<T>(tab: Filled<T>, c: nat, i: nat)
    requires YoungRows(tab)
    ensures i < |Column(tab, c)| <==> i < |tab| && c < |tab[i]|
    ensures i < |Column(tab, c)| ==> Column(tab, c)[i] == tab[i][c]
  {
    if i <= |tab| { ColumnReach(tab, c, 0, i); } else { ColumnSize(tab, c, 0); }
    if i < |Column(tab, c)| { ColumnAt(tab, c, 0, i); }
  }

  lemma {:induction false} ColumnSize<T>(tab: Filled<T>, c: nat, r: nat)
    requires r <= |tab|
    ensures |ColumnFrom(tab, c, r)| <= |tab| - r
    decreases |tab| - r
  {
    if r < |tab| && c < |tab[r]| { ColumnSize(tab, c, r + 1); }
  }

  // Tableaux of the same shape with the same columns.
  ghost predicate SameShape<T>(t: Filled<T>, u: Filled<T>) {
    |t| == |u| && forall i :: 0 <= i < |t| ==> |t[i]| == |u[i]|
  }

  function SetColumn<T>(t: Filled<T>, c: nat, x: seq<T>): (u: Filled<T>)
    requires YoungRows(t) && |x| == |Column(t, c)|
    ensures |u| == |t|
    ensures forall i :: 0 <= i < |t| ==> u[i] == SetInRow(t[i], c, x, i)
  {
    seq(|t|, i requires 0 <= i < |t| => SetInRow(t[i], c, x, i))
  }

  function SetInRow<T>(row: seq<T>, c: nat, x: seq<T>, i: nat): (r: seq<T>)
    ensures |r| == |row|
  {
    if c < |row| && i < |x| then row[c := x[i]] else row
  }

  lemma SetColumnShape<T>(t: Filled<T>, c: nat, x: seq<T>)
    requires YoungRows(t) && |x| == |Column(t, c)|
    ensures SameShape(t, SetColumn(t, c, x)) && YoungRows(SetColumn(t, c, x))
  {
    var u := SetColumn(t, c, x);
    forall i | 0 <= i < |u| ensures |u[i]| == |t[i]| && |u[i]| > 0 {}
    forall i | 0 < i < |u| ensures |u[i]| <= |u[i - 1]| { assert |t[i]| <= |t[i - 1]|; }
  }

  lemma SameColumnSizes<T>(t: Filled<T>, u: Filled<T>, c: nat)
    requires YoungRows(t) && YoungRows(u) && SameShape(t, u)
    ensures |Column(t, c)| == |Column(u, c)|
  {
    var n := |Column(t, c)|;
    ColumnCell(t, c, n);
    ColumnCell(u, c, n);
    if n > 0 {
      ColumnCell(t, c, n - 1);
      ColumnCell(u, c, n - 1);
    }
  }

  lemma SetColumnColumn<T>(t: Filled<T>, c: nat, x: seq<T>, d: nat)
    requires YoungRows(t) && |x| == |Column(t, c)|
    ensures YoungRows(SetColumn(t, c, x))
    ensures Column(SetColumn(t, c, x), d) == if d == c then x else Column(t, d)
  {
    var u := SetColumn(t, c, x);
    SetColumnShape(t, c, x);
    SameColumnSizes(t, u, d);
    var y := Column(u, d);
    forall i | 0 <= i < |y| ensures y[i] == if d == c then x[i] else Column(t, d)[i] {
      ColumnCell(u, d, i);
      ColumnCell(t, d, i);
    }
  }

  lemma SetColumnTwice<T>(t: Filled<T>, c: nat, x: seq<T>, y: seq<T>)
    requires YoungRows(t) && |x| == |y| == |Column(t, c)|
    ensures YoungRows(SetColumn(t, c, x)) && |y| == |Column(SetColumn(t, c, x), c)|
    ensures SetColumn(SetColumn(t, c, x), c, y) == SetColumn(t, c, y)
  {
    SetColumnColumn(t, c, x, c);
    forall i | 0 <= i < |t| ensures SetColumn(SetColumn(t, c, x), c, y)[i] == SetColumn(t, c, y)[i] {}
  }

  lemma SetColumnSelf<T>(t: Filled<T>, c: nat)
    requires YoungRows(t)
    ensures SetColumn(t, c, Column(t, c)) == t
  {
    forall i | 0 <= i < |t| ensures SetColumn(t, c, Column(t, c))[i] == t[i] { ColumnCell(t, c, i); }
  }

  // Rearranging a column keeps the boxes different.
  lemma SetColumnDistinct<T>(t: Filled<T>, c: nat, x: seq<T>)
    requires YoungRows(t) && DistinctBoxes(t) && |x| == |Column(t, c)|
    requires Distinct(x) && forall i :: 0 <= i < |x| ==> x[i] in Column(t, c)
    ensures DistinctBoxes(SetColumn(t, c, x))
  {
    var u := SetColumn(t, c, x);
    forall r, d, s, e | 0 <= r < |u| && 0 <= d < |u[r]| && 0 <= s < |u| && 0 <= e < |u[s]| && u[r][d] == u[s][e]
      ensures r == s && d == e
    {
      CellFrom(t, c, x, r, d);
      CellFrom(t, c, x, s, e);
    }
  }

  lemma CellFrom<T>(t: Filled<T>, c: nat, x: seq<T>, r: nat, d: nat)
    requires YoungRows(t) && |x| == |Column(t, c)| && forall i :: 0 <= i < |x| ==> x[i] in Column(t, c)
    requires r < |t| && d < |t[r]|
    ensures d != c ==> SetColumn(t, c, x)[r][d] == t[r][d]
    ensures d == c ==> r < |x| && SetColumn(t, c, x)[r][d] == x[r]
    ensures d == c ==> exists i :: 0 <= i < |t| && c < |t[i]| && t[i][c] == x[r]
  {
    ColumnCell(t, c, r);
    if d == c {
      assert x[r] in Column(t, c);
      var i :| 0 <= i < |Column(t, c)| && Column(t, c)[i] == x[r];
      ColumnCell(t, c, i);
    }
  }
}
