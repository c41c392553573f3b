// Hook lengths and dimensions of Young shapes.

module Hooks {
  import opened LittlewoodRichardson
  import opened Counting

  function Times(x: int, y: int): int {
    x * y
  }

  // ------------------------------------------------------------------- Columns

  // The number of rows that reach column c.
  function ColumnSize(rows: Shape, c: nat): (k: nat)
    ensures k <= |rows|
    ensures forall r :: 0 <= r < k ==> rows[r] > c
    ensures k < |rows| ==> rows[k] <= c
  {
    if rows == [] || rows[0] <= c then 0
    else
      var k := ColumnSize(rows[1..], c);
      assert forall r :: 0 < r < k + 1 ==> rows[r] == rows[1..][r - 1];
      1 + k
  }

  lemma {:induction false} RowsFall(rows: Shape, i: nat, j: nat)
    requires YoungShape(rows) && i <= j < |rows|
    ensures rows[j] <= rows[i]
  {
    if i < j { RowsFall(rows, i, j - 1); }
  }

  // Box (r, c) is in the shape by rows exactly when it is by columns.
  lemma BoxBothWays(rows: Shape, r: nat, c: nat)
    requires YoungShape(rows)
    ensures r < |rows| && c < rows[r] <==> r < ColumnSize(rows, c)
  {
    var k := ColumnSize(rows, c);
    if r < |rows| && r >= k { RowsFall(rows, k, r); }
  }

  function Transposed(rows: Shape): (t: Shape)
    ensures |t| == if rows == [] then 0 else rows[0]
    ensures forall c :: 0 <= c < |t| ==> t[c] == ColumnSize(rows, c)
  {
    if rows == [] then [] else seq(rows[0], c requires 0 <= c < rows[0] => ColumnSize(rows, c))
  }

  lemma ColumnsFall(rows: Shape, c: nat, d: nat)
    requires YoungShape(rows) && c <= d
    ensures ColumnSize(rows, d) <= ColumnSize(rows, c)
  {
    var k := ColumnSize(rows, c);
    if k < |rows| { BoxBothWays(rows, k, d); }
  }

  lemma TransposedIsYoung(rows: Shape)
    requires YoungShape(rows)
    ensures YoungShape(Transposed(rows))
  {
    var t := Transposed(rows);
    forall c | 0 <= c < |t| ensures t[c] > 0 { BoxBothWays(rows, 0, c); }
    forall c | 0 < c < |t| ensures t[c] <= t[c - 1] { ColumnsFall(rows, c - 1, c); }
  }

  // The columns of the transposed shape are the rows.
  lemma TransposedColumn(rows: Shape, r: nat)
    requires YoungShape(rows) && r < |rows|
    ensures ColumnSize(Transposed(rows), r) == rows[r]
  {
    var t := Transposed(rows);
    TransposedIsYoung(rows);
    var k := ColumnSize(t, r);
    RowsFall(rows, 0, r);
    if k < |t| { BoxBothWays(rows, r, k); }
    if 0 < k { BoxBothWays(rows, r, k - 1); }
  }

  lemma TransposedTwice(rows: Shape)
    requires YoungShape(rows)
    ensures Transposed(Transposed(rows)) == rows
  {
    var t := Transposed(rows);
    if rows != [] {
      BoxBothWays(rows, 0, 0);
      assert |Transposed(t)| == t[0] == ColumnSize(rows, 0);
      assert ColumnSize(rows, 0) == |rows|;
      forall r | 0 <= r < |rows| ensures Transposed(t)[r] == rows[r] { TransposedColumn(rows, r); }
    }
  }

  // --------------------------------------------------------------------- Hooks

  // Boxes to the right, boxes below, and the box itself.
  function Arm(rows: Shape, r: nat, c: nat): int
    requires r < |rows|
  {
    rows[r] - c - 1
  }

  function Leg(rows: Shape, r: nat, c: nat): int {
    ColumnSize(rows, c) - r - 1
  }

  function Hook(rows: Shape, r: nat, c: nat): int
    requires r < |rows|
  {
    Arm(rows, r, c) + Leg(rows, r, c) + 1
  }

  // Transposing exchanges arm and leg.
  lemma HookTransposed(rows: Shape, r: nat, c: nat)
    requires YoungShape(rows) && r < |rows| && c < rows[r]
    ensures c < |Transposed(rows)| && r < Transposed(rows)[c]
    ensures Arm(Transposed(rows), c, r) == Leg(rows, r, c) && Leg(Transposed(rows), c, r) == Arm(rows, r, c)
  {
    RowsFall(rows, 0, r);
    BoxBothWays(rows, r, c);
    TransposedColumn(rows, r);
  }

  // -------------------------------------------------------- Products over boxes

  // The factor of a box, one outside the shape.
  function HookFactor(rows: Shape, r: nat, c: nat): int {
    if r < |rows| && c < rows[r] then Hook(rows, r, c) else 1
  }

  function RowProduct(rows: Shape, r: nat, c: nat): int {
    if c == 0 then 1 else Times(RowProduct(rows, r, c - 1), HookFactor(rows, r, c - 1))
  }

  // The product over the first r rows.
  function Rows(rows: Shape, r: nat): int
    requires r <= |rows|
  {
    if r == 0 then 1 else Times(Rows(rows, r - 1), RowProduct(rows, r - 1, rows[r - 1]))
  }

  function HookProduct(rows: Shape): int {
    Rows(rows, |rows|)
  }

  // The product over a rectangle, by rows and by columns.
  function Block(f: (nat, nat) -> int, r: nat, c: nat): int
    decreases r
  {
    if r == 0 then 1 else Times(Block(f, r - 1, c), Line(f, r - 1, c))
  }

  function Line(f: (nat, nat) -> int, r: nat, c: nat): int {
    if c == 0 then 1 else Times(Line(f, r, c - 1), f(r, c - 1))
  }

  lemma TimesLaws(a: int, b: int, c: int, d: int)
    ensures Times(Times(a, b), Times(c, d)) == Times(Times(a, c), Times(b, d))
    ensures Times(1, a) == a == Times(a, 1)
  {
    assert a * b * (c * d) == a * c * (b * d);
  }

  // Adding a column to a rectangle.
  lemma {:induction false} BlockColumn(f: (nat, nat) -> int, r: nat, c: nat)
    ensures Block(f, r, c + 1) == Times(Block(f, r, c), Line((i: nat, j: nat) => f(j, i), c, r))
  {
    hide Times;
    var g := (i: nat, j: nat) => f(j, i);
    TimesLaws(1, 1, 1, 1);
    if r > 0 {
      BlockColumn(f, r - 1, c);
      TimesLaws(Block(f, r - 1, c), Line(g, c, r - 1), Line(f, r - 1, c), f(r - 1, c));
    }
  }

  // A product over a rectangle may be taken by rows or by columns.
  lemma {:induction false} BlockFlips(f: (nat, nat) -> int, g: (nat, nat) -> int, r: nat, c: nat)
    requires forall i: nat, j: nat :: g(i, j) == f(j, i)
    ensures Block(f, r, c) == Block(g, c, r)
  {
    hide Times;
    if c == 0 {
      EmptyBlock(f, r);
    } else {
      BlockFlips(f, g, r, c - 1);
      BlockColumn(f, r, c - 1);
      SameLine((i: nat, j: nat) => f(j, i), g, c - 1, r);
    }
  }

  lemma {:induction false} EmptyBlock(f: (nat, nat) -> int, r: nat)
    ensures Block(f, r, 0) == 1
  {
    if r > 0 { EmptyBlock(f, r - 1); }
  }

  lemma {:induction false} SameLine(f: (nat, nat) -> int, g: (nat, nat) -> int, r: nat, c: nat)
    requires forall j: nat :: j < c ==> f(r, j) == g(r, j)
    ensures Line(f, r, c) == Line(g, r, c)
  {
    if c > 0 { SameLine(f, g, r, c - 1); }
  }

  // Boxes outside the shape count as one, so the product over the shape is that
  // over a rectangle around it.
  function Factors(rows: Shape): (nat, nat) -> int {
    (r: nat, c: nat) => HookFactor(rows, r, c)
  }

  lemma {:induction false} RowIsLine(rows: Shape, r: nat, c: nat)
    requires r < |rows|
    ensures rows[r] <= c ==> Line(Factors(rows), r, c) == RowProduct(rows, r, rows[r])
    ensures c <= rows[r] ==> Line(Factors(rows), r, c) == RowProduct(rows, r, c)
  {
    hide Times;
    if c > 0 {
      RowIsLine(rows, r, c - 1);
      TimesLaws(Line(Factors(rows), r, c - 1), 1, 1, 1);
    }
  }

  lemma {:induction false} RowsAreBlock(rows: Shape, r: nat, c: nat)
    requires YoungShape(rows) && r <= |rows| && (rows != [] ==> c >= rows[0])
    ensures Rows(rows, r) == Block(Factors(rows), r, c)
  {
    hide Times;
    if r > 0 {
      RowsAreBlock(rows, r - 1, c);
      RowsFall(rows, 0, r - 1);
      RowIsLine(rows, r - 1, c);
    }
  }

  lemma {:induction false} SameBlock(f: (nat, nat) -> int, g: (nat, nat) -> int, r: nat, c: nat)
    requires forall i: nat, j: nat :: i < r && j < c ==> f(i, j) == g(i, j)
    ensures Block(f, r, c) == Block(g, r, c)
  {
    if r > 0 {
      SameBlock(f, g, r - 1, c);
      SameLine(f, g, r - 1, c);
    }
  }

  lemma FactorTransposed(rows: Shape, r: nat, c: nat)
    requires YoungShape(rows)
    ensures HookFactor(rows, r, c) == HookFactor(Transposed(rows), c, r)
  {
    var t := Transposed(rows);
    TransposedIsYoung(rows);
    if r < |rows| && c < rows[r] {
      HookTransposed(rows, r, c);
    } else if c < |t| && r < t[c] {
      BoxBothWays(rows, r, c);
    }
  }

  // The product of the hook lengths is that of the transposed shape.
  lemma HookProductTransposed(rows: Shape)
    requires YoungShape(rows)
    ensures HookProduct(Transposed(rows)) == HookProduct(rows)
  {
    var t := Transposed(rows);
    var w := if rows == [] then 0 else rows[0];
    TransposedIsYoung(rows);
    forall i: nat, j: nat ensures Factors(t)(i, j) == Factors(rows)(j, i) { FactorTransposed(rows, j, i); }
    RowsAreBlock(rows, |rows|, w);
    BlockFlips(Factors(rows), Factors(t), |rows|, w);
    RowsAreBlock(t, |t|, |rows|);
  }

  // ------------------------------------------------------------------ Dimension

  // The product of dim + c - r over the boxes of the first rows.
  function RowNumerator(dim: int, c: nat): int {
    if c == 0 then 1 else Times(RowNumerator(dim, c - 1), dim + c - 1)
  }

  function Numerator(rows: Shape, dim: int, r: nat): int
    requires r <= |rows|
  {
    if r == 0 then 1 else Times(Numerator(rows, dim, r - 1), RowNumerator(dim - (r - 1), rows[r - 1]))
  }

  // (k + 1) C(m + 1, k + 1) = (m + 1) C(m, k)
  lemma {:induction false} Absorb(m: nat, k: nat)
    ensures Times(k + 1, Choose(m + 1, k + 1)) == Times(m + 1, Choose(m, k))
  {
    if m == 0 {
      ChooseTooMany(0, k + 1);
      if k > 0 { ChooseTooMany(1, k + 1); ChooseTooMany(0, k); }
    } else {
      Absorb(m - 1, k);
      if k > 0 { Absorb(m - 1, k - 1); }
      AbsorbStep(m, k, Choose(m, k), Choose(m, k + 1), Choose(m - 1, k), if k > 0 then Choose(m - 1, k - 1) else 0);
    }
  }

  lemma AbsorbStep(m: nat, k: nat, a: int, b: int, c: int, d: int)
    requires Times(k + 1, b) == Times(m, c) && a == c + d && Times(k, a) == Times(m, d)
    ensures Times(k + 1, a + b) == Times(m + 1, a)
  {
    assert (k + 1) * (a + b) == k * a + a + (k + 1) * b;
    assert m * a == m * c + m * d;
  }

  // One row: rising factors.
  lemma {:induction false} RisingFactors(d: nat, n: nat)
    requires d > 0
    ensures RowNumerator(d, n) == Times(Choose(d + n - 1, n), Factorial(n))
  {
    if n > 0 {
      RisingFactors(d, n - 1);
      Absorb(d + n - 2, n - 1);
      RisingStep(Choose(d + n - 2, n - 1), Factorial(n - 1), d + n - 1, n, Choose(d + n - 1, n));
    }
  }

  lemma RisingStep(c: int, f: int, m: int, n: int, e: int)
    requires Times(n, e) == Times(m, c)
    ensures Times(Times(c, f), m) == Times(e, n * f)
  {
    assert c * f * m == m * c * f;
    assert e * (n * f) == n * e * f;
  }

  // (k + 1) C(m, k + 1) = (m - k) C(m, k)
  lemma AbsorbBelow(m: nat, k: nat)
    ensures Times(k + 1, Choose(m, k + 1)) == Times(m - k, Choose(m, k))
  {
    Absorb(m, k);
    var a, b := Choose(m, k), Choose(m, k + 1);
    assert Choose(m + 1, k + 1) == a + b;
    assert (k + 1) * (a + b) == (k + 1) * a + (k + 1) * b;
    assert (m + 1) * a == (m - k) * a + (k + 1) * a;
  }

  function OneColumn(n: nat): (rows: Shape)
    ensures |rows| == n && forall i :: 0 <= i < n ==> rows[i] == 1
  {
    seq(n, i => 1)
  }

  // One column: falling factors.
  lemma {:induction false} FallingFactors(d: nat, n: nat, r: nat)
    requires r <= n
    ensures Numerator(OneColumn(n), d, r) == Times(Choose(d, r), Factorial(r))
  {
    if r > 0 {
      FallingFactors(d, n, r - 1);
      AbsorbBelow(d, r - 1);
      var m := d - (r - 1);
      assert RowNumerator(m, 1) == m by { assert RowNumerator(m, 0) == 1; }
      RisingStep(Choose(d, r - 1), Factorial(r - 1), m, r, Choose(d, r));
    }
  }

  lemma FactorialStep(k: nat)
    ensures Factorial(k + 1) == Times(k + 1, Factorial(k))
  {
  }

  lemma OneRowHook(n: nat, c: nat)
    requires c < n
    ensures HookFactor([n], 0, c) == n - c
  {
    assert ColumnSize([n], c) == 1;
  }

  lemma {:induction false} OneRowHooks(n: nat, c: nat)
    requires 0 < n && c <= n
    ensures Times(RowProduct([n], 0, c), Factorial(n - c)) == Factorial(n)
  {
    hide Times, HookFactor, Factorial;
    TimesLaws(Factorial(n), 1, 1, 1);
    if c > 0 {
      OneRowHooks(n, c - 1);
      OneRowHook(n, c - 1);
      FactorialStep(n - c);
      TimesAssociate(RowProduct([n], 0, c - 1), n - c + 1, Factorial(n - c));
    }
  }

  lemma TimesAssociate(a: int, b: int, c: int)
    ensures Times(Times(a, b), c) == Times(a, Times(b, c))
  {
    assert (a * b) * c == a * (b * c);
  }

  // One row of n boxes: the product of the hooks is n!, and the dimension is
  // C(dim + n - 1, n).
  lemma OneRowDimension(n: nat, dim: nat)
    requires n > 0
    ensures HookProduct([n]) == Factorial(n)
    ensures Numerator([n], dim, 1) == Times(if dim == 0 then 0 else Choose(dim + n - 1, n), HookProduct([n]))
  {
    OneRowHooks(n, n);
    assert Rows([n], 0) == 1 && Factorial(0) == 1;
    TimesLaws(RowProduct([n], 0, n), 1, 1, 1);
    assert Numerator([n], dim, 0) == 1;
    TimesLaws(RowNumerator(dim, n), 1, 1, 1);
    if dim > 0 { RisingFactors(dim, n); } else { NoFactors(n); }
  }

  lemma {:induction false} NoFactors(n: nat)
    requires n > 0
    ensures RowNumerator(0, n) == 0
  {
    if n > 1 { NoFactors(n - 1); } else { assert RowNumerator(0, 0) == 1; }
  }

  lemma Multiple(a: int, b: int, q: int)
    requires b > 0 && a == Times(q, b)
    ensures a % b == 0 && a / b == q
  {
    hide Times;
    Remainder(a, b, a / b, a % b, q);
  }

  lemma Remainder(a: int, b: int, k: int, m: int, q: int)
    requires b > 0 && a == Times(q, b) && a == b * k + m && 0 <= m < b
    ensures m == 0 && k == q
  {
    assert (q - k) * b == q * b - b * k;
    Squeeze(q - k, b, m);
  }

  lemma Squeeze(d: int, b: int, m: int)
    requires d * b == m && 0 <= m < b
    ensures d == 0
  {
    if d >= 1 { AtLeast(d, b); } else if d <= -1 { AtLeast(-d, b); }
  }

  lemma AtLeast(d: int, b: int)
    requires d >= 1 && b > 0
    ensures d * b >= b
  {
    assert d * b == (d - 1) * b + b;
  }

  // One column of n boxes: C(dim, n).
  lemma OneColumnDimension(n: nat, dim: nat)
    requires n > 0
    ensures YoungShape(OneColumn(n)) && HookProduct(OneColumn(n)) == Factorial(n)
    ensures Numerator(OneColumn(n), dim, n) == Times(Choose(dim, n), HookProduct(OneColumn(n)))
  {
    var rows := OneColumn(n);
    BoxBothWays(rows, 0, 0);
    assert ColumnSize(rows, 0) == n;
    assert Transposed(rows) == [n];
    HookProductTransposed(rows);
    OneRowDimension(n, dim);
    FallingFactors(dim, n, n);
  }

  lemma {:induction false} HooksPositive(rows: Shape, r: nat, c: nat)
    requires YoungShape(rows) && r < |rows| && c <= rows[r]
    ensures RowProduct(rows, r, c) > 0
  {
    if c > 0 {
      HooksPositive(rows, r, c - 1);
      BoxBothWays(rows, r, c - 1);
      PositiveTimes(RowProduct(rows, r, c - 1), HookFactor(rows, r, c - 1));
    }
  }

  lemma PositiveTimes(a: int, b: int)
    requires a > 0 && b > 0
    ensures Times(a, b) > 0
  {
  }

  lemma {:induction false} RowsPositive(rows: Shape, r: nat)
    requires YoungShape(rows) && r <= |rows|
    ensures Rows(rows, r) > 0
  {
    if r > 0 {
      RowsPositive(rows, r - 1);
      HooksPositive(rows, r - 1, rows[r - 1]);
      PositiveTimes(Rows(rows, r - 1), RowProduct(rows, r - 1, rows[r - 1]));
    }
  }

  // ------------------------------------------------------------------ The loops

  method ColumnSizeOf(rows: Shape, c: nat) returns (r: nat)
    requires YoungShape(rows)
    ensures r == ColumnSize(rows, c)
  {
    r := 0;
    while r < |rows|
      invariant r <= |rows| && forall i :: 0 <= i < r ==> rows[i] > c
    {
      if rows[r] - 1 < c { break; }
      r := r + 1;
    }
  }

  method HookLength(rows: Shape, row: nat, col: nat) returns (hook: int)
    requires YoungShape(rows) && row < |rows| && col < rows[row]
    ensures hook == Arm(rows, row, col) + Leg(rows, row, col) + 1
  {
    hook := rows[row] - col;
    var i := row + 1;
    BoxBothWays(rows, row, col);
    while i < |rows| && col < rows[i]
      invariant row < i <= ColumnSize(rows, col) && hook == rows[row] - col + (i - row - 1)
    {
      BoxBothWays(rows, i, col);
      hook := hook + 1;
      i := i + 1;
    }
  }

  method HookLengthProd(rows: Shape) returns (hook: int)
    requires YoungShape(rows)
    ensures hook == HookProduct(rows)
  {
    hide Times;
    hook := 1;
    for i := 0 to |rows|
      invariant hook == Rows(rows, i)
    {
      ghost var above := hook;
      TimesLaws(above, 1, 1, 1);
      for j := 0 to rows[i]
        invariant hook == Times(above, RowProduct(rows, i, j))
      {
        var h := HookLength(rows, i, j);
        TimesAgain(above, RowProduct(rows, i, j), h);
        hook := hook * h;
      }
    }
  }

  lemma TimesAgain(a: int, b: int, c: int)
    ensures Times(a, b) * c == Times(a, Times(b, c))
  {
    assert (a * b) * c == a * (b * c);
  }

  // The source asserts that the division is exact.
  ghost predicate Exact(rows: Shape, dim: int) {
    HookProduct(rows) != 0 && Numerator(rows, dim, |rows|) % HookProduct(rows) == 0
  }

  // On one row and on one column it is, and the dimension is binomial.
  lemma BinomialDimensions(n: nat, dim: nat)
    requires n > 0
    ensures Exact([n], dim)
    ensures Numerator([n], dim, 1) / HookProduct([n]) == if dim == 0 then 0 else Choose(dim + n - 1, n)
    ensures Exact(OneColumn(n), dim) && Numerator(OneColumn(n), dim, n) / HookProduct(OneColumn(n)) == Choose(dim, n)
  {
    hide Times, HookProduct, Numerator, Choose;
    OneRowDimension(n, dim);
    OneColumnDimension(n, dim);
    Multiple(Numerator([n], dim, 1), HookProduct([n]), if dim == 0 then 0 else Choose(dim + n - 1, n));
    Multiple(Numerator(OneColumn(n), dim, n), HookProduct(OneColumn(n)), Choose(dim, n));
  }

  lemma ExactDivision(a: int, b: int)
    requires b != 0 && a % b == 0
    ensures Times(a / b, b) == a
  {
  }
}
