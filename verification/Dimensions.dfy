// tableau_base::dimension: the division it asserts to be exact always is.

module Dimensions {
  import opened LittlewoodRichardson
  import opened Counting
  import opened Hooks
  import opened Vandermonde

  // Shapes with empty rows at the end.
  ghost predicate Falling(s: Shape) {
    forall i, j :: 0 <= i <= j < |s| ==> s[j] <= s[i]
  }

  // Row lengths made different: l_i = s_i + n - 1 - i.
  function Spread(s: Shape): (l: seq<int>)
    ensures |l| == |s| && forall i :: 0 <= i < |l| ==> l[i] == s[i] + |s| - 1 - i
  {
    seq(|s|, i requires 0 <= i < |s| => s[i] + |s| - 1 - i)
  }

  // ------------------------------------------------------- The hooks of one row

  // The hooks of row r from column c on.
  function HooksFrom(s: Shape, r: nat, c: nat): int
    requires r < |s| && c <= s[r]
    decreases s[r] - c
  {
    if c == s[r] then 1 else Times(Hook(s, r, c), HooksFrom(s, r, c + 1))
  }

  // The differences between l_r and the l of the rows between r and j.
  function Gaps(s: Shape, r: nat, j: nat): int
    requires r < j <= |s|
  {
    if j == r + 1 then 1 else Times(Gaps(s, r, j - 1), s[r] - s[j - 1] + j - 1 - r)
  }

  // Along the rim of the shape, from the end of row r to column c of row j, hooks
  // and differences fill up the numbers below.
  lemma {:induction false} Rim(s: Shape, r: nat, c: nat, j: nat)
    requires Falling(s) && r < j <= |s| && c <= s[j - 1] && c <= s[r] && (j < |s| ==> s[j] <= c)
    ensures Times(HooksFrom(s, r, c), Gaps(s, r, j)) == Factorial(s[r] - c + j - r - 1)
    decreases s[r] - c + j - r
  {
    hide Times, Factorial, Hook;
    if c < s[j - 1] {
      Rim(s, r, c + 1, j);
      RimHook(s, r, c, j);
      FactorialStep(s[r] - c + j - r - 2);
      TimesAssociate(Hook(s, r, c), HooksFrom(s, r, c + 1), Gaps(s, r, j));
    } else if j > r + 1 {
      Rim(s, r, c, j - 1);
      FactorialStep(s[r] - c + j - r - 2);
      MoveOut(HooksFrom(s, r, c), Gaps(s, r, j - 1), s[r] - s[j - 1] + j - 1 - r);
    } else {
      FactorialOfZero();
      TimesLaws(1, 1, 1, 1);
    }
  }

  lemma MoveOut(a: int, b: int, c: int)
    ensures Times(a, Times(b, c)) == Times(c, Times(a, b))
  {
    assert a * (b * c) == c * (a * b);
  }

  lemma RimHook(s: Shape, r: nat, c: nat, j: nat)
    requires Falling(s) && r < j <= |s| && c < s[j - 1] && (j < |s| ==> s[j] <= c)
    ensures Hook(s, r, c) == s[r] - c + j - r - 1
  {
    ColumnSizeIs(s, c, j);
  }

  lemma ColumnSizeIs(s: Shape, c: nat, j: nat)
    requires Falling(s) && j <= |s| && (j > 0 ==> c < s[j - 1]) && (j < |s| ==> s[j] <= c)
    ensures ColumnSize(s, c) == j
  {
    assert forall r :: 0 <= r < j ==> s[j - 1] <= s[r];
  }

  lemma {:induction false} RowSplits(s: Shape, r: nat, c: nat)
    requires r < |s| && c <= s[r]
    ensures Times(RowProduct(s, r, c), HooksFrom(s, r, c)) == RowProduct(s, r, s[r])
    decreases s[r] - c
  {
    hide Times, Hook;
    if c < s[r] {
      RowSplits(s, r, c + 1);
      TimesAssociate(RowProduct(s, r, c), Hook(s, r, c), HooksFrom(s, r, c + 1));
    } else {
      TimesLaws(RowProduct(s, r, c), 1, 1, 1);
    }
  }

  // The hooks of row r times its differences to all later rows are l_r!.
  lemma RowHooks(s: Shape, r: nat)
    requires Falling(s) && r < |s|
    ensures Times(RowProduct(s, r, s[r]), Gaps(s, r, |s|)) == Factorial(s[r] + |s| - 1 - r)
  {
    hide Times, Factorial, HooksFrom, Gaps, RowProduct;
    RowSplits(s, r, 0);
    NoColumns(s, r);
    TimesLaws(HooksFrom(s, r, 0), 1, 1, 1);
    Rim(s, r, 0, |s|);
  }

  lemma NoColumns(s: Shape, r: nat)
    ensures RowProduct(s, r, 0) == 1
  {
  }

  // --------------------------------------------------------------- All the rows

  function AllGaps(s: Shape, r: nat): int
    requires r <= |s|
  {
    if r == 0 then 1 else Times(AllGaps(s, r - 1), Gaps(s, r - 1, |s|))
  }

  function AllFactorials(s: Shape, r: nat): int
    requires r <= |s|
  {
    if r == 0 then 1 else Times(AllFactorials(s, r - 1), Factorial(s[r - 1] + |s| - r))
  }

  lemma {:induction false} HooksAndGaps(s: Shape, r: nat)
    requires Falling(s) && r <= |s|
    ensures Times(Rows(s, r), AllGaps(s, r)) == AllFactorials(s, r)
  {
    hide Times, Factorial, RowProduct, Gaps;
    TimesLaws(1, 1, 1, 1);
    if r > 0 {
      HooksAndGaps(s, r - 1);
      RowHooks(s, r - 1);
      TimesLaws(Rows(s, r - 1), RowProduct(s, r - 1, s[r - 1]), AllGaps(s, r - 1), Gaps(s, r - 1, |s|));
    }
  }

  lemma {:induction false} GapsAreFan(s: Shape, r: nat, j: nat)
    requires r < j <= |s|
    ensures Times(Gaps(s, r, j), Fan(Spread(s)[r], Spread(s)[j..])) == Fan(Spread(s)[r], Spread(s)[r + 1..])
    decreases j
  {
    hide Times;
    var l := Spread(s);
    if j == r + 1 {
      TimesLaws(Fan(l[r], l[j..]), 1, 1, 1);
    } else {
      GapsAreFan(s, r, j - 1);
      assert l[j - 1..][0] == l[j - 1] && l[j - 1..][1..] == l[j..];
      TimesAssociate(Gaps(s, r, j - 1), l[r] - l[j - 1], Fan(l[r], l[j..]));
    }
  }

  lemma {:induction false} GapsAreDifferences(s: Shape, r: nat)
    requires r <= |s|
    ensures Times(AllGaps(s, r), Differences(Spread(s)[r..])) == Differences(Spread(s))
  {
    hide Times, Gaps, Fan;
    var l := Spread(s);
    if r == 0 {
      assert l[0..] == l;
      TimesLaws(Differences(l), 1, 1, 1);
    } else {
      GapsAreDifferences(s, r - 1);
      GapsAreFan(s, r - 1, |s|);
      assert l[|s|..] == [];
      FanOfNone(l[r - 1]);
      TimesLaws(Gaps(s, r - 1, |s|), 1, 1, 1);
      assert l[r - 1..][0] == l[r - 1] && l[r - 1..][1..] == l[r..];
      TimesAssociate(AllGaps(s, r - 1), Gaps(s, r - 1, |s|), Differences(l[r..]));
    }
  }

  lemma FanOfNone(h: int)
    ensures Fan(h, []) == 1
  {
  }

  // The product of the hooks times the differences of the l_i is the product of
  // the l_i!.
  lemma HooksTimesDifferences(s: Shape)
    requires Falling(s)
    ensures Times(HookProduct(s), Differences(Spread(s))) == AllFactorials(s, |s|)
  {
    hide Times, AllGaps, AllFactorials, Rows;
    HooksAndGaps(s, |s|);
    GapsAreDifferences(s, |s|);
    assert Spread(s)[|s|..] == [];
    NoDifferences();
    TimesLaws(AllGaps(s, |s|), 1, 1, 1);
  }

  lemma NoDifferences()
    ensures Differences([]) == 1
  {
  }

  // --------------------------------------------------------------- The numerator

  lemma {:induction false} RisingFromFactorial(m: nat, c: nat)
    ensures Times(RowNumerator(m + 1, c), Factorial(m)) == Factorial(m + c)
  {
    hide Times, Factorial;
    TimesLaws(Factorial(m), 1, 1, 1);
    if c > 0 {
      RisingFromFactorial(m, c - 1);
      FactorialStep(m + c - 1);
      TimesFlip(RowNumerator(m + 1, c - 1), m + c);
      TimesAssociate(m + c, RowNumerator(m + 1, c - 1), Factorial(m));
    }
  }

  // With as many rows as dimensions, (n - 1)! ... (n - r)!.
  function FactorialsDown(n: nat, r: nat): int
    requires r <= n
  {
    if r == 0 then 1 else Times(FactorialsDown(n, r - 1), Factorial(n - r))
  }

  lemma {:induction false} NumeratorFactorials(s: Shape, r: nat)
    requires r <= |s|
    ensures Times(Numerator(s, |s|, r), FactorialsDown(|s|, r)) == AllFactorials(s, r)
  {
    hide Times, Factorial, RowNumerator;
    TimesLaws(1, 1, 1, 1);
    if r > 0 {
      NumeratorFactorials(s, r - 1);
      RisingFromFactorial(|s| - r, s[r - 1]);
      TimesLaws(Numerator(s, |s|, r - 1), RowNumerator(|s| - (r - 1), s[r - 1]),
        FactorialsDown(|s|, r - 1), Factorial(|s| - r));
    }
  }

  lemma {:induction false} FactorialsBothWays(n: nat, r: nat)
    requires r <= n
    ensures Times(FactorialsDown(n, r), Superfactorial(n - r)) == Superfactorial(n)
  {
    hide Times, Factorial;
    TimesLaws(Superfactorial(n), 1, 1, 1);
    if r > 0 {
      FactorialsBothWays(n, r - 1);
      TimesFlip(Superfactorial(n - r), Factorial(n - r));
      TimesAssociate(FactorialsDown(n, r - 1), Factorial(n - r), Superfactorial(n - r));
    }
  }

  // As many rows as dimensions: the numerator is a multiple of the hook product.
  lemma SquareExact(s: Shape)
    requires Falling(s)
    ensures Divides(HookProduct(s), Numerator(s, |s|, |s|))
  {
    hide Times, HookProduct, Numerator, Differences, Superfactorial, FactorialsDown, AllFactorials;
    var n, l := |s|, Spread(s);
    HooksTimesDifferences(s);
    NumeratorFactorials(s, n);
    FactorialsBothWays(n, n);
    SuperfactorialOfZero();
    TimesLaws(FactorialsDown(n, n), 1, 1, 1);
    SuperfactorialDivides(l, n);
    var q :| Differences(l) == Times(q, Superfactorial(n));
    TimesAssociate(HookProduct(s), q, Superfactorial(n));
    SuperfactorialPositive(n);
    Cancel(Numerator(s, n, n), Times(HookProduct(s), q), Superfactorial(n));
    TimesFlip(HookProduct(s), q);
  }

  lemma SuperfactorialOfZero()
    ensures Superfactorial(0) == 1
  {
  }

  lemma Cancel(a: int, b: int, f: int)
    requires f > 0 && Times(a, f) == Times(b, f)
    ensures a == b
  {
    assert (a - b) * f == a * f - b * f;
    Squeeze(a - b, f, 0);
  }

  // -------------------------------------------------------------------- Any shape

  // Empty rows up to d of them.
  function Padded(rows: Shape, d: nat): (s: Shape)
    requires |rows| <= d
    ensures |s| == d && forall i :: 0 <= i < d ==> s[i] == if i < |rows| then rows[i] else 0
  {
    rows + seq(d - |rows|, i => 0)
  }

  lemma PaddedFalls(rows: Shape, d: nat)
    requires YoungShape(rows) && |rows| <= d
    ensures Falling(Padded(rows, d))
  {
    forall i, j | 0 <= i <= j < d ensures Padded(rows, d)[j] <= Padded(rows, d)[i] {
      if j < |rows| { RowsFall(rows, i, j); }
    }
  }

  lemma PaddedColumn(rows: Shape, d: nat, c: nat)
    requires YoungShape(rows) && |rows| <= d
    ensures ColumnSize(Padded(rows, d), c) == ColumnSize(rows, c)
  {
    PaddedFalls(rows, d);
    ColumnSizeIs(Padded(rows, d), c, ColumnSize(rows, c));
  }

  lemma {:induction false} PaddedRow(rows: Shape, d: nat, r: nat, c: nat)
    requires YoungShape(rows) && |rows| <= d && r < |rows|
    ensures RowProduct(Padded(rows, d), r, c) == RowProduct(rows, r, c)
  {
    hide HookFactor, Padded;
    if c > 0 {
      PaddedRow(rows, d, r, c - 1);
      PaddedFactor(rows, d, r, c - 1);
    }
  }

  lemma PaddedFactor(rows: Shape, d: nat, r: nat, c: nat)
    requires YoungShape(rows) && |rows| <= d && r < |rows|
    ensures HookFactor(Padded(rows, d), r, c) == HookFactor(rows, r, c)
  {
    hide ColumnSize;
    PaddedColumn(rows, d, c);
    assert Padded(rows, d)[r] == rows[r];
  }

  lemma {:induction false} PaddedRows(rows: Shape, d: nat, r: nat)
    requires YoungShape(rows) && |rows| <= d && r <= d
    ensures Rows(Padded(rows, d), r) == Rows(rows, if r < |rows| then r else |rows|)
    ensures Numerator(Padded(rows, d), d, r) == Numerator(rows, d, if r < |rows| then r else |rows|)
  {
    hide Times, RowNumerator, RowProduct;
    if r > 0 {
      PaddedRows(rows, d, r - 1);
      if r <= |rows| {
        PaddedRow(rows, d, r - 1, rows[r - 1]);
      } else {
        EmptyRow(Padded(rows, d), d - (r - 1), r - 1);
        TimesLaws(Rows(rows, |rows|), 1, 1, 1);
        TimesLaws(Numerator(rows, d, |rows|), 1, 1, 1);
      }
    }
  }

  lemma EmptyRow(s: Shape, m: int, r: nat)
    ensures RowProduct(s, r, 0) == 1 && RowNumerator(m, 0) == 1
  {
  }

  // More rows than dimensions: a factor is zero.
  lemma {:induction false} TooManyRows(rows: Shape, d: nat, r: nat)
    requires YoungShape(rows) && d < r <= |rows|
    ensures Numerator(rows, d, r) == 0
  {
    hide Times, RowNumerator;
    if r == d + 1 { NoFactors(rows[d]); } else { TooManyRows(rows, d, r - 1); }
    TimesNought(Numerator(rows, d, r - 1), RowNumerator(d - (r - 1), rows[r - 1]));
  }

  // The division is exact for every shape and every dimension.
  lemma AlwaysExact(rows: Shape, dim: nat)
    requires YoungShape(rows)
    ensures Exact(rows, dim)
  {
    hide Times, HookProduct, Numerator;
    HookProductPositive(rows);
    if dim < |rows| {
      TooManyRows(rows, dim, |rows|);
    } else {
      PaddedFalls(rows, dim);
      SquareExact(Padded(rows, dim));
      PaddedProducts(rows, dim);
      var q :| Numerator(rows, dim, |rows|) == Times(q, HookProduct(rows));
      Multiple(Numerator(rows, dim, |rows|), HookProduct(rows), q);
    }
  }

  lemma HookProductPositive(rows: Shape)
    requires YoungShape(rows)
    ensures HookProduct(rows) > 0
  {
    RowsPositive(rows, |rows|);
  }

  lemma PaddedProducts(rows: Shape, d: nat)
    requires YoungShape(rows) && |rows| <= d
    ensures HookProduct(Padded(rows, d)) == HookProduct(rows)
    ensures Numerator(Padded(rows, d), d, d) == Numerator(rows, d, |rows|)
  {
    PaddedRows(rows, d, d);
  }

  // ------------------------------------------------------------------ The method

  // The result is the numerator divided by the product of the hooks, with nothing left.
  method Dimension(rows: Shape, dimension: nat) returns (ret: int)
    requires YoungShape(rows)
    ensures Exact(rows, dimension)
    ensures Times(ret, HookProduct(rows)) == Numerator(rows, dimension, |rows|)
  {
    hide Times, HookProduct;
    AlwaysExact(rows, dimension);
    ret := 1;
    var dim: int := dimension;
    for r := 0 to |rows|
      invariant ret == Numerator(rows, dimension, r) && dim == dimension - r
    {
      var backup := dim;
      ghost var above := ret;
      TimesLaws(above, 1, 1, 1);
      for c := 0 to rows[r]
        invariant dim == backup + c && ret == Times(above, RowNumerator(backup, c))
      {
        TimesAgain(above, RowNumerator(backup, c), dim);
        ret := ret * dim;
        dim := dim + 1;
      }
      dim := backup - 1;
    }
    var hooks := HookLengthProd(rows);
    ExactDivision(ret, hooks);
    ret := ret / hooks;
  }
}
