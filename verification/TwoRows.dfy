// A function of tableaux that the results about straightening apply to: on at most
// two rows, the product of the differences down the columns.

module TwoRows {
  import opened Signs
  import opened Generator
  import opened Tableaux
  import opened Garnir
  import opened StandardForm

  function Fall(x: seq<int>): int {
    if |x| == 2 then x[1] - x[0] else 1
  }

  function Falls(t: IntTableau, m: nat): int {
    if m == 0 then 1 else Falls(t, m - 1) * Fall(Column(t, m - 1))
  }

  function Differences(t: IntTableau): real {
    if 1 <= |t| <= 2 then Falls(t, |t[0]|) as real else 0.0
  }

  // ------------------------------------------------------------- Antisymmetry

  lemma {:induction false} OneFallNegated(t: IntTableau, u: IntTableau, c: nat, m: nat)
    requires forall d: nat :: d != c ==> Column(u, d) == Column(t, d)
    requires Fall(Column(u, c)) == -Fall(Column(t, c))
    ensures Falls(u, m) == if c < m then -Falls(t, m) else Falls(t, m)
  {
    hide Column, Fall;
    if m > 0 {
      OneFallNegated(t, u, c, m - 1);
      var x, y := Falls(t, m - 1), Fall(Column(t, m - 1));
      assert -x * y == -(x * y) && x * -y == -(x * y);
    }
  }

  lemma ColumnsAreAntisymmetric()
    ensures ColumnAntisymmetric(Differences)
  {
    hide Column;
    forall t, c, i, j | Proper(t) && 0 <= i < j < |Column(t, c)| ensures SwappedSign(Differences, t, c, i, j) {
      var u := SetColumn(t, c, Swap(Column(t, c), i, j));
      SetColumnShape(t, c, Swap(Column(t, c), i, j));
      if |t| <= 2 { SwapNegates(t, c, i, j, u); }
    }
  }

  lemma SwapNegates(t: IntTableau, c: nat, i: nat, j: nat, u: IntTableau)
    requires Proper(t) && |t| <= 2 && i < j < |Column(t, c)| && u == SetColumn(t, c, Swap(Column(t, c), i, j))
    ensures |u| == |t| && |u[0]| == |t[0]| && Falls(u, |t[0]|) == -Falls(t, |t[0]|)
  {
    var x := Column(t, c);
    SetColumnShape(t, c, Swap(x, i, j));
    ColumnSize(t, c, 0);
    ColumnCell(t, c, 0);
    forall d: nat ensures Column(u, d) == if d == c then Swap(x, i, j) else Column(t, d) {
      SetColumnColumn(t, c, Swap(x, i, j), d);
    }
    assert |x| == 2 && i == 0 && j == 1;
    OneFallNegated(t, u, c, |t[0]|);
  }

  // -------------------------------------------------------------- The shuffles

  lemma ListedShuffles(P: Problem, ws: seq<seq<nat>>)
    requires Plain(P) && LexSorted(ws) && forall w :: w in ws <==> IsArrangement(P, w)
    ensures Generated(P) == ws
  {
    PlainGenerated(P);
    SortedUnique(Generated(P), ws);
  }

  ghost predicate Splits(P: Problem, a: nat, b: nat) {
    P == Problem(a + b, [a, b], [], false, [], [], []) && a > 0 && b > 0 && Plain(P) && P.Length() == a + b
  }

  lemma SplitArrangement(P: Problem, a: nat, b: nat, w: seq<nat>)
    requires Splits(P, a, b)
    ensures IsArrangement(P, w) <==>
      && |w| == a + b && InRange(a + b, w) && Distinct(w)
      && (forall k :: 0 < k < |w| && k != a ==> w[k - 1] < w[k])
  {
    TwoGroupEnds(P.sublengths);
    forall k: nat | 0 < k < a + b ensures GroupBoundary(P.sublengths, k) <==> k == a {
      if k != a { TwoGroups(P.sublengths, k); }
    }
  }

  lemma OneAndOne(P: Problem)
    requires Splits(P, 1, 1)
    ensures Generated(P) == [[0, 1], [1, 0]]
  {
    var ws: seq<seq<nat>> := [[0, 1], [1, 0]];
    forall w ensures w in ws <==> IsArrangement(P, w) {
      SplitArrangement(P, 1, 1, w);
      if |w| == 2 { assert w == [w[0], w[1]]; }
    }
    LexFirst(ws[0], ws[1], 0);
    ListedShuffles(P, ws);
  }

  lemma LexFirst(u: seq<nat>, w: seq<nat>, k: nat)
    requires k < |u| && k < |w| && u[..k] == w[..k] && u[k] < w[k]
    ensures LexLess(u, w)
  {
  }

  lemma TwoAndOne(P: Problem)
    requires Splits(P, 2, 1)
    ensures Generated(P) == [[0, 1, 2], [0, 2, 1], [1, 2, 0]]
  {
    var ws: seq<seq<nat>> := [[0, 1, 2], [0, 2, 1], [1, 2, 0]];
    forall w ensures w in ws <==> IsArrangement(P, w) {
      SplitArrangement(P, 2, 1, w);
      if |w| == 3 { assert w == [w[0], w[1], w[2]]; }
    }
    LexFirst(ws[0], ws[1], 1);
    LexFirst(ws[0], ws[2], 0);
    LexFirst(ws[1], ws[2], 0);
    ListedShuffles(P, ws);
  }

  lemma OneAndTwo(P: Problem)
    requires Splits(P, 1, 2)
    ensures Generated(P) == [[0, 1, 2], [1, 0, 2], [2, 0, 1]]
  {
    var ws: seq<seq<nat>> := [[0, 1, 2], [1, 0, 2], [2, 0, 1]];
    forall w ensures w in ws <==> IsArrangement(P, w) {
      SplitArrangement(P, 1, 2, w);
      if |w| == 3 { assert w == [w[0], w[1], w[2]]; }
    }
    LexFirst(ws[0], ws[1], 0);
    LexFirst(ws[0], ws[2], 0);
    LexFirst(ws[1], ws[2], 0);
    ListedShuffles(P, ws);
  }

  lemma SmallSigns()
    ensures Sign([0, 1]) == 1 && Sign([1, 0]) == -1
    ensures Sign([0, 1, 2]) == 1 && Sign([0, 2, 1]) == -1 && Sign([1, 2, 0]) == 1
    ensures Sign([1, 0, 2]) == -1 && Sign([2, 0, 1]) == 1
  {
    assert Inversions([]) == 0 && Inversions([0]) == 0 && Inversions([1]) == 0 && Inversions([2]) == 0;
    Pair(0, 1); Pair(1, 0); Pair(1, 2); Pair(2, 1); Pair(2, 0); Pair(0, 2);
    Triple(0, 1, 2); Triple(0, 2, 1); Triple(1, 2, 0); Triple(1, 0, 2); Triple(2, 0, 1);
  }

  lemma Pair(x: int, y: int)
    ensures Inversions([x, y]) == if y < x then 1 else 0
  {
    assert [x, y][1..] == [y] && [y][1..] == [];
    OneLess(y, x);
    assert Inversions([y]) == 0;
  }

  lemma OneLess(y: int, x: int)
    ensures CountLess([y], x) == if y < x then 1 else 0
  {
    assert [y][1..] == [];
  }

  lemma Triple(x: int, y: int, z: int)
    ensures Inversions([x, y, z]) == (if y < x then 1 else 0) + (if z < x then 1 else 0) + (if z < y then 1 else 0)
  {
    Pair(y, z);
    assert [x, y, z][1..] == [y, z] && [y, z][1..] == [z];
    OneLess(z, x);
  }

  // ---------------------------------------------------------- Garnir relations

  // All columns but c and c + 1.
  function Rest(t: IntTableau, c: nat, m: nat): int {
    if m == 0 then 1
    else if m - 1 == c || m - 1 == c + 1 then Rest(t, c, m - 1)
    else Rest(t, c, m - 1) * Fall(Column(t, m - 1))
  }

  lemma {:induction false} FallsSplit(t: IntTableau, u: IntTableau, c: nat, m: nat)
    requires forall d: nat :: d != c && d != c + 1 ==> Column(u, d) == Column(t, d)
    ensures Falls(u, m) == Rest(t, c, m)
      * (if c < m then Fall(Column(u, c)) else 1) * (if c + 1 < m then Fall(Column(u, c + 1)) else 1)
  {
    hide Column, Fall;
    if m > 0 {
      FallsSplit(t, u, c, m - 1);
      var R, f, g, h := Rest(t, c, m - 1), Fall(Column(u, c)), Fall(Column(u, c + 1)), Fall(Column(u, m - 1));
      Commute(R, if c < m - 1 then f else 1, if c + 1 < m - 1 then g else 1, h);
    }
  }

  lemma Commute(r: int, x: int, y: int, h: int)
    ensures r * x * y * h == r * h * x * y
  {
  }

  lemma ExchangeValue(t: IntTableau, r: nat, c: nat, p: seq<int>)
    requires At(t, r, c) && |t| <= 2 && |p| == |Exchangeable(t, r, c)|
    ensures Differences(Exchanged(t, r, c, p)) ==
      (Rest(t, c, |t[0]|) * Fall(LeftColumn(t, r, c, p)) * Fall(RightColumn(t, r, c, p))) as real
  {
    hide Column, Fall, LeftColumn, RightColumn, Exchanged;
    var u := Exchanged(t, r, c, p);
    forall d: nat ensures Column(u, d) ==
      if d == c then LeftColumn(t, r, c, p) else if d == c + 1 then RightColumn(t, r, c, p) else Column(t, d)
    {
      ExchangedColumns(t, r, c, p, d);
    }
    ExchangedColumns(t, r, c, p, 0);
    FirstRowLongest(t, r);
    FallsSplit(t, u, c, |t[0]|);
  }

  lemma FirstRowLongest(t: IntTableau, r: nat)
    requires YoungRows(t) && r < |t|
    ensures |t[r]| <= |t[0]|
  {
    YoungRowsChain(t, 0, r);
  }

  lemma ShapesVanish(t: IntTableau, r: nat, c: nat, n: nat)
    requires At(t, r, c) && n <= |Shuffles(t, r, c)| && |t| > 2
    ensures GarnirSum(Differences, t, r, c, n) == 0.0
  {
    hide Shuffles, Exchanged;
    if n > 0 {
      ShapesVanish(t, r, c, n - 1);
      ShufflesAre(t, r, c, Shuffles(t, r, c)[n - 1]);
      ExchangedColumns(t, r, c, Pick(Exchangeable(t, r, c), Shuffles(t, r, c)[n - 1]), 0);
    }
  }

  lemma TwoTerms(t: IntTableau, r: nat, c: nat)
    requires At(t, r, c) && Shuffles(t, r, c) == [[0, 1], [1, 0]]
    ensures GarnirSum(Differences, t, r, c, 2)
         == Differences(ExchangedBy(t, r, c, 0)) - Differences(ExchangedBy(t, r, c, 1))
  {
    hide ExchangedBy, Sign;
    SmallSigns();
    assert GarnirSum(Differences, t, r, c, 0) == 0.0;
    assert GarnirSum(Differences, t, r, c, 1) == Differences(ExchangedBy(t, r, c, 0));
  }

  lemma ThreeTerms(t: IntTableau, r: nat, c: nat)
    requires At(t, r, c)
    requires Shuffles(t, r, c) == [[0, 1, 2], [0, 2, 1], [1, 2, 0]]
      || Shuffles(t, r, c) == [[0, 1, 2], [1, 0, 2], [2, 0, 1]]
    ensures GarnirSum(Differences, t, r, c, 3)
         == Differences(ExchangedBy(t, r, c, 0)) - Differences(ExchangedBy(t, r, c, 1))
           + Differences(ExchangedBy(t, r, c, 2))
  {
    hide ExchangedBy, Sign;
    SmallSigns();
    assert GarnirSum(Differences, t, r, c, 0) == 0.0;
    assert GarnirSum(Differences, t, r, c, 1) == Differences(ExchangedBy(t, r, c, 0));
    assert GarnirSum(Differences, t, r, c, 2)
        == Differences(ExchangedBy(t, r, c, 0)) - Differences(ExchangedBy(t, r, c, 1));
  }

  // What one exchange is worth, from the columns it leaves.
  lemma TermValue(t: IntTableau, r: nat, c: nat, k: nat)
    requires At(t, r, c) && |t| <= 2 && k < |Shuffles(t, r, c)|
    ensures InRange(|Exchangeable(t, r, c)|, Shuffles(t, r, c)[k]) && |Shuffles(t, r, c)[k]| == |Exchangeable(t, r, c)|
    ensures var p := Pick(Exchangeable(t, r, c), Shuffles(t, r, c)[k]);
      Differences(ExchangedBy(t, r, c, k))
        == (Rest(t, c, |t[0]|) * Fall(LeftColumn(t, r, c, p)) * Fall(RightColumn(t, r, c, p))) as real
  {
    hide Shuffles, Exchanged, LeftColumn, RightColumn, Fall, Rest, Differences;
    ShufflesAre(t, r, c, Shuffles(t, r, c)[k]);
    ExchangeValue(t, r, c, Pick(Exchangeable(t, r, c), Shuffles(t, r, c)[k]));
  }

  lemma ShufflesHere(t: IntTableau, r: nat, c: nat)
    requires At(t, r, c)
    ensures Splits(GarnirProblem(t, r, c), Below(t, r, c), r + 1)
  {
    GarnirProblemIs(t, r, c);
  }

  // The falls of the two columns after exchange number k.
  function TwoFalls(t: IntTableau, r: nat, c: nat, p: seq<int>): int
    requires At(t, r, c) && |p| == |Exchangeable(t, r, c)|
  {
    Fall(LeftColumn(t, r, c, p)) * Fall(RightColumn(t, r, c, p))
  }

  lemma OneRowBelow(t: IntTableau, r: nat, c: nat)
    requires At(t, r, c) && |t| <= 2 && |Column(t, c)| == 1
    ensures GarnirSum(Differences, t, r, c, |Shuffles(t, r, c)|) == 0.0
  {
    hide Generated, Exchangeable, Column, ExchangedBy, Differences, Rest;
    AtSizes(t, r, c);
    ShufflesHere(t, r, c);
    OneAndOne(GarnirProblem(t, r, c));
    TwoTerms(t, r, c);
    TermValue(t, r, c, 0);
    TermValue(t, r, c, 1);
  }

  lemma Plucker(a: int, b: int, y: int, z: int)
    ensures (b - a) * (z - y) - (y - a) * (z - b) + (z - a) * (y - b) == 0
  {
  }

  lemma ThreeCancel(m: int, x: int, y: int, z: int)
    requires x - y + z == 0
    ensures (m * x) as real - (m * y) as real + (m * z) as real == 0.0
  {
    assert m * x - m * y + m * z == m * (x - y + z);
  }

  lemma Associates(m: int, x: int, y: int)
    ensures m * x * y == m * (x * y)
  {
  }

  lemma ThreeTermsVanish(t: IntTableau, r: nat, c: nat, p: seq<int>, q: seq<int>, s: seq<int>)
    requires At(t, r, c) && |t| <= 2
    requires Shuffles(t, r, c) == [[0, 1, 2], [0, 2, 1], [1, 2, 0]]
      || Shuffles(t, r, c) == [[0, 1, 2], [1, 0, 2], [2, 0, 1]]
    requires |Exchangeable(t, r, c)| == 3
    requires p == Pick(Exchangeable(t, r, c), Shuffles(t, r, c)[0])
    requires q == Pick(Exchangeable(t, r, c), Shuffles(t, r, c)[1])
    requires s == Pick(Exchangeable(t, r, c), Shuffles(t, r, c)[2])
    requires TwoFalls(t, r, c, p) - TwoFalls(t, r, c, q) + TwoFalls(t, r, c, s) == 0
    ensures GarnirSum(Differences, t, r, c, 3) == 0.0
  {
    hide Exchangeable, LeftColumn, RightColumn, Fall, ExchangedBy, Differences, Rest, Shuffles, GarnirSum;
    ThreeTerms(t, r, c);
    TermValue(t, r, c, 0);
    TermValue(t, r, c, 1);
    TermValue(t, r, c, 2);
    var m := Rest(t, c, |t[0]|);
    Associates(m, Fall(LeftColumn(t, r, c, p)), Fall(RightColumn(t, r, c, p)));
    Associates(m, Fall(LeftColumn(t, r, c, q)), Fall(RightColumn(t, r, c, q)));
    Associates(m, Fall(LeftColumn(t, r, c, s)), Fall(RightColumn(t, r, c, s)));
    ThreeCancel(m, TwoFalls(t, r, c, p), TwoFalls(t, r, c, q), TwoFalls(t, r, c, s));
  }

  lemma TopRow(t: IntTableau, c: nat)
    requires At(t, 0, c) && |t| <= 2 && |Column(t, c)| == 2
    ensures GarnirSum(Differences, t, 0, c, |Shuffles(t, 0, c)|) == 0.0
  {
    hide Generated, Column, GarnirSum;
    AtSizes(t, 0, c);
    ShufflesHere(t, 0, c);
    TwoAndOne(GarnirProblem(t, 0, c));
    var u, v, x := Column(t, c), Column(t, c + 1), Exchangeable(t, 0, c);
    assert x == [u[0], u[1], v[0]];
    var p, q, s := [u[0], u[1], v[0]], [u[0], v[0], u[1]], [u[1], v[0], u[0]];
    TopRowFalls(t, c, p);
    TopRowFalls(t, c, q);
    TopRowFalls(t, c, s);
    if |v| == 2 { Plucker(u[0], u[1], v[0], v[1]); }
    ThreeTermsVanish(t, 0, c, p, q, s);
  }

  lemma TopRowFalls(t: IntTableau, c: nat, p: seq<int>)
    requires At(t, 0, c) && |t| <= 2 && |Column(t, c)| == 2 && |p| == 3 && 1 <= |Column(t, c + 1)| <= 2
    ensures |Exchangeable(t, 0, c)| == 3
    ensures TwoFalls(t, 0, c, p) == (p[1] - p[0]) * if |Column(t, c + 1)| == 2 then Column(t, c + 1)[1] - p[2] else 1
  {
    hide Column;
    assert LeftColumn(t, 0, c, p) == [p[0], p[1]];
    assert RightColumn(t, 0, c, p) == [p[2]] + Column(t, c + 1)[1..];
  }

  lemma BottomRow(t: IntTableau, c: nat)
    requires At(t, 1, c) && |t| == 2
    ensures GarnirSum(Differences, t, 1, c, |Shuffles(t, 1, c)|) == 0.0
  {
    hide Generated, Column, GarnirSum;
    AtSizes(t, 1, c);
    ShufflesHere(t, 1, c);
    OneAndTwo(GarnirProblem(t, 1, c));
    var u, v, x := Column(t, c), Column(t, c + 1), Exchangeable(t, 1, c);
    assert x == [u[1], v[0], v[1]];
    var p, q, s := [u[1], v[0], v[1]], [v[0], u[1], v[1]], [v[1], u[1], v[0]];
    BottomRowFalls(t, c, p);
    BottomRowFalls(t, c, q);
    BottomRowFalls(t, c, s);
    Plucker(u[0], u[1], v[0], v[1]);
    ThreeTermsVanish(t, 1, c, p, q, s);
  }

  lemma BottomRowFalls(t: IntTableau, c: nat, p: seq<int>)
    requires At(t, 1, c) && |t| == 2 && |Column(t, c)| == 2 && |p| == 3 && |Column(t, c + 1)| == 2
    ensures |Exchangeable(t, 1, c)| == 3
    ensures TwoFalls(t, 1, c, p) == (p[0] - Column(t, c)[0]) * (p[2] - p[1])
  {
    hide Column;
    assert LeftColumn(t, 1, c, p) == [Column(t, c)[0], p[0]];
    assert RightColumn(t, 1, c, p) == [p[1], p[2]];
  }

  // So the results about straightening speak of more than the zero function.
  lemma DifferencesQualify()
    ensures ColumnAntisymmetric(Differences) && ObeysGarnir(Differences) && Differences([[1], [2]]) == 1.0
  {
    ColumnsAreAntisymmetric();
    forall t, r, c | Proper(t) && At(t, r, c)
      ensures GarnirSum(Differences, t, r, c, |Shuffles(t, r, c)|) == 0.0
    {
      GarnirVanishes(t, r, c);
    }
    OneColumn([[1], [2]]);
  }

  lemma OneColumn(t: IntTableau)
    requires t == [[1], [2]]
    ensures Differences(t) == 1.0
  {
    assert ColumnFrom(t, 0, 2) == [] && ColumnFrom(t, 0, 1) == [2] + [] && ColumnFrom(t, 0, 0) == [1] + [2];
    assert Falls(t, 0) == 1 && Falls(t, 1) == 1;
  }

  lemma GarnirVanishes(t: IntTableau, r: nat, c: nat)
    requires Proper(t) && At(t, r, c)
    ensures GarnirSum(Differences, t, r, c, |Shuffles(t, r, c)|) == 0.0
  {
    hide Column, GarnirSum, Shuffles, Differences;
    AtSizes(t, r, c);
    if |t| > 2 {
      ShapesVanish(t, r, c, |Shuffles(t, r, c)|);
    } else if |Column(t, c)| == 1 {
      OneRowBelow(t, r, c);
    } else if r == 0 {
      TopRow(t, c);
    } else {
      BottomRow(t, c);
    }
  }
}
