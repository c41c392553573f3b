// tableaux::standard_form: sort the columns of every tableau in the list and
// replace tableaux that are not standard by their Garnir exchanges.

module StandardForm {
  import opened Signs
  import opened Generator
  import opened Tableaux
  import opened Garnir
  import opened Symmetry
  import opened SymmetriserClass

  // A tableau of the list, with its multiplicity.
  datatype Entry = Entry(rows: IntTableau, multiplicity: real)

  // -------------------------------------------------- Functions on tableaux

  function SignedReal(s: int, x: real): real {
    if s == 1 then x else -x
  }

  ghost predicate Proper(t: IntTableau) {
    t != [] && YoungRows(t) && DistinctBoxes(t)
  }

  // Exchanging two boxes of one column changes the sign.
  ghost predicate ColumnAntisymmetric(F: IntTableau -> real) {
    forall t, c, i, j :: Proper(t) && 0 <= i < j < |Column(t, c)| ==> SwappedSign(F, t, c, i, j)
  }

  ghost predicate SwappedSign(F: IntTableau -> real, t: IntTableau, c: nat, i: nat, j: nat)
    requires Proper(t) && i < j < |Column(t, c)|
  {
    F(SetColumn(t, c, Swap(Column(t, c), i, j))) == -F(t)
  }

  // The k-th Garnir exchange at (r, c).
  ghost function ExchangedBy(t: IntTableau, r: nat, c: nat, k: nat): IntTableau
    requires At(t, r, c) && k < |Shuffles(t, r, c)|
  {
    ShufflesAre(t, r, c, Shuffles(t, r, c)[k]);
    Exchanged(t, r, c, Pick(Exchangeable(t, r, c), Shuffles(t, r, c)[k]))
  }

  // Signed sum of F over the first n exchanges.
  ghost function GarnirSum(F: IntTableau -> real, t: IntTableau, r: nat, c: nat, n: nat): real
    requires At(t, r, c) && n <= |Shuffles(t, r, c)|
  {
    if n == 0 then 0.0
    else GarnirSum(F, t, r, c, n - 1) + SignedReal(Sign(Shuffles(t, r, c)[n - 1]), F(ExchangedBy(t, r, c, n - 1)))
  }

  // The Garnir relations: the signed sum over all shuffles vanishes.
  ghost predicate ObeysGarnir(F: IntTableau -> real) {
    forall t, r, c :: Proper(t) && At(t, r, c) ==> GarnirSum(F, t, r, c, |Shuffles(t, r, c)|) == 0.0
  }

  // --------------------------------------------------------- Sorting a column

  // Order-isomorphic sequences have the same inversions.
  lemma {:induction false} SameOrderInversions(u: seq<int>, v: seq<int>)
    requires |u| == |v| && forall i, j :: 0 <= i < |u| && 0 <= j < |u| ==> (u[i] < u[j] <==> v[i] < v[j])
    ensures Inversions(u) == Inversions(v)
  {
    if u != [] {
      var u', v' := u[1..], v[1..];
      forall i, j | 0 <= i < |u'| && 0 <= j < |u'| ensures u'[i] < u'[j] <==> v'[i] < v'[j] {
        assert u'[i] == u[i + 1] && u'[j] == u[j + 1] && v'[i] == v[i + 1] && v'[j] == v[j + 1];
      }
      SameOrderInversions(u', v');
      SameCountLess(u', u[0], v', v[0]);
    }
  }

  lemma {:induction false} SameCountLess(u: seq<int>, x: int, v: seq<int>, y: int)
    requires |u| == |v| && forall i :: 0 <= i < |u| ==> (u[i] < x <==> v[i] < y)
    ensures CountLess(u, x) == CountLess(v, y)
  {
    if u != [] { SameCountLess(u[1..], x, v[1..], y); }
  }

  lemma {:induction false} SortedIsUnique(s: seq<int>, r: seq<int>)
    requires Sorted(s) && Sorted(r) && multiset(s) == multiset(r)
    ensures s == r
  {
    SameSize(s, r);
    if s != [] {
      var n := |s| - 1;
      LastIsLargest(s, r);
      LastIsLargest(r, s);
      WithoutLast(s);
      WithoutLast(r);
      SortedIsUnique(s[..n], r[..n]);
      assert s == s[..n] + [s[n]] && r == r[..n] + [r[n]];
    }
  }

  lemma WithoutLast(s: seq<int>)
    requires s != []
    ensures multiset(s[..|s| - 1]) == multiset(s) - multiset{s[|s| - 1]}
  {
    WithoutOne(s, |s| - 1);
    assert s[|s| - 1 + 1..] == [] && s[..|s| - 1] + [] == s[..|s| - 1];
  }

  lemma LastIsLargest(s: seq<int>, r: seq<int>)
    requires Sorted(r) && multiset(s) == multiset(r) && s != [] && |s| == |r|
    ensures s[|s| - 1] <= r[|r| - 1]
  {
    assert s[|s| - 1] in multiset(r);
    var k :| 0 <= k < |r| && r[k] == s[|s| - 1];
  }

  lemma SortMembers(x: seq<int>)
    requires Distinct(x)
    ensures var s := SortAscending(x);
      && |s| == |x| && Distinct(s) && Increasing(s)
      && (forall y :: y in s <==> y in x)
  {
    hide SortAscending;
    var s := SortAscending(x);
    forall y ensures y in s <==> y in x { assert y in multiset(s) <==> y in multiset(x); }
    DistinctMultiset(x);
    forall i, j | 0 <= i < j < |s| ensures s[i] != s[j] {
      if s[i] == s[j] { TwiceInMultiset(s, i, j); }
    }
  }

  lemma TwiceInMultiset(s: seq<int>, i: nat, j: nat)
    requires i < j < |s| && s[i] == s[j]
    ensures multiset(s)[s[i]] >= 2
  {
    assert s == s[..i] + [s[i]] + s[i + 1..j] + [s[j]] + s[j + 1..];
  }

  // The sign std::sort is charged with: that of the unsorted column.
  lemma SortSign(x: seq<int>)
    requires Distinct(x)
    ensures CrossSign(SortAscending(x), x) == Sign(x)
  {
    hide SortAscending, CrossSign, Inversions;
    var s := SortAscending(x);
    SortMembers(x);
    assert forall y :: y in x ==> y in s;
    assert forall y :: y in s ==> y in x;
    CrossSignIsSign(s, x);
    RanksOrder(s, x);
    SameOrderInversions(Ranks(s, x), x);
  }

  lemma RanksOrder(s: seq<int>, x: seq<int>)
    requires Increasing(s) && forall y :: y in x ==> y in s
    ensures forall i, j :: 0 <= i < |x| && 0 <= j < |x| ==> (Ranks(s, x)[i] < Ranks(s, x)[j] <==> x[i] < x[j])
  {
    hide IndexOf, Increasing;
    forall i, j | 0 <= i < |x| && 0 <= j < |x| ensures Ranks(s, x)[i] < Ranks(s, x)[j] <==> x[i] < x[j] {
      RankOrder(s, x[i], x[j]);
    }
  }

  lemma RankOrder(s: seq<int>, y: int, z: int)
    requires Increasing(s) && y in s && z in s
    ensures IndexOf(s, y) < IndexOf(s, z) <==> y < z
  {
  }

  // ---------------------------------------------------- F along a column sort

  lemma {:induction false} SortedColumnValue(F: IntTableau -> real, t: IntTableau, c: nat)
    requires ColumnAntisymmetric(F) && Proper(t)
    ensures Proper(SetColumn(t, c, SortAscending(Column(t, c))))
    ensures F(SetColumn(t, c, SortAscending(Column(t, c)))) == SignedReal(Sign(Column(t, c)), F(t))
    decreases Inversions(Column(t, c))
  {
    hide SortAscending, Inversions;
    var x := Column(t, c);
    ColumnDistinct(t, c);
    if Inversions(x) == 0 {
      SortedInversions(x);
      SortedIsUnique(SortAscending(x), x);
      SetColumnSelf(t, c);
    } else {
      var k := FindDescent(x);
      var u := SwapColumn(t, c, k);
      assert SwappedSign(F, t, c, k, k + 1);
      SortedColumnValue(F, u, c);
      SortSame(x, k);
      SetColumnTwice(t, c, Swap(x, k, k + 1), SortAscending(x));
      AdjacentSign(x, k);
    }
  }

  // One neighbouring pair of column c exchanged.
  lemma SwapColumn(t: IntTableau, c: nat, k: nat) returns (u: IntTableau)
    requires Proper(t) && k + 1 < |Column(t, c)| && Column(t, c)[k] > Column(t, c)[k + 1]
    ensures u == SetColumn(t, c, Swap(Column(t, c), k, k + 1)) && Proper(u)
    ensures Column(u, c) == Swap(Column(t, c), k, k + 1) && Inversions(Column(u, c)) < Inversions(Column(t, c))
  {
    var x := Column(t, c);
    var y := Swap(x, k, k + 1);
    u := SetColumn(t, c, y);
    ColumnDistinct(t, c);
    SwapMembers(x, k, k + 1);
    SetColumnShape(t, c, y);
    SetColumnDistinct(t, c, y);
    SetColumnColumn(t, c, y, c);
    AdjacentSign(x, k);
  }

  lemma SortSame(x: seq<int>, k: nat)
    requires k + 1 < |x|
    ensures SortAscending(Swap(x, k, k + 1)) == SortAscending(x)
  {
    hide SortAscending;
    SwapMultiset(x, k, k + 1);
    SortedIsUnique(SortAscending(Swap(x, k, k + 1)), SortAscending(x));
  }

  lemma SwapMultiset(x: seq<int>, i: nat, j: nat)
    requires i < j < |x|
    ensures multiset(Swap(x, i, j)) == multiset(x)
  {
  }

  // ------------------------------------------------------------ All columns

  function SortColumns(t: IntTableau, m: nat): (u: IntTableau)
    requires YoungRows(t)
    ensures YoungRows(u) && SameShape(t, u)
  {
    if m == 0 then t else SortColumn(SortColumns(t, m - 1), m - 1)
  }

  function SortColumn(t: IntTableau, c: nat): (u: IntTableau)
    requires YoungRows(t)
    ensures YoungRows(u) && SameShape(t, u)
  {
    hide SortAscending;
    SetColumnShape(t, c, SortAscending(Column(t, c)));
    SetColumn(t, c, SortAscending(Column(t, c)))
  }

  // Sign of all the column permutations undone.
  function ColumnsSign(t: IntTableau, m: nat): (s: int)
    requires YoungRows(t)
    ensures s == 1 || s == -1
  {
    if m == 0 then 1 else Signed(Sign(Column(t, m - 1)), ColumnsSign(t, m - 1))
  }

  lemma {:induction false} SortColumnsColumn(t: IntTableau, m: nat, d: nat)
    requires YoungRows(t)
    ensures Column(SortColumns(t, m), d) == if d < m then SortAscending(Column(t, d)) else Column(t, d)
  {
    hide SortAscending, SetColumn, Column, SameShape;
    if m > 0 {
      var u := SortColumns(t, m - 1);
      SortColumnsColumn(t, m - 1, d);
      SortColumnsColumn(t, m - 1, m - 1);
      SetColumnColumn(u, m - 1, SortAscending(Column(u, m - 1)), d);
    }
  }

  lemma {:induction false} SortColumnsDistinct(t: IntTableau, m: nat)
    requires Proper(t)
    ensures Proper(SortColumns(t, m))
  {
    hide SortColumn, Proper;
    if m > 0 {
      SortColumnsDistinct(t, m - 1);
      SortOneDistinct(SortColumns(t, m - 1), m - 1);
    }
  }

  lemma SortOneDistinct(u: IntTableau, c: nat)
    requires Proper(u)
    ensures Proper(SortColumn(u, c))
  {
    hide SortAscending, SetColumn;
    ColumnDistinct(u, c);
    SortMembers(Column(u, c));
    SetColumnShape(u, c, SortAscending(Column(u, c)));
    SetColumnDistinct(u, c, SortAscending(Column(u, c)));
  }

  // multiplicity * F is the same before and after sort_within_columns.
  lemma {:induction false} SortColumnsValue(F: IntTableau -> real, t: IntTableau, m: nat)
    requires ColumnAntisymmetric(F) && Proper(t)
    ensures F(SortColumns(t, m)) == SignedReal(ColumnsSign(t, m), F(t))
  {
    hide SortAscending, SetColumn, Sign, ColumnAntisymmetric, Column, DistinctBoxes, YoungRows;
    if m > 0 {
      SortColumnsValue(F, t, m - 1);
      SortColumnsDistinct(t, m - 1);
      SortColumnsColumn(t, m - 1, m - 1);
      SortedColumnValue(F, SortColumns(t, m - 1), m - 1);
    }
  }

  lemma SortedColumnsIncrease(t: IntTableau)
    requires Proper(t)
    ensures ColumnsIncrease(SortColumns(t, |t[0]|))
  {
    var u := SortColumns(t, |t[0]|);
    forall c: nat ensures Increasing(Column(u, c)) {
      SortColumnsColumn(t, |t[0]|, c);
      if c < |t[0]| {
        ColumnDistinct(t, c);
        SortMembers(Column(t, c));
      } else {
        ColumnCell(u, c, 0);
      }
    }
  }

  lemma SignedProduct(s: int, m: real, x: real)
    requires s == 1 || s == -1
    ensures SignedReal(s, m) * SignedReal(s, x) == m * x
  {
  }

  method SortWithinColumns(e: Entry) returns (r: Entry)
    requires Proper(e.rows)
    ensures r.rows == SortColumns(e.rows, |e.rows[0]|)
    ensures r.multiplicity == SignedReal(ColumnsSign(e.rows, |e.rows[0]|), e.multiplicity)
  {
    hide SortAscending, SetColumn, CrossSign, Inversions, Column, DistinctBoxes, YoungRows;
    var rows, multiplicity := e.rows, e.multiplicity;
    for c := 0 to |e.rows[0]|
      invariant rows == SortColumns(e.rows, c)
      invariant multiplicity == SignedReal(ColumnsSign(e.rows, c), e.multiplicity)
    {
      SortColumnsColumn(e.rows, c, c);
      var sorted := SortAscending(Column(rows, c));
      var sign := ColumnSign(e.rows, c, sorted);
      rows := SetColumn(rows, c, sorted);
      multiplicity := multiplicity * sign as real;
    }
    r := Entry(rows, multiplicity);
  }

  method ColumnSign(t: IntTableau, c: nat, sorted: seq<int>) returns (sign: int)
    requires Proper(t) && sorted == SortAscending(Column(t, c))
    ensures sign == Sign(Column(t, c))
  {
    hide SortAscending, CrossSign, Inversions;
    ColumnDistinct(t, c);
    SortSign(Column(t, c));
    sign := OrderSign(sorted, Column(t, c));
  }

  // ------------------------------------------------------------- Row descents

  ghost predicate RowsIncrease(t: IntTableau) {
    forall r :: 0 <= r < |t| ==> RowIncreases(t[r])
  }

  ghost predicate RowIncreases(row: seq<int>) {
    forall c :: 0 <= c < |row| - 1 ==> row[c] <= row[c + 1]
  }

  // Lowest row with a descent, and its first descent.
  method NonstandardLoc(t: IntTableau) returns (found: bool, row: nat, col: nat)
    requires t != [] && YoungRows(t)
    ensures found ==> Descent(t, row, col)
    ensures found ==> forall i :: row < i < |t| ==> RowIncreases(t[i])
    ensures found ==> forall j :: 0 <= j < col ==> t[row][j] <= t[row][j + 1]
    ensures !found ==> RowsIncrease(t)
  {
    var r := |t|;
    while r > 0
      invariant 0 <= r <= |t|
      invariant forall i :: r <= i < |t| ==> RowIncreases(t[i])
    {
      r := r - 1;
      for c := 0 to |t[r]| - 1
        invariant forall i :: 0 <= i < c ==> t[r][i] <= t[r][i + 1]
      {
        if t[r][c] > t[r][c + 1] { return true, r, c; }
      }
    }
    return false, 0, 0;
  }

  // ------------------------------------------------------------------ The list

  ghost function Worth(F: IntTableau -> real, e: Entry): real {
    e.multiplicity * F(e.rows)
  }

  // Sum of multiplicity * F over the list.
  ghost function Total(F: IntTableau -> real, s: seq<Entry>): real {
    if s == [] then 0.0 else Total(F, s[..|s| - 1]) + Worth(F, s[|s| - 1])
  }

  lemma {:induction false} TotalAppend(F: IntTableau -> real, a: seq<Entry>, b: seq<Entry>)
    ensures Total(F, a + b) == Total(F, a) + Total(F, b)
  {
    hide Worth;
    if b == [] {
      assert a + b == a;
    } else {
      var n := |b| - 1;
      assert (a + b)[..|a| + n] == a + b[..n];
      TotalAppend(F, a, b[..n]);
    }
  }

  lemma TotalOne(F: IntTableau -> real, e: Entry)
    ensures Total(F, [e]) == Worth(F, e)
  {
    hide Worth;
    assert [e][..0] == [];
  }

  lemma TotalAt(F: IntTableau -> real, s: seq<Entry>, i: nat)
    requires i < |s|
    ensures Total(F, s) == Total(F, s[..i]) + Worth(F, s[i]) + Total(F, s[i + 1..])
    ensures Total(F, s[..i] + s[i + 1..]) == Total(F, s[..i]) + Total(F, s[i + 1..])
  {
    hide Worth, Total;
    assert s == s[..i] + [s[i]] + s[i + 1..];
    TotalAppend(F, s[..i] + [s[i]], s[i + 1..]);
    TotalAppend(F, s[..i], [s[i]]);
    TotalOne(F, s[i]);
    TotalAppend(F, s[..i], s[i + 1..]);
  }

  lemma TotalReplace(F: IntTableau -> real, s: seq<Entry>, i: nat, e: Entry)
    requires i < |s|
    ensures Total(F, s[i := e]) == Total(F, s) - Worth(F, s[i]) + Worth(F, e)
  {
    hide Worth, Total;
    TotalAt(F, s, i);
    TotalAt(F, s[i := e], i);
    assert s[i := e][..i] == s[..i] && s[i := e][i + 1..] == s[i + 1..];
  }

  // First list position with these rows, or the length of the list.
  function Find(s: seq<Entry>, rows: IntTableau): (i: nat)
    ensures i <= |s| && (i < |s| ==> s[i].rows == rows)
    ensures forall k :: 0 <= k < i ==> s[k].rows != rows
  {
    if s == [] || s[0].rows == rows then 0
    else
      var i := Find(s[1..], rows);
      assert forall k :: 1 <= k < i + 1 ==> s[k] == s[1..][k - 1];
      i + 1
  }

  // The list after add_tableau: merged into an equal tableau, dropped together
  // with it when they cancel, or appended.
  function Added(s: seq<Entry>, e: Entry): seq<Entry> {
    var i := Find(s, e.rows);
    if i == |s| then s + [e]
    else
      var m := s[i].multiplicity + e.multiplicity;
      if m == 0.0 then s[..i] + s[i + 1..] else s[i := Entry(e.rows, m)]
  }

  // Where the entry at position cur is afterwards.
  function Moved(s: seq<Entry>, e: Entry, cur: nat): nat {
    var i := Find(s, e.rows);
    if i < cur && i < |s| && s[i].multiplicity + e.multiplicity == 0.0 then cur - 1 else cur
  }

  lemma AddedTotal(F: IntTableau -> real, s: seq<Entry>, e: Entry)
    ensures Total(F, Added(s, e)) == Total(F, s) + Worth(F, e)
  {
    hide Worth, Total;
    var i := Find(s, e.rows);
    if i == |s| {
      TotalAppend(F, s, [e]);
      TotalOne(F, e);
    } else {
      var merged := Entry(e.rows, s[i].multiplicity + e.multiplicity);
      TotalAt(F, s, i);
      TotalReplace(F, s, i, merged);
      MergedWorth(F, s[i], e);
    }
  }

  lemma MergedWorth(F: IntTableau -> real, d: Entry, e: Entry)
    requires d.rows == e.rows
    ensures Worth(F, Entry(e.rows, d.multiplicity + e.multiplicity)) == Worth(F, d) + Worth(F, e)
    ensures d.multiplicity + e.multiplicity == 0.0 ==> Worth(F, d) + Worth(F, e) == 0.0
  {
    Distribute(d.multiplicity, e.multiplicity, F(e.rows));
  }

  lemma Distribute(x: real, y: real, f: real)
    ensures (x + y) * f == x * f + y * f
  {
  }

  // ------------------------------------------------------------ Equal tableaux

  // No two tableaux of the list have the same rows.
  ghost predicate NoTwoEqual(s: seq<Entry>) {
    forall i, j :: 0 <= i < j < |s| ==> s[i].rows != s[j].rows
  }

  ghost predicate NoneZero(s: seq<Entry>) {
    forall i :: 0 <= i < |s| ==> s[i].multiplicity != 0.0
  }

  // The multiplicities stored for these rows, added up.
  function MultiplicityOf(s: seq<Entry>, rows: IntTableau): real {
    if s == [] then 0.0
    else MultiplicityOf(s[..|s| - 1], rows) + if s[|s| - 1].rows == rows then s[|s| - 1].multiplicity else 0.0
  }

  lemma {:induction false} MultiplicityAppend(a: seq<Entry>, b: seq<Entry>, rows: IntTableau)
    ensures MultiplicityOf(a + b, rows) == MultiplicityOf(a, rows) + MultiplicityOf(b, rows)
  {
    if b == [] {
      assert a + b == a;
    } else {
      var n := |b| - 1;
      assert (a + b)[..|a| + n] == a + b[..n];
      MultiplicityAppend(a, b[..n], rows);
    }
  }

  lemma MultiplicityAround(a: seq<Entry>, e: Entry, b: seq<Entry>, rows: IntTableau)
    ensures MultiplicityOf(a + [e] + b, rows)
         == MultiplicityOf(a + b, rows) + if e.rows == rows then e.multiplicity else 0.0
  {
    MultiplicityAppend(a + [e], b, rows);
    MultiplicityAppend(a, [e], rows);
    MultiplicityAppend(a, b, rows);
    assert [e][..0] == [];
  }

  // The rows of a new tableau are merged with equal ones, so what is stored for them
  // grows by its multiplicity, and for other rows stays the same.
  lemma AddedMultiplicity(s: seq<Entry>, e: Entry, rows: IntTableau)
    ensures MultiplicityOf(Added(s, e), rows)
         == MultiplicityOf(s, rows) + if e.rows == rows then e.multiplicity else 0.0
  {
    hide MultiplicityOf;
    var i := Find(s, e.rows);
    if i == |s| {
      MultiplicityAround(s, e, [], rows);
      assert s + [e] + [] == s + [e] && s + [] == s;
    } else {
      var m := s[i].multiplicity + e.multiplicity;
      assert s == s[..i] + [s[i]] + s[i + 1..];
      assert s[i := Entry(e.rows, m)] == s[..i] + [Entry(e.rows, m)] + s[i + 1..];
      MultiplicityAround(s[..i], s[i], s[i + 1..], rows);
      MultiplicityAround(s[..i], Entry(e.rows, m), s[i + 1..], rows);
    }
  }

  lemma AddedDiffer(s: seq<Entry>, e: Entry)
    ensures NoTwoEqual(s) ==> NoTwoEqual(Added(s, e))
    ensures NoneZero(s) && e.multiplicity != 0.0 ==> NoneZero(Added(s, e))
  {
    var i, r := Find(s, e.rows), Added(s, e);
    if i < |s| && s[i].multiplicity + e.multiplicity == 0.0 {
      assert forall k :: 0 <= k < |r| ==> r[k] == s[if k < i then k else k + 1];
    }
  }

  // ------------------------------------------------------- What the list keeps

  // Entries lie between -E and E.
  ghost predicate Bounded(t: IntTableau, E: nat) {
    forall r, c :: 0 <= r < |t| && 0 <= c < |t[r]| ==> t[r][c] <= E && -t[r][c] <= E
  }

  ghost predicate Good(e: Entry, E: nat) {
    Proper(e.rows) && Bounded(e.rows, E)
  }

  ghost predicate AllGood(s: seq<Entry>, E: nat) {
    forall i :: 0 <= i < |s| ==> Good(s[i], E)
  }

  // Columns and rows increase.
  ghost predicate Standard(t: IntTableau) {
    ColumnsIncrease(t) && RowsIncrease(t)
  }

  ghost predicate StandardUpTo(s: seq<Entry>, cur: nat) {
    cur <= |s| && forall i :: 0 <= i < cur ==> Standard(s[i].rows)
  }

  lemma AddedKeeps(s: seq<Entry>, e: Entry, cur: nat, E: nat)
    requires AllGood(s, E) && Good(e, E) && StandardUpTo(s, cur) && cur < |s| && s[cur].rows != e.rows
    ensures AllGood(Added(s, e), E) && StandardUpTo(Added(s, e), Moved(s, e, cur))
    ensures Moved(s, e, cur) < |Added(s, e)| && Added(s, e)[Moved(s, e, cur)] == s[cur]
  {
    hide Good, Standard;
    var i := Find(s, e.rows);
    if i < |s| {
      MergedKeeps(s, i, Entry(e.rows, s[i].multiplicity + e.multiplicity), cur, E);
      DroppedKeeps(s, i, cur, E);
    }
  }

  lemma MergedKeeps(s: seq<Entry>, i: nat, d: Entry, cur: nat, E: nat)
    requires AllGood(s, E) && StandardUpTo(s, cur) && i < |s| && d.rows == s[i].rows
    ensures AllGood(s[i := d], E) && StandardUpTo(s[i := d], cur)
  {
    hide Standard;
    assert Good(s[i], E) && Good(d, E);
  }

  lemma DroppedKeeps(s: seq<Entry>, i: nat, cur: nat, E: nat)
    requires AllGood(s, E) && StandardUpTo(s, cur) && i < |s|
    ensures AllGood(s[..i] + s[i + 1..], E) && StandardUpTo(s[..i] + s[i + 1..], if i < cur then cur - 1 else cur)
  {
    hide Good, Standard;
    var d := s[..i] + s[i + 1..];
    assert forall k :: 0 <= k < |d| ==> d[k] == s[if k < i then k else k + 1];
  }
}
