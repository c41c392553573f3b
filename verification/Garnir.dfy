// The Garnir exchange of standard_form: what it sums to and which way it moves
// the entries.

module Garnir {
  import opened Signs
  import opened Generator
  import opened Tableaux

  type IntTableau = Filled<int>

  // ---------------------------------------------------------- The exchange

  ghost predicate At<T>(t: Filled<T>, r: nat, c: nat) {
    YoungRows(t) && r < |t| && c + 1 < |t[r]|
  }

  lemma AtSizes<T>(t: Filled<T>, r: nat, c: nat)
    requires At(t, r, c)
    ensures r < |Column(t, c + 1)| <= |Column(t, c)| <= |t|
  {
    ColumnCell(t, c + 1, r);
    var n := |Column(t, c + 1)|;
    ColumnCell(t, c + 1, n - 1);
    ColumnCell(t, c, n - 1);
    ColumnSize(t, c, 0);
  }

  // Boxes of column c from row r down: the first sublength.
  function Below<T>(t: Filled<T>, r: nat, c: nat): (a: nat)
    requires At(t, r, c)
    ensures a > 0 && r + a == |Column(t, c)|
  {
    AtSizes(t, r, c);
    |Column(t, c)| - r
  }

  // What may be exchanged: column c from row r down, then column c + 1 down to row r.
  function Exchangeable<T>(t: Filled<T>, r: nat, c: nat): (x: seq<T>)
    requires At(t, r, c)
    ensures |x| == Below(t, r, c) + r + 1
  {
    AtSizes(t, r, c);
    Column(t, c)[r..] + Column(t, c + 1)[..r + 1]
  }

  function GarnirProblem<T>(t: Filled<T>, r: nat, c: nat): (P: Problem)
    requires At(t, r, c)
  {
    Problem(Below(t, r, c) + r + 1, [Below(t, r, c), r + 1], [], false, [], [], [])
  }

  lemma GarnirProblemIs<T>(t: Filled<T>, r: nat, c: nat)
    requires At(t, r, c)
    ensures Plain(GarnirProblem(t, r, c)) && GarnirProblem(t, r, c).Length() == GarnirProblem(t, r, c).n
  {
    var P := GarnirProblem(t, r, c);
    TwoGroupEnds(P.sublengths);
    assert P.sublengths[0] == Below(t, r, c) && P.sublengths[1] == r + 1;
  }

  lemma TwoGroupEnds(sub: seq<nat>)
    requires |sub| == 2
    ensures GroupEnd(sub, 0) == 0 && GroupEnd(sub, 1) == sub[0] && GroupEnd(sub, 2) == sub[0] + sub[1]
  {
    assert GroupEnd(sub, 1) == GroupEnd(sub, 0) + sub[0];
  }

  ghost function Shuffles<T>(t: Filled<T>, r: nat, c: nat): seq<seq<nat>>
    requires At(t, r, c)
  {
    GarnirProblemIs(t, r, c);
    Generated(GarnirProblem(t, r, c))
  }

  function LeftColumn<T>(t: Filled<T>, r: nat, c: nat, p: seq<T>): (x: seq<T>)
    requires At(t, r, c) && |p| == |Exchangeable(t, r, c)|
    ensures |x| == |Column(t, c)|
  {
    Column(t, c)[..r] + p[..Below(t, r, c)]
  }

  function RightColumn<T>(t: Filled<T>, r: nat, c: nat, p: seq<T>): (y: seq<T>)
    requires At(t, r, c) && |p| == |Exchangeable(t, r, c)|
    ensures |y| == |Column(t, c + 1)|
  {
    AtSizes(t, r, c);
    p[Below(t, r, c)..] + Column(t, c + 1)[r + 1..]
  }

  // The tableau with p written into the exchangeable boxes.
  function Exchanged<T>(t: Filled<T>, r: nat, c: nat, p: seq<T>): Filled<T>
    requires At(t, r, c) && |p| == |Exchangeable(t, r, c)|
  {
    SetColumnColumn(t, c, LeftColumn(t, r, c, p), c + 1);
    SetColumn(SetColumn(t, c, LeftColumn(t, r, c, p)), c + 1, RightColumn(t, r, c, p))
  }

  lemma ExchangedColumns<T>(t: Filled<T>, r: nat, c: nat, p: seq<T>, d: nat)
    requires At(t, r, c) && |p| == |Exchangeable(t, r, c)|
    ensures YoungRows(Exchanged(t, r, c, p)) && SameShape(t, Exchanged(t, r, c, p))
    ensures Column(Exchanged(t, r, c, p), d) ==
      if d == c then LeftColumn(t, r, c, p) else if d == c + 1 then RightColumn(t, r, c, p) else Column(t, d)
  {
    var x, y := LeftColumn(t, r, c, p), RightColumn(t, r, c, p);
    SetColumnShape(t, c, x);
    SetColumnColumn(t, c, x, c + 1);
    SetColumnColumn(t, c, x, d);
    SetColumnShape(SetColumn(t, c, x), c + 1, y);
    SetColumnColumn(SetColumn(t, c, x), c + 1, y, d);
  }

  // Nothing moved.
  lemma ExchangedSelf<T>(t: Filled<T>, r: nat, c: nat)
    requires At(t, r, c)
    ensures Exchanged(t, r, c, Exchangeable(t, r, c)) == t
  {
    var p := Exchangeable(t, r, c);
    AtSizes(t, r, c);
    assert LeftColumn(t, r, c, p) == Column(t, c);
    assert RightColumn(t, r, c, p) == Column(t, c + 1);
    SetColumnSelf(t, c);
    SetColumnSelf(t, c + 1);
  }

  // ------------------------------------------------- Entries stay different

  lemma ExchangeableDistinct<T>(t: Filled<T>, r: nat, c: nat)
    requires At(t, r, c) && DistinctBoxes(t)
    ensures Distinct(Column(t, c) + Column(t, c + 1)) && Distinct(Exchangeable(t, r, c))
  {
    AtSizes(t, r, c);
    ColumnDistinct(t, c);
    ColumnDistinct(t, c + 1);
    ColumnsDisjoint(t, c, c + 1);
    var l := Column(t, c) + Column(t, c + 1);
    assert Distinct(l);
    var x := Exchangeable(t, r, c);
    forall i, j | 0 <= i < j < |x| ensures x[i] != x[j] {
      assert x[i] == l[r + i] && x[j] == l[r + j];
    }
  }

  lemma PickDistinct<T>(x: seq<T>, v: seq<nat>)
    requires Distinct(x) && |v| == |x| && IsPermutation(v)
    ensures Distinct(Pick(x, v)) && forall k :: 0 <= k < |v| ==> Pick(x, v)[k] in x
  {
  }

  lemma ReplaceMiddle<T>(h: seq<T>, x: seq<T>, p: seq<T>, l: seq<T>)
    requires Distinct(h + x + l) && Distinct(p) && |p| == |x| && forall k :: 0 <= k < |p| ==> p[k] in x
    ensures Distinct(h + p + l)
  {
    var s := h + p + l;
    forall i, j | 0 <= i < j < |s| ensures s[i] != s[j] {
      var k := MiddleSource(h, x, p, l, i);
      var m := MiddleSource(h, x, p, l, j);
    }
  }

  lemma MiddleSource<T>(h: seq<T>, x: seq<T>, p: seq<T>, l: seq<T>, i: nat) returns (k: nat)
    requires i < |h + p + l| && |p| == |x| && forall k :: 0 <= k < |p| ==> p[k] in x
    ensures k < |h + x + l| && (h + x + l)[k] == (h + p + l)[i]
    ensures if |h| <= i < |h| + |p| then |h| <= k < |h| + |p| else k == i
  {
    if |h| <= i < |h| + |p| {
      assert p[i - |h|] in x;
      var j :| 0 <= j < |x| && x[j] == p[i - |h|];
      k := |h| + j;
    } else {
      k := i;
    }
  }

  lemma ExchangedDistinct<T>(t: Filled<T>, r: nat, c: nat, v: seq<nat>)
    requires At(t, r, c) && DistinctBoxes(t) && |v| == |Exchangeable(t, r, c)| && IsPermutation(v)
    ensures DistinctBoxes(Exchanged(t, r, c, Pick(Exchangeable(t, r, c), v)))
  {
    var p := Pick(Exchangeable(t, r, c), v);
    var x, y := LeftColumn(t, r, c, p), RightColumn(t, r, c, p);
    AtSizes(t, r, c);
    ExchangeableDistinct(t, r, c);
    PickDistinct(Exchangeable(t, r, c), v);
    assert Column(t, c) + Column(t, c + 1) == Column(t, c)[..r] + Exchangeable(t, r, c) + Column(t, c + 1)[r + 1..];
    ReplaceMiddle(Column(t, c)[..r], Exchangeable(t, r, c), p, Column(t, c + 1)[r + 1..]);
    assert x + y == Column(t, c)[..r] + p + Column(t, c + 1)[r + 1..];
    forall k | 0 <= k < |x + y| ensures (x + y)[k] in Column(t, c) + Column(t, c + 1) {
      var m := MiddleSource(Column(t, c)[..r], Exchangeable(t, r, c), p, Column(t, c + 1)[r + 1..], k);
    }
    TwoColumnsDistinct(t, c, x, y);
  }

  lemma TwoColumnsDistinct<T>(t: Filled<T>, c: nat, x: seq<T>, y: seq<T>)
    requires YoungRows(t) && DistinctBoxes(t) && |x| == |Column(t, c)| && |y| == |Column(t, c + 1)|
    requires Distinct(x + y) && forall k :: 0 <= k < |x + y| ==> (x + y)[k] in Column(t, c) + Column(t, c + 1)
    ensures YoungRows(SetColumn(t, c, x)) && |y| == |Column(SetColumn(t, c, x), c + 1)|
    ensures DistinctBoxes(SetColumn(SetColumn(t, c, x), c + 1, y))
  {
    SetColumnShape(t, c, x);
    SetColumnColumn(t, c, x, c + 1);
    var u := SetColumn(SetColumn(t, c, x), c + 1, y);
    forall i, d, j, e | 0 <= i < |u| && 0 <= d < |u[i]| && 0 <= j < |u| && 0 <= e < |u[j]| && u[i][d] == u[j][e]
      ensures i == j && d == e
    {
      TwoCells(t, c, x, y, i, d);
      TwoCells(t, c, x, y, j, e);
    }
  }

  // Where a box of the changed tableau has its entry: at a place of x + y, or unchanged.
  lemma TwoCells<T>(t: Filled<T>, c: nat, x: seq<T>, y: seq<T>, i: nat, d: nat)
    requires YoungRows(t) && |x| == |Column(t, c)| && |y| == |Column(t, c + 1)|
    requires forall k :: 0 <= k < |x + y| ==> (x + y)[k] in Column(t, c) + Column(t, c + 1)
    requires YoungRows(SetColumn(t, c, x)) && |y| == |Column(SetColumn(t, c, x), c + 1)|
    requires i < |t| && d < |t[i]|
    ensures var u := SetColumn(SetColumn(t, c, x), c + 1, y);
      && (d == c ==> i < |x| && u[i][d] == (x + y)[i])
      && (d == c + 1 ==> i < |y| && u[i][d] == (x + y)[|x| + i])
      && (d != c && d != c + 1 ==> u[i][d] == t[i][d])
      && (d == c || d == c + 1 ==> exists h, e ::
        0 <= h < |t| && 0 <= e < |t[h]| && (e == c || e == c + 1)
        && t[h][e] == u[i][d])
  {
    ColumnCell(t, c, i);
    ColumnCell(t, c + 1, i);
    if d == c { InColumns(t, c, (x + y)[i]); }
    if d == c + 1 { InColumns(t, c, (x + y)[|x| + i]); }
  }

  lemma InColumns<T>(t: Filled<T>, c: nat, z: T)
    requires YoungRows(t) && z in Column(t, c) + Column(t, c + 1)
    ensures exists h, e :: 0 <= h < |t| && 0 <= e < |t[h]| && (e == c || e == c + 1) && t[h][e] == z
  {
    if z in Column(t, c) {
      var i :| 0 <= i < |Column(t, c)| && Column(t, c)[i] == z;
      ColumnCell(t, c, i);
    } else {
      var i :| 0 <= i < |Column(t, c + 1)| && Column(t, c + 1)[i] == z;
      ColumnCell(t, c + 1, i);
    }
  }

  // ------------------------------------------------------------------- Sums

  function Sum(s: seq<int>): int {
    if s == [] then 0 else Sum(s[..|s| - 1]) + s[|s| - 1]
  }

  lemma {:induction false} SumAppend(a: seq<int>, b: seq<int>)
    ensures Sum(a + b) == Sum(a) + Sum(b)
  {
    if b == [] {
      assert a + b == a;
    } else {
      var n := |b| - 1;
      assert (a + b)[..|a| + n] == a + b[..n];
      SumAppend(a, b[..n]);
    }
  }

  lemma SumSwap(s: seq<int>, k: nat)
    requires k + 1 < |s|
    ensures Sum(Swap(s, k, k + 1)) == Sum(s)
  {
    var a, b := s[..k], s[k + 2..];
    assert s == a + [s[k], s[k + 1]] + b && Swap(s, k, k + 1) == a + [s[k + 1], s[k]] + b;
    SumAppend(a + [s[k], s[k + 1]], b);
    SumAppend(a + [s[k + 1], s[k]], b);
    SumAppend(a, [s[k], s[k + 1]]);
    SumAppend(a, [s[k + 1], s[k]]);
    SumTwo(s[k], s[k + 1]);
    SumTwo(s[k + 1], s[k]);
  }

  lemma SumOne(x: int)
    ensures Sum([x]) == x
  {
    assert [x][..0] == [];
  }

  lemma SumTwo(x: int, y: int)
    ensures Sum([x, y]) == x + y
  {
    assert [x, y] == [x] + [y];
    SumAppend([x], [y]);
    SumOne(x);
    SumOne(y);
  }

  // A rearrangement has the same sum.
  lemma SwapPermutes(v: seq<nat>, k: nat)
    requires IsPermutation(v) && k + 1 < |v|
    ensures IsPermutation(Swap(v, k, k + 1)) && |Swap(v, k, k + 1)| == |v|
  {
  }

  lemma {:induction false} PickSum(x: seq<int>, v: seq<nat>)
    requires |v| == |x| && IsPermutation(v)
    ensures Sum(Pick(x, v)) == Sum(x)
    decreases Inversions(v)
  {
    hide Inversions, Sum;
    if Inversions(v) == 0 {
      SortedInversions(v);
      SortedPermutationIsIdentity(v);
      assert Pick(x, v) == x;
    } else {
      var k := FindDescent(v);
      AdjacentSign(v, k);
      SwapPermutes(v, k);
      PickSum(x, Swap(v, k, k + 1));
      SumSwap(Pick(x, v), k);
      assert Pick(x, Swap(v, k, k + 1)) == Swap(Pick(x, v), k, k + 1);
    }
  }

  lemma {:induction false} SumDominated(a: seq<int>, b: seq<int>, gap: int)
    requires |a| == |b| && forall i :: 0 <= i < |a| ==> a[i] >= b[i] + gap
    ensures Sum(a) >= Sum(b) + gap * |a|
  {
    if a != [] {
      var n := |a| - 1;
      SumDominated(a[..n], b[..n], gap);
      assert gap * |a| == gap * n + gap;
    }
  }

  // ----------------------------------------------------------------- Shuffles

  // v increases inside its first a slots and inside the rest.
  ghost predicate IsShuffle(v: seq<nat>, a: nat) {
    IsPermutation(v) && 0 < a < |v| && forall k :: 0 < k < |v| && k != a ==> v[k - 1] < v[k]
  }

  lemma ShufflesAre<T>(t: Filled<T>, r: nat, c: nat, v: seq<nat>)
    requires At(t, r, c) && v in Shuffles(t, r, c)
    ensures |v| == |Exchangeable(t, r, c)| && IsShuffle(v, Below(t, r, c))
  {
    var P, a := GarnirProblem(t, r, c), Below(t, r, c);
    GarnirProblemIs(t, r, c);
    PlainGenerated(P);
    assert IsArrangement(P, v);
    forall k | 0 < k < |v| && k != a ensures v[k - 1] < v[k] {
      TwoGroups(P.sublengths, k);
    }
  }

  lemma TwoGroups(sub: seq<nat>, k: nat)
    requires |sub| == 2 && 0 < k < sub[0] + sub[1] && k != sub[0]
    ensures !GroupBoundary(sub, k)
  {
    TwoGroupEnds(sub);
    forall g: nat | g <= 2 ensures GroupEnd(sub, g) != k {
      assert g == 0 || g == 1 || g == 2;
    }
  }

  lemma {:induction false} TailAtLeast(v: seq<nat>, a: nat, from: nat, j: nat, low: nat)
    requires IsShuffle(v, a) && a <= from <= j < |v| && v[from] >= low
    ensures v[j] >= low + (j - from)
    decreases j
  {
    if j > from {
      TailAtLeast(v, a, from, j - 1, low);
      assert v[j - 1] < v[j];
    }
  }

  lemma {:induction false} TailAtMost(v: seq<nat>, a: nat, j: nat)
    requires IsShuffle(v, a) && a <= j < |v|
    ensures v[j] <= j
    decreases |v| - j
  {
    if j + 1 < |v| {
      TailAtMost(v, a, j + 1);
      assert v[j + 1 - 1] < v[j + 1];
    }
  }

  // Only the identity keeps the second group in place.
  lemma TailFixed(v: seq<nat>, a: nat)
    requires IsShuffle(v, a) && v[a] >= a
    ensures v == Identity(|v|)
  {
    forall j | a <= j < |v| ensures v[j] == j {
      TailAtLeast(v, a, a, j, a);
      TailAtMost(v, a, j);
    }
    forall i | 0 <= i < a ensures v[i] < a { HeadBelow(v, a, i); }
    forall i, j | 0 <= i < j < |v| ensures v[i] <= v[j] {
      if j < a || i >= a { ShuffleChain(v, a, i, j); }
    }
    SortedPermutationIsIdentity(v);
  }

  lemma HeadBelow(v: seq<nat>, a: nat, i: nat)
    requires IsPermutation(v) && i < a <= |v| && forall j :: a <= j < |v| ==> v[j] == j
    ensures v[i] < a
  {
    SameSlot(v, v[i], i);
  }

  lemma SameSlot(v: seq<nat>, i: nat, j: nat)
    requires Distinct(v) && i < |v| && j < |v|
    ensures v[i] == v[j] <==> i == j
  {
  }

  lemma {:induction false} ShuffleChain(v: seq<nat>, a: nat, i: nat, j: nat)
    requires IsShuffle(v, a) && i <= j < |v| && (j < a || i >= a)
    ensures v[i] <= v[j]
    decreases j
  {
    if i < j {
      ShuffleChain(v, a, i, j - 1);
      assert v[j - 1] < v[j];
    }
  }

  // The second group takes k entries of the first list, then some of the second.
  lemma {:induction false} FindSplit(v: seq<nat>, a: nat, from: nat) returns (k: nat)
    requires IsShuffle(v, a) && a <= from <= |v|
    ensures from <= k <= |v|
    ensures forall i :: from <= i < k ==> v[i] < a
    ensures forall i :: k <= i < |v| ==> v[i] >= a + (i - k)
    decreases |v| - from
  {
    if from < |v| && v[from] < a {
      k := FindSplit(v, a, from + 1);
    } else {
      k := from;
      forall i | k <= i < |v| ensures v[i] >= a + (i - k) { TailAtLeast(v, a, k, i, a); }
    }
  }

  // ------------------------------------------------ The right column gets heavier

  ghost predicate Increasing(s: seq<int>) {
    forall i, j :: 0 <= i < j < |s| ==> s[i] < s[j]
  }

  ghost predicate ColumnsIncrease(t: IntTableau) {
    forall c :: Increasing(Column(t, c))
  }

  // A over B with every entry of A above every entry of B: any shuffle but the
  // identity puts a larger sum into the second group.
  lemma ShuffleRaises(A: seq<int>, B: seq<int>, v: seq<nat>)
    requires |v| == |A| + |B| && IsShuffle(v, |A|) && v != Identity(|v|)
    requires Increasing(A) && Increasing(B)
    requires forall i, j :: 0 <= i < |A| && 0 <= j < |B| ==> A[i] > B[j]
    ensures Sum(Pick(A + B, v)[|A|..]) > Sum(B)
  {
    var a := |A|;
    if v[a] >= a { TailFixed(v, a); }
    var m := FindSplit(v, a, a);
    SumsCompare(A, B, v, m - a);
  }

  lemma SumsCompare(A: seq<int>, B: seq<int>, v: seq<nat>, k: nat)
    requires |v| == |A| + |B| && IsPermutation(v) && 0 < k <= |B| && Increasing(B)
    requires forall i, j :: 0 <= i < |A| && 0 <= j < |B| ==> A[i] > B[j]
    requires forall i :: |A| <= i < |A| + k ==> v[i] < |A|
    requires forall i :: |A| + k <= i < |v| ==> v[i] >= i - k
    ensures Sum(Pick(A + B, v)[|A|..]) > Sum(B)
  {
    var b, s := |B|, Pick(A + B, v)[|A|..];
    assert B == B[..b - k] + B[b - k..] && s == s[..k] + s[k..];
    SumAppend(s[..k], s[k..]);
    SumAppend(B[..b - k], B[b - k..]);
    FromUpper(A, B, v, k);
    FromLower(A, B, v, k);
  }

  lemma FromUpper(A: seq<int>, B: seq<int>, v: seq<nat>, k: nat)
    requires |v| == |A| + |B| && IsPermutation(v) && k <= |B|
    requires forall i, j :: 0 <= i < |A| && 0 <= j < |B| ==> A[i] > B[j]
    requires forall i :: |A| <= i < |A| + k ==> v[i] < |A|
    ensures Sum(Pick(A + B, v)[|A|..][..k]) >= Sum(B[|B| - k..]) + k
  {
    var s, l := Pick(A + B, v)[|A|..][..k], B[|B| - k..];
    forall i | 0 <= i < k ensures s[i] >= l[i] + 1 {
      assert v[|A| + i] < |A|;
      assert A[v[|A| + i]] > B[|B| - k + i];
    }
    SumDominated(s, l, 1);
  }

  lemma FromLower(A: seq<int>, B: seq<int>, v: seq<nat>, k: nat)
    requires |v| == |A| + |B| && IsPermutation(v) && k <= |B| && Increasing(B)
    requires forall i :: |A| + k <= i < |v| ==> v[i] >= i - k
    ensures Sum(Pick(A + B, v)[|A|..][k..]) >= Sum(B[..|B| - k])
  {
    var s, l := Pick(A + B, v)[|A|..][k..], B[..|B| - k];
    forall i | 0 <= i < |B| - k ensures s[i] >= l[i] + 0 {
      var w := v[|A| + k + i];
      assert w >= |A| + i;
      assert w - |A| > i ==> B[i] < B[w - |A|];
    }
    SumDominated(s, l, 0);
  }

  // ----------------------------------------------------------------- Weights

  // Sum of column number times column sum over the first m columns.
  function Weight(t: IntTableau, m: nat): int {
    if m == 0 then 0 else Weight(t, m - 1) + (m - 1) * Sum(Column(t, m - 1))
  }

  lemma {:induction false} WeightAgree(t: IntTableau, u: IntTableau, m: nat)
    requires forall d :: 0 <= d < m ==> Sum(Column(t, d)) == Sum(Column(u, d))
    ensures Weight(t, m) == Weight(u, m)
  {
    if m > 0 { WeightAgree(t, u, m - 1); }
  }

  lemma {:induction false} WeightShift(t: IntTableau, u: IntTableau, c: nat, m: nat)
    requires c + 1 < m
    requires forall d :: 0 <= d < m && d != c && d != c + 1 ==> Sum(Column(t, d)) == Sum(Column(u, d))
    requires Sum(Column(t, c)) + Sum(Column(t, c + 1)) == Sum(Column(u, c)) + Sum(Column(u, c + 1))
    ensures Weight(u, m) - Weight(t, m) == Sum(Column(u, c + 1)) - Sum(Column(t, c + 1))
  {
    if m == c + 2 {
      WeightAgree(t, u, c);
      TwoColumnWeight(c, Sum(Column(t, c)), Sum(Column(t, c + 1)), Sum(Column(u, c)), Sum(Column(u, c + 1)));
    } else {
      WeightShift(t, u, c, m - 1);
    }
  }

  lemma TwoColumnWeight(c: nat, x: int, y: int, x': int, y': int)
    requires x + y == x' + y'
    ensures (c * x' + (c + 1) * y') - (c * x + (c + 1) * y) == y' - y
  {
    assert c * x' + c * y' == c * (x' + y') == c * (x + y) == c * x + c * y;
  }

  ghost predicate Descent(t: IntTableau, r: nat, c: nat) {
    At(t, r, c) && t[r][c] > t[r][c + 1]
  }

  lemma DescentSeparates(t: IntTableau, r: nat, c: nat)
    requires Descent(t, r, c) && ColumnsIncrease(t)
    ensures r < |Column(t, c + 1)| <= |Column(t, c)|
    ensures var A, B := Column(t, c)[r..], Column(t, c + 1)[..r + 1];
      && Increasing(A) && Increasing(B)
      && forall i, j :: 0 <= i < |A| && 0 <= j < |B| ==> A[i] > B[j]
  {
    AtSizes(t, r, c);
    ColumnCell(t, c, r);
    ColumnCell(t, c + 1, r);
    assert Increasing(Column(t, c)) && Increasing(Column(t, c + 1));
    var A, B := Column(t, c)[r..], Column(t, c + 1)[..r + 1];
    assert A[0] > B[r];
    forall i, j | 0 <= i < |A| && 0 <= j < |B| ensures A[i] > B[j] {
      assert i > 0 ==> A[0] < A[i];
      assert j < r ==> B[j] < B[r];
    }
  }

  lemma ExchangedSums(t: IntTableau, r: nat, c: nat, v: seq<nat>)
    requires At(t, r, c) && |v| == |Exchangeable(t, r, c)| && IsPermutation(v)
    ensures var p := Pick(Exchangeable(t, r, c), v);
      && Sum(LeftColumn(t, r, c, p)) + Sum(RightColumn(t, r, c, p)) == Sum(Column(t, c)) + Sum(Column(t, c + 1))
      && Sum(RightColumn(t, r, c, p)) - Sum(Column(t, c + 1))
           == Sum(p[Below(t, r, c)..]) - Sum(Exchangeable(t, r, c)[Below(t, r, c)..])
  {
    var x, a := Exchangeable(t, r, c), Below(t, r, c);
    var p := Pick(x, v);
    AtSizes(t, r, c);
    PickSum(x, v);
    var L, R := Column(t, c), Column(t, c + 1);
    assert L == L[..r] + x[..a] && R == x[a..] + R[r + 1..];
    assert p == p[..a] + p[a..] && x == x[..a] + x[a..];
    SumAppend(L[..r], x[..a]);
    SumAppend(x[a..], R[r + 1..]);
    SumAppend(p[..a], p[a..]);
    SumAppend(x[..a], x[a..]);
    SumAppend(L[..r], p[..a]);
    SumAppend(p[a..], R[r + 1..]);
  }

  // Every Garnir replacement strictly raises the weight.
  lemma GarnirRaises(t: IntTableau, r: nat, c: nat, v: seq<nat>, m: nat)
    requires Descent(t, r, c) && ColumnsIncrease(t) && c + 1 < m
    requires v in Shuffles(t, r, c) && v != Identity(|v|)
    ensures |v| == |Exchangeable(t, r, c)| && IsPermutation(v)
    ensures Weight(Exchanged(t, r, c, Pick(Exchangeable(t, r, c), v)), m) > Weight(t, m)
  {
    ShufflesAre(t, r, c, v);
    DescentSeparates(t, r, c);
    var A, B := Column(t, c)[r..], Column(t, c + 1)[..r + 1];
    var p := Pick(Exchangeable(t, r, c), v);
    ShuffleRaises(A, B, v);
    ExchangedSums(t, r, c, v);
    assert Exchangeable(t, r, c)[|A|..] == B;
    var u := Exchanged(t, r, c, p);
    forall d: nat ensures Column(u, d) ==
      (if d == c then LeftColumn(t, r, c, p) else if d == c + 1 then RightColumn(t, r, c, p) else Column(t, d))
    {
      ExchangedColumns(t, r, c, p, d);
    }
    WeightShift(t, u, c, m);
  }
}
