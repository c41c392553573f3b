// The work list of tableaux::standard_form and add_tableau.

module Straightening {
  import opened Signs
  import opened Generator
  import opened Tableaux
  import opened Garnir
  import opened StandardForm
  import opened Potential
  import opened Symmetry

  // ------------------------------------------------------ add_tableau and the measure

  lemma SameRowsPending(s: seq<Entry>, i: nat, e: Entry, E: nat)
    requires AllGood(s, E) && i < |s| && e.rows == s[i].rows
    ensures AllGood(s[i := e], E) && Pending(s[i := e], E) == Pending(s, E)
  {
    hide Pending, PotentialOf;
    var s' := s[i := e];
    assert AllGood(s', E);
    PendingAt(s, i, E);
    PendingAt(s', i, E);
    assert s'[..i] == s[..i] && s'[i + 1..] == s[i + 1..];
  }

  lemma DroppedPending(s: seq<Entry>, i: nat, E: nat)
    requires AllGood(s, E) && i < |s|
    ensures AllGood(s[..i] + s[i + 1..], E) && Pending(s[..i] + s[i + 1..], E) < Pending(s, E)
  {
    hide Pending, Good;
    PendingAt(s, i, E);
    PendingAppend(s[..i], s[i + 1..], E);
    assert Good(s[i], E);
    PositivePotential(s[i], E);
  }

  lemma PositivePotential(e: Entry, E: nat)
    requires Good(e, E)
    ensures PotentialOf(e.rows, E) > 0
  {
  }

  lemma TailGood(s: seq<Entry>, cur: nat, E: nat)
    requires AllGood(s, E) && cur <= |s|
    ensures AllGood(s[cur..], E)
  {
    assert s == s[..cur] + s[cur..];
    GoodParts(s[..cur], s[cur..], E);
  }

  // Adding a tableau costs at most its own potential.
  lemma AddedPending(s: seq<Entry>, e: Entry, cur: nat, E: nat)
    requires AllGood(s, E) && Good(e, E) && cur < |s| && s[cur].rows != e.rows
    ensures AllGood(s[cur..], E) && Moved(s, e, cur) <= |Added(s, e)| && AllGood(Added(s, e)[Moved(s, e, cur)..], E)
    ensures Pending(Added(s, e)[Moved(s, e, cur)..], E) <= Pending(s[cur..], E) + PotentialOf(e.rows, E)
  {
    hide Pending, PotentialOf, Good;
    TailGood(s, cur, E);
    var i := Find(s, e.rows);
    if i == |s| {
      AppendedPending(s, e, cur, E);
    } else {
      MergedPending(s, i, Entry(e.rows, s[i].multiplicity + e.multiplicity), cur, E);
    }
  }

  lemma AppendedPending(s: seq<Entry>, e: Entry, cur: nat, E: nat)
    requires Good(e, E) && cur <= |s| && AllGood(s[cur..], E)
    ensures AllGood((s + [e])[cur..], E)
    ensures Pending((s + [e])[cur..], E) == Pending(s[cur..], E) + PotentialOf(e.rows, E)
  {
    hide Pending, PotentialOf, Good;
    assert (s + [e])[cur..] == s[cur..] + [e];
    PendingOne(e, E);
    PendingAppend(s[cur..], [e], E);
  }

  lemma MergedPending(s: seq<Entry>, i: nat, d: Entry, cur: nat, E: nat)
    requires cur < |s| && AllGood(s[cur..], E) && i < |s| && i != cur && d.rows == s[i].rows
    ensures AllGood(s[i := d][cur..], E) && Pending(s[i := d][cur..], E) == Pending(s[cur..], E)
    ensures var next := if i < cur then cur - 1 else cur;
            AllGood((s[..i] + s[i + 1..])[next..], E)
              && Pending((s[..i] + s[i + 1..])[next..], E) <= Pending(s[cur..], E)
  {
    hide Pending, PotentialOf, Good;
    if i < cur {
      TailBefore(s, i, d, cur);
    } else {
      TailAfter(s, i, d, cur);
      SameRowsPending(s[cur..], i - cur, d, E);
      DroppedPending(s[cur..], i - cur, E);
    }
  }

  lemma TailBefore<A>(s: seq<A>, i: nat, d: A, cur: nat)
    requires i < cur < |s|
    ensures s[i := d][cur..] == s[cur..] && (s[..i] + s[i + 1..])[cur - 1..] == s[cur..]
  {
  }

  lemma TailAfter<A>(s: seq<A>, i: nat, d: A, cur: nat)
    requires cur <= i < |s|
    ensures s[cur..][i - cur] == s[i] && s[i := d][cur..] == s[cur..][i - cur := d]
    ensures (s[..i] + s[i + 1..])[cur..] == s[cur..][..i - cur] + s[cur..][i - cur + 1..]
  {
  }

  // ------------------------------------------------------------ One replacement

  // sign of the k-th shuffle times the exchanged tableau, as an entry.
  lemma ExchangeWorth(F: IntTableau -> real, u: IntTableau, m: real, sign: int)
    requires sign == 1 || sign == -1
    ensures Worth(F, Entry(u, m * (-1 * sign) as real)) == -(m * SignedReal(sign, F(u)))
  {
  }

  lemma SumStep(m: real, g: real, x: real)
    ensures m * (g + x) == m * g + m * x
  {
  }

  // The exchange number 0 is the tableau itself.
  lemma FirstExchange(t: IntTableau, r: nat, c: nat)
    requires At(t, r, c)
    ensures |Shuffles(t, r, c)| > 0 && ExchangedBy(t, r, c, 0) == t && Sign(Shuffles(t, r, c)[0]) == 1
    ensures forall k :: 0 < k < |Shuffles(t, r, c)| ==> Shuffles(t, r, c)[k] != Identity(|Exchangeable(t, r, c)|)
  {
    var P := GarnirProblem(t, r, c);
    GarnirProblemIs(t, r, c);
    PlainFirst(P);
    PlainGenerated(P);
    var id := Identity(P.n);
    assert Pick(Exchangeable(t, r, c), id) == Exchangeable(t, r, c);
    ExchangedSelf(t, r, c);
    SortedIdentity(P.n);
    forall k | 0 < k < |Shuffles(t, r, c)| ensures Shuffles(t, r, c)[k] != id {
      SortedAt(Generated(P), 0, k);
      LexAsymmetric(id, Generated(P)[k]);
    }
  }

  lemma SortedIdentity(n: nat)
    ensures Sign(Identity(n)) == 1
  {
    var id := Identity(n);
    assert Sorted(id);
    SortedInversions(id);
  }

  // combinations::ordersign of a stored shuffle of different values.
  lemma StoredSign<T>(x: seq<T>, v: seq<nat>)
    requires Distinct(x) && |v| == |x| && IsPermutation(v)
    ensures CrossSign(x, Pick(x, v)) == Sign(v)
  {
    hide CrossSign, Sign;
    var p := Pick(x, v);
    PermutationOnto(v);
    PickDistinct(x, v);
    forall y | y in x ensures y in p {
      var i :| 0 <= i < |x| && x[i] == y;
      assert i in v;
      var k :| 0 <= k < |v| && v[k] == i;
      assert p[k] == y;
    }
    CrossSignIsSign(x, p);
    forall k | 0 <= k < |v| ensures Ranks(x, p)[k] == v[k] { IndexOfOwn(x, v[k]); }
    assert Ranks(x, p) == v;
  }

  // tableau_base::column_size, on non-empty rows.
  method ColumnSizeOf(t: IntTableau, c: nat) returns (n: nat)
    requires YoungRows(t)
    ensures n == |Column(t, c)|
  {
    n := 0;
    while n < |t| && !(|t[n]| - 1 < c)
      invariant 0 <= n <= |t|
      invariant forall i :: 0 <= i < n ==> c < |t[i]|
    {
      n := n + 1;
    }
    ColumnCell(t, c, n);
    if n > 0 { ColumnCell(t, c, n - 1); }
  }

  // com.original and com.sublengths.
  method CollectOriginal(t: IntTableau, r: nat, c: nat) returns (original: seq<int>, first: nat)
    requires At(t, r, c)
    ensures original == Exchangeable(t, r, c) && first == Below(t, r, c)
  {
    var h := ColumnSizeOf(t, c);
    AtSizes(t, r, c);
    original := [];
    for i := r to h
      invariant original == Column(t, c)[r..i]
    {
      ColumnCell(t, c, i);
      original := original + [t[i][c]];
    }
    for i := 0 to r + 1
      invariant original == Column(t, c)[r..] + Column(t, c + 1)[..i]
    {
      ColumnCell(t, c + 1, i);
      original := original + [t[i][c + 1]];
    }
    first := h - r;
  }

  // The copy of t with p written into the exchangeable boxes, box by box.
  method WriteExchange(t: IntTableau, r: nat, c: nat, p: seq<int>) returns (u: IntTableau)
    requires At(t, r, c) && |p| == |Exchangeable(t, r, c)|
    ensures u == Exchanged(t, r, c, p)
  {
    AtSizes(t, r, c);
    ghost var x := LeftColumn(t, r, c, p);
    u := WriteLeft(t, r, c, p);
    SetColumnColumn(t, c, x, c + 1);
    u := WriteRight(t, r, c, p, u);
  }

  method WriteLeft(t: IntTableau, r: nat, c: nat, p: seq<int>) returns (u: IntTableau)
    requires At(t, r, c) && |p| == |Exchangeable(t, r, c)|
    ensures u == SetColumn(t, c, LeftColumn(t, r, c, p))
  {
    var h := ColumnSizeOf(t, c);
    AtSizes(t, r, c);
    ghost var x := LeftColumn(t, r, c, p);
    u := t;
    var offset := 0;
    LeftUnchanged(t, r, c, p);
    for i := r to h
      invariant offset == i - r && |u| == |t|
      invariant forall k :: 0 <= k < |t| ==> u[k] == if k < i then SetInRow(t[k], c, x, k) else t[k]
    {
      ColumnCell(t, c, i);
      u := u[i := u[i][c := p[offset]]];
      offset := offset + 1;
    }
    LeftRest(t, r, c, p, h);
  }

  method WriteRight(t: IntTableau, r: nat, c: nat, p: seq<int>, left: IntTableau) returns (u: IntTableau)
    requires At(t, r, c) && |p| == |Exchangeable(t, r, c)| && left == SetColumn(t, c, LeftColumn(t, r, c, p))
    requires YoungRows(left) && |RightColumn(t, r, c, p)| == |Column(left, c + 1)|
    ensures u == SetColumn(left, c + 1, RightColumn(t, r, c, p))
  {
    hide LeftColumn;
    AtSizes(t, r, c);
    ghost var y := RightColumn(t, r, c, p);
    u := left;
    var offset := Below(t, r, c);
    for i := 0 to r + 1
      invariant offset == Below(t, r, c) + i && |u| == |t|
      invariant forall k :: 0 <= k < |t| ==> u[k] == if k < i then SetInRow(left[k], c + 1, y, k) else left[k]
    {
      ColumnCell(t, c + 1, i);
      u := u[i := u[i][c + 1 := p[offset]]];
      offset := offset + 1;
    }
    RightRest(t, r, c, p);
  }

  lemma LeftUnchanged(t: IntTableau, r: nat, c: nat, p: seq<int>)
    requires At(t, r, c) && |p| == |Exchangeable(t, r, c)|
    ensures forall k :: 0 <= k < r ==> SetInRow(t[k], c, LeftColumn(t, r, c, p), k) == t[k]
  {
    forall k | 0 <= k < r ensures SetInRow(t[k], c, LeftColumn(t, r, c, p), k) == t[k] {
      AtSizes(t, r, c);
      ColumnCell(t, c, k);
    }
  }

  lemma LeftRest(t: IntTableau, r: nat, c: nat, p: seq<int>, h: nat)
    requires At(t, r, c) && |p| == |Exchangeable(t, r, c)| && h == |Column(t, c)|
    ensures forall k :: h <= k < |t| ==> SetInRow(t[k], c, LeftColumn(t, r, c, p), k) == t[k]
  {
  }

  lemma RightRest(t: IntTableau, r: nat, c: nat, p: seq<int>)
    requires At(t, r, c) && |p| == |Exchangeable(t, r, c)|
    ensures var left := SetColumn(t, c, LeftColumn(t, r, c, p));
            forall k :: r < k < |t| ==> SetInRow(left[k], c + 1, RightColumn(t, r, c, p), k) == left[k]
  {
    var x, y := LeftColumn(t, r, c, p), RightColumn(t, r, c, p);
    var left := SetColumn(t, c, x);
    AtSizes(t, r, c);
    forall k | r < k < |t| ensures SetInRow(left[k], c + 1, y, k) == left[k] {
      ColumnCell(t, c + 1, k);
      assert k < |y| ==> y[k] == Column(t, c + 1)[k];
    }
  }

  // --------------------------------------------------- Sorting keeps the measure

  lemma {:induction false} SumOfSame(a: seq<int>, b: seq<int>)
    requires multiset(a) == multiset(b)
    ensures Sum(a) == Sum(b)
  {
    if a == [] {
      assert |multiset(b)| == 0;
      assert b == [];
    } else {
      var n := |a| - 1;
      assert a[n] in multiset(b);
      var j :| 0 <= j < |b| && b[j] == a[n];
      WithoutOne(b, j);
      WithoutLast(a);
      SumOfSame(a[..n], b[..j] + b[j + 1..]);
      SumWithout(b, j);
    }
  }

  lemma SumWithout(b: seq<int>, j: nat)
    requires j < |b|
    ensures Sum(b) == Sum(b[..j] + b[j + 1..]) + b[j]
  {
    hide Sum;
    assert b == b[..j] + [b[j]] + b[j + 1..];
    SumAppend(b[..j] + [b[j]], b[j + 1..]);
    SumAppend(b[..j], [b[j]]);
    SumAppend(b[..j], b[j + 1..]);
    SumOne(b[j]);
  }

  lemma SortedWeight(t: IntTableau, w: nat, m: nat)
    requires YoungRows(t)
    ensures Weight(SortColumns(t, w), m) == Weight(t, m)
  {
    hide SortAscending, SortColumns, Column;
    forall d | 0 <= d < m ensures Sum(Column(t, d)) == Sum(Column(SortColumns(t, w), d)) {
      SortColumnsColumn(t, w, d);
      SumOfSame(SortAscending(Column(t, d)), Column(t, d));
    }
    WeightAgree(t, SortColumns(t, w), m);
  }

  lemma {:induction false} SortedBounded(t: IntTableau, m: nat, E: nat)
    requires Proper(t) && Bounded(t, E)
    ensures Bounded(SortColumns(t, m), E)
  {
    hide Bounded, Proper, SortColumn;
    if m > 0 {
      SortedBounded(t, m - 1, E);
      SortColumnsDistinct(t, m - 1);
      SortOneBounded(SortColumns(t, m - 1), m - 1, E);
    }
  }

  lemma SortOneBounded(t: IntTableau, c: nat, E: nat)
    requires Proper(t) && Bounded(t, E)
    ensures Bounded(SortColumn(t, c), E)
  {
    hide SortAscending;
    var x := SortAscending(Column(t, c));
    ColumnDistinct(t, c);
    SortMembers(Column(t, c));
    var u := SortColumn(t, c);
    forall r, d | 0 <= r < |u| && 0 <= d < |u[r]| ensures u[r][d] <= E && -u[r][d] <= E {
      CellFrom(t, c, x, r, d);
    }
  }

  lemma SortedGood(e: Entry, r: Entry, E: nat)
    requires Good(e, E) && r.rows == SortColumns(e.rows, |e.rows[0]|)
    ensures Good(r, E) && PotentialOf(r.rows, E) == PotentialOf(e.rows, E) && ColumnsIncrease(r.rows)
  {
    hide SortColumns, Column;
    SortColumnsDistinct(e.rows, |e.rows[0]|);
    SortedBounded(e.rows, |e.rows[0]|, E);
    SortedWeight(e.rows, |e.rows[0]|, |e.rows[0]|);
    SortedColumnsIncrease(e.rows);
    SameMaxWeight(e.rows, r.rows);
  }

  lemma SameMaxWeight(t: IntTableau, u: IntTableau)
    requires SameShape(t, u) && t != []
    ensures |t| == |u| && |t[0]| == |u[0]|
  {
  }

  lemma SortedWorth(F: IntTableau -> real, e: Entry, r: Entry)
    requires ColumnAntisymmetric(F) && Proper(e.rows)
    requires r.rows == SortColumns(e.rows, |e.rows[0]|)
    requires r.multiplicity == SignedReal(ColumnsSign(e.rows, |e.rows[0]|), e.multiplicity)
    ensures Worth(F, r) == Worth(F, e)
  {
    hide SortColumns, ColumnsSign, ColumnAntisymmetric;
    SortColumnsValue(F, e.rows, |e.rows[0]|);
    SignedProduct(ColumnsSign(e.rows, |e.rows[0]|), e.multiplicity, F(e.rows));
  }

  // ------------------------------------------------------------- The children

  // What each exchange but the first is like.
  lemma ChildFacts(t: IntTableau, r: nat, c: nat, k: nat, E: nat)
    requires Descent(t, r, c) && ColumnsIncrease(t) && Proper(t) && Bounded(t, E) && 0 < k < |Shuffles(t, r, c)|
    ensures var u := ExchangedBy(t, r, c, k);
            && Proper(u) && Bounded(u, E) && u != t && Slack(t, E) > 0
            && PotentialOf(u, E) <= Pow(Branching(|t|), Slack(t, E) - 1)
  {
    hide Exchanged, Exchangeable, Shuffles, PotentialOf;
    FirstExchange(t, r, c);
    var v := Shuffles(t, r, c)[k];
    ShufflesAre(t, r, c, v);
    ExchangedPotential(t, r, c, v, E);
    DifferentPotential(t, E);
  }

  lemma DifferentPotential(t: IntTableau, E: nat)
    requires Proper(t) && Bounded(t, E)
    ensures Slack(t, E) > 0 ==> PotentialOf(t, E) == Branching(|t|) * Pow(Branching(|t|), Slack(t, E) - 1)
    ensures Slack(t, E) > 0 ==> PotentialOf(t, E) > Pow(Branching(|t|), Slack(t, E) - 1)
  {
    if Slack(t, E) > 0 {
      PowPositive(Branching(|t|), Slack(t, E) - 1);
      Grows(Branching(|t|), Pow(Branching(|t|), Slack(t, E) - 1));
    }
  }

  lemma Grows(b: nat, q: nat)
    requires b > 1 && q > 0
    ensures b * q > q
  {
  }

  // n < B children of potential at most Q, against B * Q.
  lemma FewChildren(n: nat, b: nat, q: nat)
    requires n < b && q > 0
    ensures n * q < b * q
  {
  }

  lemma OneMoreChild(n: nat, q: nat)
    ensures (n + 1) * q == n * q + q
  {
  }
}
