// Why standard_form stops: each Garnir replacement trades a tableau for fewer
// than B tableaux of larger weight, and the weight is bounded.

module Potential {
  import opened Signs
  import opened Generator
  import opened Counting
  import opened Tableaux
  import opened Garnir
  import opened StandardForm

  function Pow(b: nat, e: nat): nat {
    if e == 0 then 1 else b * Pow(b, e - 1)
  }

  lemma {:induction false} PowPositive(b: nat, e: nat)
    requires b > 0
    ensures Pow(b, e) > 0
  {
    if e > 0 { PowPositive(b, e - 1); }
  }

  lemma {:induction false} PowMonotone(b: nat, d: nat, e: nat)
    requires b > 0 && d <= e
    ensures Pow(b, d) <= Pow(b, e)
    decreases e
  {
    if d < e {
      PowMonotone(b, d, e - 1);
      PowPositive(b, e - 1);
      Scale(1, b, Pow(b, e - 1));
    }
  }

  // ------------------------------------------------------------ Bounded weight

  lemma {:induction false} SumBound(s: seq<int>, E: nat)
    requires forall i :: 0 <= i < |s| ==> s[i] <= E
    ensures Sum(s) <= |s| * E
  {
    if s != [] {
      SumBound(s[..|s| - 1], E);
      assert |s| * E == (|s| - 1) * E + E;
    }
  }

  function MaxWeight(h: nat, E: nat, m: nat): int {
    if m == 0 then 0 else MaxWeight(h, E, m - 1) + (m - 1) * (h * E)
  }

  lemma ColumnSumBound(t: IntTableau, E: nat, c: nat)
    requires YoungRows(t) && Bounded(t, E)
    ensures Sum(Column(t, c)) <= |t| * E
  {
    var x := Column(t, c);
    forall i | 0 <= i < |x| ensures x[i] <= E { ColumnCell(t, c, i); }
    SumBound(x, E);
    ColumnSize(t, c, 0);
    Scale(|x|, |t|, E);
  }

  lemma Scale(a: nat, b: nat, k: nat)
    requires a <= b
    ensures a * k <= b * k && k * a <= k * b
  {
  }

  lemma ScaleInt(a: int, b: int, k: nat)
    requires a <= b
    ensures k * a <= k * b
  {
  }

  lemma {:induction false} WeightBound(t: IntTableau, E: nat, m: nat)
    requires YoungRows(t) && Bounded(t, E)
    ensures Weight(t, m) <= MaxWeight(|t|, E, m)
  {
    hide Column, YoungRows, Bounded;
    if m > 0 {
      WeightBound(t, E, m - 1);
      ColumnSumBound(t, E, m - 1);
      ScaleInt(Sum(Column(t, m - 1)), |t| * E, m - 1);
    }
  }

  // How far the weight is from its bound.
  ghost function Slack(t: IntTableau, E: nat): nat
    requires Proper(t) && Bounded(t, E)
  {
    WeightBound(t, E, |t[0]|);
    MaxWeight(|t|, E, |t[0]|) - Weight(t, |t[0]|)
  }

  // More than the number of exchanges of any tableau with h rows.
  function Branching(h: nat): (b: nat)
    ensures b > 1
  {
    Factorial(h + 1) + 1
  }

  ghost function PotentialOf(t: IntTableau, E: nat): (n: nat)
    requires Proper(t) && Bounded(t, E)
    ensures n > 0
  {
    PowPositive(Branching(|t|), Slack(t, E));
    Pow(Branching(|t|), Slack(t, E))
  }

  // ------------------------------------------------------- Counting exchanges

  lemma {:induction false} FactorialMonotone(m: nat, n: nat)
    requires m <= n
    ensures Factorial(m) <= Factorial(n)
    decreases n
  {
    if m < n {
      FactorialMonotone(m, n - 1);
      Scale(1, n, Factorial(n - 1));
    }
  }

  lemma ProductAtLeast(x: nat, y: nat)
    requires y > 0
    ensures x <= x * y
  {
  }

  lemma ShuffleCount(t: IntTableau, r: nat, c: nat)
    requires At(t, r, c)
    ensures |Shuffles(t, r, c)| < Branching(|t|)
  {
    var P := GarnirProblem(t, r, c);
    AtSizes(t, r, c);
    GarnirProblemIs(t, r, c);
    TotalPermutations(P);
    var g, f := |Generated(P)|, ProductOfFactorials(P.sublengths, 0);
    assert Factorial(0) == 1;
    assert g * 1 * f == Factorial(P.n);
    ProductAtLeast(g, f);
    FactorialMonotone(P.n, |t| + 1);
  }

  // --------------------------------------------------------- An exchange is good

  lemma ExchangedBounded(t: IntTableau, r: nat, c: nat, v: seq<nat>, E: nat)
    requires At(t, r, c) && Bounded(t, E) && |v| == |Exchangeable(t, r, c)| && IsPermutation(v)
    ensures Bounded(Exchanged(t, r, c, Pick(Exchangeable(t, r, c), v)), E)
  {
    var p := Pick(Exchangeable(t, r, c), v);
    var x, y := LeftColumn(t, r, c, p), RightColumn(t, r, c, p);
    AtSizes(t, r, c);
    SetColumnColumn(t, c, x, c + 1);
    FromTheColumns(t, r, c, v);
    var u := Exchanged(t, r, c, p);
    forall i, d | 0 <= i < |u| && 0 <= d < |u[i]| ensures u[i][d] <= E && -u[i][d] <= E {
      TwoCells(t, c, x, y, i, d);
    }
  }

  lemma FromTheColumns(t: IntTableau, r: nat, c: nat, v: seq<nat>)
    requires At(t, r, c) && |v| == |Exchangeable(t, r, c)| && IsPermutation(v)
    ensures var p := Pick(Exchangeable(t, r, c), v);
            var z := LeftColumn(t, r, c, p) + RightColumn(t, r, c, p);
            forall k :: 0 <= k < |z| ==> z[k] in Column(t, c) + Column(t, c + 1)
  {
    var p := Pick(Exchangeable(t, r, c), v);
    var z := LeftColumn(t, r, c, p) + RightColumn(t, r, c, p);
    AtSizes(t, r, c);
    var h, x, l := Column(t, c)[..r], Exchangeable(t, r, c), Column(t, c + 1)[r + 1..];
    assert Column(t, c) + Column(t, c + 1) == h + x + l;
    assert z == h + p + l;
    forall k | 0 <= k < |z| ensures z[k] in h + x + l {
      var m := MiddleSource(h, x, p, l, k);
    }
  }

  lemma ExchangedGood(t: IntTableau, r: nat, c: nat, v: seq<nat>, E: nat)
    requires At(t, r, c) && Proper(t) && Bounded(t, E) && v in Shuffles(t, r, c)
    ensures |v| == |Exchangeable(t, r, c)| && IsPermutation(v)
    ensures var u := Exchanged(t, r, c, Pick(Exchangeable(t, r, c), v));
            Proper(u) && Bounded(u, E) && SameShape(t, u)
  {
    ShufflesAre(t, r, c, v);
    var p := Pick(Exchangeable(t, r, c), v);
    ExchangedColumns(t, r, c, p, c);
    ExchangedDistinct(t, r, c, v);
    ExchangedBounded(t, r, c, v, E);
  }

  // The potential of an exchange that moves something is at most 1/B of the potential.
  lemma ExchangedPotential(t: IntTableau, r: nat, c: nat, v: seq<nat>, E: nat)
    requires Descent(t, r, c) && ColumnsIncrease(t) && Proper(t) && Bounded(t, E)
    requires v in Shuffles(t, r, c) && v != Identity(|v|)
    ensures |v| == |Exchangeable(t, r, c)| && IsPermutation(v)
    ensures var u := Exchanged(t, r, c, Pick(Exchangeable(t, r, c), v));
            && Proper(u) && Bounded(u, E)
            && Slack(t, E) > 0
            && PotentialOf(u, E) <= Pow(Branching(|t|), Slack(t, E) - 1)
  {
    ExchangedGood(t, r, c, v, E);
    var u := Exchanged(t, r, c, Pick(Exchangeable(t, r, c), v));
    YoungRowsChain(t, 0, r);
    GarnirRaises(t, r, c, v, |t[0]|);
    assert |u[0]| == |t[0]|;
    assert Slack(u, E) < Slack(t, E);
    PowMonotone(Branching(|t|), Slack(u, E), Slack(t, E) - 1);
  }

  // -------------------------------------------------- Potential of a work list

  ghost function Pending(s: seq<Entry>, E: nat): nat
    requires AllGood(s, E)
  {
    if s == [] then 0 else PotentialOf(s[0].rows, E) + Pending(s[1..], E)
  }

  lemma GoodParts(a: seq<Entry>, b: seq<Entry>, E: nat)
    ensures AllGood(a + b, E) <==> AllGood(a, E) && AllGood(b, E)
  {
    if AllGood(a + b, E) {
      forall i | 0 <= i < |a| ensures Good(a[i], E) { assert a[i] == (a + b)[i]; }
      forall i | 0 <= i < |b| ensures Good(b[i], E) { assert b[i] == (a + b)[|a| + i]; }
    }
  }

  lemma {:induction false} PendingAppend(a: seq<Entry>, b: seq<Entry>, E: nat)
    requires AllGood(a, E) && AllGood(b, E)
    ensures AllGood(a + b, E) && Pending(a + b, E) == Pending(a, E) + Pending(b, E)
  {
    hide PotentialOf, Good;
    GoodParts(a, b, E);
    if a == [] {
      assert a + b == b;
    } else {
      assert (a + b)[1..] == a[1..] + b;
      PendingAppend(a[1..], b, E);
    }
  }

  lemma PendingOne(e: Entry, E: nat)
    requires Good(e, E)
    ensures AllGood([e], E) && Pending([e], E) == PotentialOf(e.rows, E)
  {
    assert [e][1..] == [];
  }

  lemma PendingAt(s: seq<Entry>, i: nat, E: nat)
    requires AllGood(s, E) && i < |s|
    ensures AllGood(s[..i], E) && AllGood(s[i + 1..], E) && Good(s[i], E)
    ensures Pending(s, E) == Pending(s[..i], E) + PotentialOf(s[i].rows, E) + Pending(s[i + 1..], E)
  {
    hide PotentialOf, Good, Pending;
    assert s == s[..i] + [s[i]] + s[i + 1..];
    GoodParts(s[..i] + [s[i]], s[i + 1..], E);
    GoodParts(s[..i], [s[i]], E);
    assert Good([s[i]][0], E);
    PendingAppend(s[..i] + [s[i]], s[i + 1..], E);
    PendingAppend(s[..i], [s[i]], E);
    PendingOne(s[i], E);
  }
}
