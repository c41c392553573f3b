// The product of all differences of n numbers is a multiple of the product of the
// first factorials.

module Vandermonde {
  import opened Signs
  import opened Counting
  import opened Hooks

  // ------------------------------------------------------------- Divisibility

  ghost predicate Divides(d: int, x: int) {
    exists q :: x == Times(q, d)
  }

  lemma DividesTimes(d: int, c: int, x: int)
    requires Divides(d, x)
    ensures Divides(d, Times(c, x))
  {
    var q :| x == Times(q, d);
    TimesAssociate(c, q, d);
    assert Times(c, x) == Times(Times(c, q), d);
  }

  lemma DividesSum(d: int, x: int, y: int)
    requires Divides(d, x) && Divides(d, y)
    ensures Divides(d, x + y) && Divides(d, x - y)
  {
    var p :| x == Times(p, d);
    var q :| y == Times(q, d);
    assert x + y == Times(p + q, d) && x - y == Times(p - q, d);
  }

  lemma DividesZero(d: int)
    ensures Divides(d, 0)
  {
    assert 0 == Times(0, d);
  }

  // -------------------------------------------------- Degree by differences

  // The m-th difference of f at x.
  function Difference(f: int -> int, m: nat, x: int): int {
    if m == 0 then f(x) else Difference(f, m - 1, x + 1) - Difference(f, m - 1, x)
  }

  // f is a polynomial of degree less than m.
  ghost predicate Degree(f: int -> int, m: nat) {
    forall x :: Difference(f, m, x) == 0
  }

  lemma {:induction false} ScaledDifference(f: int -> int, h: int -> int, c: int, m: nat, x: int)
    requires forall y :: h(y) == Times(c, f(y))
    ensures Difference(h, m, x) == Times(c, Difference(f, m, x))
  {
    hide Times;
    if m > 0 {
      ScaledDifference(f, h, c, m - 1, x);
      ScaledDifference(f, h, c, m - 1, x + 1);
      TimesDifference(c, Difference(f, m - 1, x + 1), Difference(f, m - 1, x));
    }
  }

  lemma TimesDifference(c: int, x: int, y: int)
    ensures Times(c, x) - Times(c, y) == Times(c, x - y)
  {
  }

  lemma ScaledDegree(f: int -> int, h: int -> int, c: int, m: nat)
    requires Degree(f, m) && forall x :: h(x) == Times(c, f(x))
    ensures Degree(h, m)
  {
    hide Times, Difference;
    forall x ensures Difference(h, m, x) == 0 {
      ScaledDifference(f, h, c, m, x);
      TimesNought(c, Difference(f, m, x));
    }
  }

  lemma TimesNought(x: int, y: int)
    ensures x == 0 || y == 0 ==> Times(x, y) == 0
  {
  }

  // The m-th difference of (x - a) f(x).
  lemma {:induction false} LinearDifference(f: int -> int, h: int -> int, a: int, m: nat, x: int)
    requires m > 0 && forall y :: h(y) == Times(y - a, f(y))
    ensures Difference(h, m, x) == Times(x - a, Difference(f, m, x)) + Times(m, Difference(f, m - 1, x + 1))
  {
    hide Times;
    if m == 1 {
      assert Difference(h, 0, x) == h(x) && Difference(h, 0, x + 1) == h(x + 1);
      assert Difference(f, 0, x) == f(x) && Difference(f, 0, x + 1) == f(x + 1);
      ProductRule(x - a, 0, f(x), f(x + 1), 0, 0);
    } else {
      LinearDifference(f, h, a, m - 1, x);
      LinearDifference(f, h, a, m - 1, x + 1);
      ProductRule(x - a, m - 1, Difference(f, m - 1, x), Difference(f, m - 1, x + 1),
        Difference(f, m - 2, x + 1), Difference(f, m - 2, x + 2));
    }
  }

  lemma ProductRule(a: int, m: int, y: int, z: int, u: int, v: int)
    requires m == 0 || z == v - u
    ensures Times(a + 1, z) + Times(m, v) - (Times(a, y) + Times(m, u)) == Times(a, z - y) + Times(m + 1, z)
    ensures m == 0 ==> Times(a + 1, z) - Times(a, y) == Times(a, z - y) + Times(1, z)
  {
    assert m * v - m * u == m * (v - u);
  }

  // One more linear factor is one degree more.
  lemma LinearDegree(f: int -> int, h: int -> int, a: int, m: nat)
    requires Degree(f, m) && forall x :: h(x) == Times(x - a, f(x))
    ensures Degree(h, m + 1)
  {
    hide Times;
    var n := m + 1;
    forall x ensures Difference(h, n, x) == 0 {
      LinearDifference(f, h, a, m + 1, x);
      assert Difference(f, m, x + 1) == 0 && Difference(f, m, x) == 0;
      assert Difference(f, m + 1, x) == 0;
      TimesNought(x - a, 0);
      TimesNought(m + 1, 0);
    }
  }

  // A polynomial of degree less than m that d divides at 0, ..., m - 1 it divides
  // everywhere.
  lemma DividesEverywhere(f: int -> int, m: nat, d: int)
    requires Degree(f, m) && forall x :: 0 <= x < m ==> Divides(d, f(x))
    ensures forall x :: Divides(d, f(x))
  {
    hide Divides;
    forall x ensures Divides(d, f(x)) {
      DividesDifference(f, m, d, 0, x);
      assert Difference(f, 0, x) == f(x);
    }
  }

  lemma {:induction false} DividesDifference(f: int -> int, m: nat, d: int, k: nat, x: int)
    requires k <= m && Degree(f, m) && forall y :: 0 <= y < m ==> Divides(d, f(y))
    ensures Divides(d, Difference(f, k, x))
    decreases m - k, if x < 0 then -x else x
  {
    hide Divides;
    if k == m {
      DividesZero(d);
    } else if x == 0 {
      DividesAtStart(f, m, d, k, 0);
    } else if x > 0 {
      DividesDifference(f, m, d, k, x - 1);
      DividesDifference(f, m, d, k + 1, x - 1);
      DividesSum(d, Difference(f, k, x - 1), Difference(f, k + 1, x - 1));
    } else {
      DividesDifference(f, m, d, k, x + 1);
      DividesDifference(f, m, d, k + 1, x);
      DividesSum(d, Difference(f, k, x + 1), Difference(f, k + 1, x));
    }
  }

  lemma {:induction false} DividesAtStart(f: int -> int, m: nat, d: int, k: nat, x: nat)
    requires x + k < m && forall y :: 0 <= y < m ==> Divides(d, f(y))
    ensures Divides(d, Difference(f, k, x))
  {
    hide Divides;
    if k > 0 {
      DividesAtStart(f, m, d, k - 1, x);
      DividesAtStart(f, m, d, k - 1, x + 1);
      DividesSum(d, Difference(f, k - 1, x + 1), Difference(f, k - 1, x));
    }
  }

  // ------------------------------------------------ The product of differences

  function Fan(h: int, t: seq<int>): int {
    if t == [] then 1 else Times(h - t[0], Fan(h, t[1..]))
  }

  function Differences(l: seq<int>): int {
    if l == [] then 1 else Times(Fan(l[0], l[1..]), Differences(l[1..]))
  }

  lemma {:induction false} FanDegree(t: seq<int>, f: int -> int)
    requires forall x :: f(x) == Fan(x, t)
    ensures Degree(f, |t| + 1)
  {
    if t == [] {
      forall x ensures Difference(f, 1, x) == 0 {
        assert Difference(f, 0, x) == f(x) == 1 && Difference(f, 0, x + 1) == f(x + 1) == 1;
      }
    } else {
      var g := x => Fan(x, t[1..]);
      FanDegree(t[1..], g);
      LinearDegree(g, f, t[0], |t|);
    }
  }

  lemma {:induction false} FanReplaced(h: int, t: seq<int>, i: nat, x: int)
    requires i < |t|
    ensures Fan(h, t[i := x]) == Times(h - x, Fan(h, t[..i] + t[i + 1..]))
  {
    hide Times;
    var u, w := t[i := x], t[..i] + t[i + 1..];
    if i == 0 {
      assert u[1..] == t[1..] == w;
    } else {
      FanReplaced(h, t[1..], i - 1, x);
      assert u[1..] == t[1..][i - 1 := x] && w[1..] == t[1..][..i - 1] + t[1..][i..];
      TimesSwap(h - t[0], h - x, Fan(h, w[1..]));
    }
  }

  lemma TimesSwap(a: int, b: int, c: int)
    ensures Times(a, Times(b, c)) == Times(b, Times(a, c))
  {
    assert a * (b * c) == b * (a * c);
  }

  // As a function of one of the n numbers it has degree n - 1.
  lemma {:induction false} DifferencesDegree(l: seq<int>, i: nat, f: int -> int)
    requires i < |l| && forall x :: f(x) == Differences(l[i := x])
    ensures Degree(f, |l|)
  {
    hide Times, Fan, Differences, Degree;
    var t := l[1..];
    if i == 0 {
      var g := x => Fan(x, t);
      FanDegree(t, g);
      forall x ensures f(x) == Times(Differences(t), g(x)) { FirstReplaced(l, x); }
      ScaledDegree(g, f, Differences(t), |l|);
    } else {
      var g := x => Differences(t[i - 1 := x]);
      var p := x => Times(x - l[0], g(x));
      var c := Fan(l[0], t[..i - 1] + t[i..]);
      DifferencesDegree(t, i - 1, g);
      LinearDegree(g, p, l[0], |t|);
      forall x ensures f(x) == Times(-c, p(x)) { LaterReplaced(l, i, x, c); }
      ScaledDegree(p, f, -c, |l|);
    }
  }

  lemma FirstReplaced(l: seq<int>, x: int)
    requires l != []
    ensures Differences(l[0 := x]) == Times(Differences(l[1..]), Fan(x, l[1..]))
  {
    hide Times;
    assert l[0 := x][1..] == l[1..];
    TimesFlip(Fan(x, l[1..]), Differences(l[1..]));
  }

  lemma LaterReplaced(l: seq<int>, i: nat, x: int, c: int)
    requires 0 < i < |l| && c == Fan(l[0], l[1..][..i - 1] + l[1..][i..])
    ensures Differences(l[i := x]) == Times(-c, Times(x - l[0], Differences(l[1..][i - 1 := x])))
  {
    hide Times;
    assert l[i := x][1..] == l[1..][i - 1 := x];
    FanReplaced(l[0], l[1..], i - 1, x);
    Negate(l[0] - x, c, Differences(l[1..][i - 1 := x]));
  }

  lemma TimesFlip(a: int, b: int)
    ensures Times(a, b) == Times(b, a)
  {
  }

  lemma Negate(a: int, c: int, y: int)
    ensures Times(Times(a, c), y) == Times(-c, Times(-a, y))
  {
    assert (a * c) * y == (-c) * ((-a) * y);
  }

  lemma {:induction false} FanSwap(h: int, t: seq<int>, k: nat)
    requires k + 1 < |t|
    ensures Fan(h, Swap(t, k, k + 1)) == Fan(h, t)
  {
    hide Times;
    var u := Swap(t, k, k + 1);
    if k == 0 {
      assert u[1..][1..] == t[1..][1..];
      TimesSwap(h - t[0], h - t[1], Fan(h, t[1..][1..]));
    } else {
      assert u[1..] == Swap(t[1..], k - 1, k);
      FanSwap(h, t[1..], k - 1);
    }
  }

  lemma {:induction false} DifferencesSwap(l: seq<int>, k: nat)
    requires k + 1 < |l|
    ensures Differences(Swap(l, k, k + 1)) == -Differences(l)
  {
    hide Times;
    var u := Swap(l, k, k + 1);
    if k == 0 {
      var t := l[1..][1..];
      assert u[1..][1..] == t;
      FrontSwap(l[0], l[1], Fan(l[0], t), Fan(l[1], t), Differences(t));
    } else {
      assert u[1..] == Swap(l[1..], k - 1, k);
      DifferencesSwap(l[1..], k - 1);
      FanSwap(l[0], l[1..], k - 1);
      TimesMinus(Fan(l[0], l[1..]), Differences(l[1..]));
    }
  }

  lemma FrontSwap(a: int, b: int, f: int, g: int, d: int)
    ensures Times(Times(b - a, g), Times(f, d)) == -Times(Times(a - b, f), Times(g, d))
  {
    assert ((b - a) * g) * (f * d) == -(((a - b) * f) * (g * d));
  }

  lemma TimesMinus(a: int, b: int)
    ensures Times(a, -b) == -Times(a, b) == Times(-a, b)
  {
  }

  lemma {:induction false} FanHits(h: int, t: seq<int>, j: nat)
    requires j < |t| && t[j] == h
    ensures Fan(h, t) == 0
  {
    hide Times;
    if j > 0 { FanHits(h, t[1..], j - 1); }
    TimesNought(h - t[0], Fan(h, t[1..]));
  }

  lemma {:induction false} RepeatedVanishes(l: seq<int>, i: nat, j: nat)
    requires i < j < |l| && l[i] == l[j]
    ensures Differences(l) == 0
  {
    hide Times;
    if i == 0 { FanHits(l[0], l[1..], j - 1); } else { RepeatedVanishes(l[1..], i - 1, j - 1); }
    TimesNought(Fan(l[0], l[1..]), Differences(l[1..]));
  }

  // ------------------------------------------------------------ Factorials

  function Superfactorial(n: nat): int {
    if n == 0 then 1 else Times(Superfactorial(n - 1), Factorial(n - 1))
  }

  lemma {:induction false} SuperfactorialPositive(n: nat)
    ensures Superfactorial(n) > 0
  {
    if n > 0 {
      SuperfactorialPositive(n - 1);
      FactorialPositive(n - 1);
      PositiveTimes(Superfactorial(n - 1), Factorial(n - 1));
    }
  }

  lemma {:induction false} FactorialPositive(n: nat)
    ensures Factorial(n) > 0
  {
    if n > 0 { FactorialPositive(n - 1); PositiveTimes(n, Factorial(n - 1)); }
  }

  // n consecutive numbers.
  function Run(a: int, n: nat): (s: seq<int>)
    ensures |s| == n && forall i :: 0 <= i < n ==> s[i] == a + i
  {
    seq(n, i => a + i)
  }

  ghost predicate UpToSign(x: int, y: int) {
    x == y || x == -y
  }

  lemma RunTail(a: int, n: nat)
    requires n > 0
    ensures Run(a, n)[0] == a && Run(a, n)[1..] == Run(a + 1, n - 1)
  {
  }

  lemma {:induction false} FanOfRun(a: int, k: nat, n: nat)
    ensures UpToSign(Times(Fan(a, Run(a + k + 1, n)), Factorial(k)), Factorial(k + n))
    decreases n
  {
    hide Times, Factorial;
    if n == 0 {
      TimesLaws(Factorial(k), 1, 1, 1);
    } else {
      RunTail(a + k + 1, n);
      FanOfRun(a, k + 1, n - 1);
      FactorialStep(k);
      var F := Fan(a, Run(a + (k + 1) + 1, n - 1));
      OneFactor(k + 1, F, Factorial(k));
    }
  }

  lemma OneFactor(k: int, f: int, g: int)
    ensures Times(Times(-k, f), g) == -Times(f, Times(k, g))
  {
    assert ((-k) * f) * g == -(f * (k * g));
  }

  lemma {:induction false} DifferencesOfRun(a: int, n: nat)
    ensures UpToSign(Differences(Run(a, n)), Superfactorial(n))
    decreases n
  {
    hide Times, Factorial;
    if n > 0 {
      RunTail(a, n);
      DifferencesOfRun(a + 1, n - 1);
      FanOfRun(a, 0, n - 1);
      assert Factorial(0) == 1 by { FactorialOfZero(); }
      var F, D := Fan(a, Run(a + 1, n - 1)), Differences(Run(a + 1, n - 1));
      TimesLaws(F, 1, 1, 1);
      TimesFlip(Factorial(n - 1), Superfactorial(n - 1));
      SignsMultiply(F, Factorial(n - 1), D, Superfactorial(n - 1));
    }
  }

  lemma FactorialOfZero()
    ensures Factorial(0) == 1
  {
  }

  lemma SignsMultiply(x: int, y: int, u: int, v: int)
    requires UpToSign(x, y) && UpToSign(u, v)
    ensures UpToSign(Times(x, u), Times(y, v))
  {
    hide Times;
    TimesMinus(y, v);
    TimesMinus(y, -v);
    TimesMinus(-y, v);
  }

  lemma DividesUpToSign(d: int, x: int)
    requires UpToSign(x, d)
    ensures Divides(d, x)
  {
    assert d == Times(1, d) && -d == Times(-1, d);
  }

  lemma {:induction false} PermutationDivides(p: seq<nat>)
    requires IsPermutation(p)
    ensures Divides(Superfactorial(|p|), Differences(p))
    decreases Inversions(p)
  {
    hide Inversions, Divides, Superfactorial, Differences;
    if Inversions(p) == 0 {
      SortedInversions(p);
      SortedPermutationIsIdentity(p);
      var r: seq<int> := p;
      assert r == Run(0, |p|);
      DifferencesOfRun(0, |p|);
      DividesUpToSign(Superfactorial(|p|), Differences(p));
    } else {
      var k := FindDescent(p);
      AdjacentSign(p, k);
      var q := Swap(p, k, k + 1);
      PermutationDivides(q);
      DifferencesSwap(p, k);
      DividesTimes(Superfactorial(|p|), -1, Differences(q));
      MinusOne(Differences(q));
    }
  }

  lemma MinusOne(x: int)
    ensures Times(-1, x) == -x
  {
  }

  // Numbers below n: either one is repeated, or they are 0, ..., n - 1.
  lemma SmallDivides(l: seq<int>)
    requires forall i :: 0 <= i < |l| ==> 0 <= l[i] < |l|
    ensures Divides(Superfactorial(|l|), Differences(l))
  {
    hide Divides, Superfactorial, Differences;
    if i, j :| 0 <= i < j < |l| && l[i] == l[j] {
      RepeatedVanishes(l, i, j);
      DividesZero(Superfactorial(|l|));
    } else {
      var p: seq<nat> := seq(|l|, i requires 0 <= i < |l| => l[i]);
      var r: seq<int> := p;
      assert r == l;
      PermutationDivides(p);
    }
  }

  // The first k numbers are arbitrary, the others below n.
  lemma {:induction false} SuperfactorialDivides(l: seq<int>, k: nat)
    requires k <= |l| && forall i :: k <= i < |l| ==> 0 <= l[i] < |l|
    ensures Divides(Superfactorial(|l|), Differences(l))
    decreases k
  {
    hide Divides, Superfactorial, Differences;
    if k == 0 {
      SmallDivides(l);
    } else {
      var f := x => Differences(l[k - 1 := x]);
      DifferencesDegree(l, k - 1, f);
      forall x | 0 <= x < |l| ensures Divides(Superfactorial(|l|), f(x)) {
        SuperfactorialDivides(l[k - 1 := x], k - 1);
      }
      DividesEverywhere(f, |l|, Superfactorial(|l|));
      assert l[k - 1 := l[k - 1]] == l;
      assert Divides(Superfactorial(|l|), f(l[k - 1]));
    }
  }
}
