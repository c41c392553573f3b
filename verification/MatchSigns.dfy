// What the recorded moving signs are worth: the sign of bringing the matched factors
// of a product together in the order of the pattern.

module MatchSigns {
  import opened Signs
  import opened Expressions
  import opened Moving
  import opened Matching
  import opened Matrices

  // The sign substitution multiplies the result by.
  function TotalSign(signs: seq<int>): int {
    if signs == [] then 1 else TotalSign(signs[..|signs| - 1]) * signs[|signs| - 1]
  }

  // ------------------------------------------------------------------ Two factors

  // The pair stands together, in order, and the other factors stay as they are.
  lemma AdjacentPair<E>(prod: seq<E>, one: nat, two: nat, fixOne: bool)
    requires one < |prod| && two < |prod| && one != two
    ensures var lo, hi := if one < two then one else two, if one < two then two else one;
      var a, k := Adjacent(prod, one, two, fixOne), if fixOne then lo else hi - 1;
      && |a| == |prod| && a[k] == prod[one] && a[k + 1] == prod[two]
      && a[..k] + a[k + 2..] == prod[..lo] + prod[lo + 1..hi] + prod[hi + 1..]
  {
    hide Adjacent;
    var lo, hi := if one < two then one else two, if one < two then two else one;
    var a, x, y, m, b := prod[..lo], prod[one], prod[two], prod[lo + 1..hi], prod[hi + 1..];
    AdjacentIs(prod, one, two, fixOne);
    if fixOne {
      PairInside(a, x, y, m + b);
      Regrouped(a, [x, y], m, b);
    } else {
      PairInside(a + m, x, y, b);
      Regrouped(a, m, [x, y], b);
    }
  }

  lemma AdjacentIs<E>(prod: seq<E>, one: nat, two: nat, fixOne: bool)
    requires one < |prod| && two < |prod| && one != two
    ensures var lo, hi := if one < two then one else two, if one < two then two else one;
      var pair, m := [prod[one], prod[two]], prod[lo + 1..hi];
      Adjacent(prod, one, two, fixOne) == prod[..lo] + (if fixOne then pair + m else m + pair) + prod[hi + 1..]
  {
  }

  lemma Regrouped<E>(a: seq<E>, b: seq<E>, c: seq<E>, d: seq<E>)
    ensures a + (b + c) + d == (a + b) + c + d == a + b + (c + d) && a + (c + d) == a + c + d
  {
  }

  lemma PairInside<E>(a: seq<E>, x: E, y: E, b: seq<E>)
    ensures var s := a + [x, y] + b;
      s[|a|] == x && s[|a| + 1] == y && s[..|a|] + s[|a| + 2..] == a + b
  {
    var s := a + [x, y] + b;
    assert s[..|a|] == a && s[|a| + 2..] == b;
  }

  // For a pattern of two factors the recorded signs multiply to the sign between the
  // product and the product with the pair together, in the order of the pattern.
  lemma PairSign<P, E(!new), B, V(!new)>(T: Task<P, E, B>, was: B, ls: seq<nat>, chain: seq<B>, signs: seq<int>,
      M: Model<V>, v: E -> V)
    requires |T.lhs| == 2 && IsMatch(T, was, ls, chain) && Recorded(T, ls, 0, signs) && Graded(M, v, T.swap)
    ensures ls[0] < |T.prod| && ls[1] < |T.prod| && ls[0] != ls[1]
    ensures SameUpTo(M, v, TotalSign(signs), T.prod, Adjacent(T.prod, ls[0], ls[1], false))
  {
    hide Graded, MovingSign, SameUpTo;
    assert RecordedAt(T, ls, 0 + 0, signs[0]) && RecordedAt(T, ls, 0 + 1, signs[1]);
    assert CanFollow(T, ls, 1);
    assert signs[..1][..0] == [] && signs[..1] == [signs[0]];
    assert TotalSign([]) == 1;
    assert TotalSign(signs) == signs[1];
    MovingValue(M, v, T.swap, T.prod, ls[0], ls[1], false);
  }

  // ------------------------------------------------- Any rearrangement of a product

  function Arranged<E>(prod: seq<E>, p: seq<nat>): (r: seq<E>)
    requires forall k :: 0 <= k < |p| ==> p[k] < |prod|
    ensures |r| == |p| && forall k :: 0 <= k < |p| ==> r[k] == prod[p[k]]
  {
    seq(|p|, k requires 0 <= k < |p| => prod[p[k]])
  }

  ghost predicate Within(n: nat, p: seq<nat>) {
    forall k :: 0 <= k < |p| ==> p[k] < n
  }

  // Signs of the factors of s that stood before x and now stand after it.
  function Overtaken<E>(swap: (E, E) -> int, prod: seq<E>, x: nat, s: seq<nat>): int
    requires x < |prod| && Within(|prod|, s)
  {
    if s == [] then 1
    else Times(if s[0] < x then swap(prod[s[0]], prod[x]) else 1, Overtaken(swap, prod, x, s[1..]))
  }

  function Times(x: int, y: int): int {
    x * y
  }

  // The product of the can_swap signs of all pairs that change their order.
  function OrderChange<E>(swap: (E, E) -> int, prod: seq<E>, p: seq<nat>): int
    requires Within(|prod|, p)
  {
    if p == [] then 1
    else
      assert Within(|prod|, p[1..]);
      Times(Overtaken(swap, prod, p[0], p[1..]), OrderChange(swap, prod, p[1..]))
  }

  // All those signs are nonzero: the factors may be exchanged.
  ghost predicate MayChange<E>(swap: (E, E) -> int, prod: seq<E>, p: seq<nat>)
    requires Within(|prod|, p)
  {
    forall i, j :: 0 <= i < j < |p| && p[j] < p[i] ==> swap(prod[p[j]], prod[p[i]]) != 0
  }

  lemma TimesSwap(a: int, b: int, c: int)
    ensures Times(a, Times(b, c)) == Times(b, Times(a, c))
  {
    assert a * (b * c) == b * (a * c);
  }

  lemma {:induction false} OvertakenSwap<E>(swap: (E, E) -> int, prod: seq<E>, x: nat, s: seq<nat>, k: nat)
    requires x < |prod| && Within(|prod|, s) && k + 1 < |s|
    ensures Within(|prod|, Swap(s, k, k + 1))
    ensures Overtaken(swap, prod, x, Swap(s, k, k + 1)) == Overtaken(swap, prod, x, s)
  {
    hide Times;
    var u := Swap(s, k, k + 1);
    if k == 0 {
      assert u[1..][1..] == s[1..][1..];
      TimesSwap(if s[0] < x then swap(prod[s[0]], prod[x]) else 1, if s[1] < x then swap(prod[s[1]], prod[x]) else 1,
        Overtaken(swap, prod, x, s[1..][1..]));
    } else {
      assert u[1..] == Swap(s[1..], k - 1, k);
      OvertakenSwap(swap, prod, x, s[1..], k - 1);
    }
  }

  // Undoing one exchange of neighbours takes its sign off.
  lemma {:induction false} OrderChangeSwap<E>(swap: (E, E) -> int, prod: seq<E>, p: seq<nat>, k: nat)
    requires Within(|prod|, p) && k + 1 < |p| && p[k] > p[k + 1]
    ensures Within(|prod|, Swap(p, k, k + 1))
    ensures OrderChange(swap, prod, p)
         == Times(swap(prod[p[k + 1]], prod[p[k]]), OrderChange(swap, prod, Swap(p, k, k + 1)))
  {
    hide Times, Overtaken;
    var u := Swap(p, k, k + 1);
    assert Within(|prod|, u) && Within(|prod|, u[1..]) && Within(|prod|, p[1..]);
    if k == 0 {
      var t := p[2..];
      assert p[1..][1..] == t && u[1..][1..] == t && Within(|prod|, t);
      OvertakenHead(swap, prod, p[0], p[1..]);
      OvertakenHead(swap, prod, p[1], u[1..]);
      FrontExchange(swap(prod[p[1]], prod[p[0]]), Overtaken(swap, prod, p[0], t), Overtaken(swap, prod, p[1], t),
        OrderChange(swap, prod, t));
    } else {
      assert u[1..] == Swap(p[1..], k - 1, k);
      OrderChangeSwap(swap, prod, p[1..], k - 1);
      OvertakenSwap(swap, prod, p[0], p[1..], k - 1);
      TimesSwap(Overtaken(swap, prod, p[0], p[1..]), swap(prod[p[k + 1]], prod[p[k]]), OrderChange(swap, prod, u[1..]));
    }
  }

  lemma OvertakenHead<E>(swap: (E, E) -> int, prod: seq<E>, x: nat, s: seq<nat>)
    requires x < |prod| && Within(|prod|, s) && s != []
    ensures Overtaken(swap, prod, x, s)
         == Times(if s[0] < x then swap(prod[s[0]], prod[x]) else 1, Overtaken(swap, prod, x, s[1..]))
  {
  }

  lemma FrontExchange(w: int, f: int, g: int, d: int)
    ensures Times(Times(w, f), Times(g, d)) == Times(w, Times(Times(1, g), Times(f, d)))
  {
    assert (w * f) * (g * d) == w * (g * (f * d));
  }

  lemma {:induction false} ArrangedValue<E(!new), V(!new)>(M: Model<V>, v: E -> V, swap: (E, E) -> int, prod: seq<E>,
      p: seq<nat>)
    requires Graded(M, v, swap) && IsPermutation(p) && |p| == |prod| && MayChange(swap, prod, p)
    ensures SameUpTo(M, v, OrderChange(swap, prod, p), prod, Arranged(prod, p))
    decreases Inversions(p)
  {
    hide Graded, SameUpTo, Inversions, OrderChange;
    if Inversions(p) == 0 {
      SortedInversions(p);
      SortedPermutationIsIdentity(p);
      assert Arranged(prod, p) == prod;
      NothingChanges(swap, prod, p);
      GradedAlgebra(M, v, swap);
      Unmoved(M, v, prod);
    } else {
      var k := FindDescent(p);
      AdjacentSign(p, k);
      var q := Swap(p, k, k + 1);
      FewerChanges(swap, prod, p, k);
      ArrangedValue(M, v, swap, prod, q);
      OrderChangeSwap(swap, prod, p, k);
      NeighboursExchanged(M, v, swap, prod, p, k);
      var s := swap(prod[p[k + 1]], prod[p[k]]);
      GradedAlgebra(M, v, swap);
      assert OrderChange(swap, prod, p) == OrderChange(swap, prod, q) * s;
      Moving.Chain(M, v, OrderChange(swap, prod, q), s, OrderChange(swap, prod, p),
        prod, Arranged(prod, q), Arranged(prod, p));
    }
  }

  lemma GradedAlgebra<E(!new), V(!new)>(M: Model<V>, v: E -> V, swap: (E, E) -> int)
    requires Graded(M, v, swap)
    ensures IsAlgebra(M)
  {
  }

  lemma {:induction false} NothingChanges<E>(swap: (E, E) -> int, prod: seq<E>, p: seq<nat>)
    requires Within(|prod|, p) && Sorted(p)
    ensures OrderChange(swap, prod, p) == 1
  {
    if p != [] {
      NothingChanges(swap, prod, p[1..]);
      NothingOvertaken(swap, prod, p[0], p[1..]);
    }
  }

  lemma {:induction false} NothingOvertaken<E>(swap: (E, E) -> int, prod: seq<E>, x: nat, s: seq<nat>)
    requires x < |prod| && Within(|prod|, s) && forall k :: 0 <= k < |s| ==> x <= s[k]
    ensures Overtaken(swap, prod, x, s) == 1
  {
    if s != [] { NothingOvertaken(swap, prod, x, s[1..]); }
  }

  lemma FewerChanges<E>(swap: (E, E) -> int, prod: seq<E>, p: seq<nat>, k: nat)
    requires IsPermutation(p) && |p| == |prod| && MayChange(swap, prod, p) && k + 1 < |p| && p[k] > p[k + 1]
    ensures IsPermutation(Swap(p, k, k + 1)) && |Swap(p, k, k + 1)| == |p| && MayChange(swap, prod, Swap(p, k, k + 1))
    ensures swap(prod[p[k + 1]], prod[p[k]]) != 0
  {
    var q := Swap(p, k, k + 1);
    forall i, j | 0 <= i < j < |q| && q[j] < q[i] ensures swap(prod[q[j]], prod[q[i]]) != 0 {
      var i', j' := Across(i, k), Across(j, k);
      assert q[i] == p[i'] && q[j] == p[j'] && i' < j';
    }
  }

  function Across(i: nat, k: nat): nat {
    if i == k then k + 1 else if i == k + 1 then k else i
  }

  lemma NeighboursExchanged<E(!new), V(!new)>(M: Model<V>, v: E -> V, swap: (E, E) -> int, prod: seq<E>,
      p: seq<nat>, k: nat)
    requires Graded(M, v, swap) && Within(|prod|, p) && k + 1 < |p| && Within(|prod|, Swap(p, k, k + 1))
    requires swap(prod[p[k + 1]], prod[p[k]]) != 0
    ensures SameUpTo(M, v, swap(prod[p[k + 1]], prod[p[k]]), Arranged(prod, Swap(p, k, k + 1)), Arranged(prod, p))
  {
    hide Graded, SameUpTo;
    var a, q := Arranged(prod, p), Arranged(prod, Swap(p, k, k + 1));
    var x, y := prod[p[k + 1]], prod[p[k]];
    GradedAlgebra(M, v, swap);
    PairSwaps(M, v, swap, x, y);
    InContext(M, v, swap(x, y), a[..k], [x, y], [y, x], a[k + 2..]);
    assert q == a[..k] + [x, y] + a[k + 2..] && a == a[..k] + [y, x] + a[k + 2..];
  }

  // ---------------------------------------------------------------- Any pattern

  // The positions p list the matched ones together, in the order of the pattern.
  ghost predicate Gathers(p: seq<nat>, ls: seq<nat>, at: nat) {
    at + |ls| <= |p| && p[at..at + |ls|] == ls
  }

  ghost predicate IsSignValue(s: int) {
    s == 1 || s == -1
  }

  lemma {:induction false} TotalIsSign(signs: seq<int>)
    requires forall k :: 0 <= k < |signs| ==> IsSignValue(signs[k])
    ensures IsSignValue(TotalSign(signs))
  {
    if signs != [] { TotalIsSign(signs[..|signs| - 1]); }
  }

  lemma {:induction false} PassIsSign<E(!new)>(swap: (E, E) -> int, x: E, s: seq<E>)
    requires SwapSigns(swap) && PassSign(swap, x, s) != 0
    ensures IsSignValue(PassSign(swap, x, s))
  {
    if s != [] {
      var f, g := PassSign(swap, x, s[..|s| - 1]), swap(x, s[|s| - 1]);
      Moving.NonZeroProduct(f, g);
      PassIsSign(swap, x, s[..|s| - 1]);
    }
  }

  lemma MoveIsSign<E(!new)>(swap: (E, E) -> int, prod: seq<E>, one: nat, two: nat)
    requires SwapSigns(swap) && one < |prod| && two < |prod| && one != two
    requires MovingSign(swap, prod, one, two, false) != 0
    ensures IsSignValue(MovingSign(swap, prod, one, two, false))
  {
    hide PassSign;
    var lo, hi := if one < two then one else two, if one < two then two else one;
    var first := if one < two then 1 else swap(prod[lo], prod[hi]);
    Moving.NonZeroProduct(first, PassSign(swap, prod[lo], prod[lo + 1..hi]));
    PassIsSign(swap, prod[lo], prod[lo + 1..hi]);
  }

  lemma RecordedAreSigns<P, E(!new), B>(T: Task<P, E, B>, ls: seq<nat>, signs: seq<int>)
    requires SwapSigns(T.swap) && Recorded(T, ls, 0, signs)
    ensures IsSignValue(TotalSign(signs))
  {
    hide MovingSign, SwapSigns;
    forall k | 0 <= k < |signs| ensures IsSignValue(signs[k]) {
      assert RecordedAt(T, ls, 0 + k, signs[k]);
      if k > 0 {
        assert CanFollow(T, ls, k);
        MoveIsSign(T.swap, T.prod, ls[k - 1], ls[k]);
      }
    }
    TotalIsSign(signs);
  }

  lemma {:induction false} OvertakenIsSign<E(!new)>(swap: (E, E) -> int, prod: seq<E>, x: nat, s: seq<nat>)
    requires SwapSigns(swap) && x < |prod| && Within(|prod|, s)
    requires forall k :: 0 <= k < |s| && s[k] < x ==> swap(prod[s[k]], prod[x]) != 0
    ensures IsSignValue(Overtaken(swap, prod, x, s))
  {
    if s != [] { OvertakenIsSign(swap, prod, x, s[1..]); }
  }

  lemma {:induction false} ChangeIsSign<E(!new)>(swap: (E, E) -> int, prod: seq<E>, p: seq<nat>)
    requires SwapSigns(swap) && Within(|prod|, p) && MayChange(swap, prod, p)
    ensures IsSignValue(OrderChange(swap, prod, p))
  {
    hide Overtaken, SwapSigns;
    if p != [] {
      OvertakenIsSign(swap, prod, p[0], p[1..]);
      forall i, j | 0 <= i < j < |p[1..]| && p[1..][j] < p[1..][i] ensures swap(prod[p[1..][j]], prod[p[1..][i]]) != 0 {
        assert p[1..][i] == p[i + 1] && p[1..][j] == p[j + 1];
      }
      ChangeIsSign(swap, prod, p[1..]);
    }
  }

  // The product with its factors in the order p is worth nothing but a sign.
  ghost predicate OwnNegative<E, V>(M: Model<V>, v: E -> V, a: seq<E>) {
    ProdOf(M, Worths(v, a)) == M.scale(-1.0, ProdOf(M, Worths(v, a)))
  }

  // For any pattern: multiplying by the recorded signs is right for putting the matched
  // factors together in some place exactly when their product is that of the can_swap
  // signs of the pairs that change their order, or the sign makes no difference.
  lemma GatheringSign<P, E(!new), B, V(!new)>(T: Task<P, E, B>, was: B, ls: seq<nat>, chain: seq<B>, signs: seq<int>,
      M: Model<V>, v: E -> V, p: seq<nat>, at: nat)
    requires IsMatch(T, was, ls, chain) && Recorded(T, ls, 0, signs) && Graded(M, v, T.swap)
    requires IsPermutation(p) && |p| == |T.prod| && Gathers(p, ls, at) && MayChange(T.swap, T.prod, p)
    ensures SameUpTo(M, v, TotalSign(signs), T.prod, Arranged(T.prod, p)) <==>
      TotalSign(signs) == OrderChange(T.swap, T.prod, p) || OwnNegative(M, v, Arranged(T.prod, p))
  {
    GradedParts(M, v, T.swap);
    hide Graded, IsAlgebra, SwapSigns, OrderChange, MayChange;
    ArrangedValue(M, v, T.swap, T.prod, p);
    RecordedAreSigns(T, ls, signs);
    ChangeIsSign(T.swap, T.prod, p);
    var X := ProdOf(M, Worths(v, Arranged(T.prod, p)));
    ScaleLaws(M, -1.0, -1.0, X);
    ScaleLaws(M, 1.0, 1.0, X);
  }

  lemma GradedParts<E(!new), V(!new)>(M: Model<V>, v: E -> V, swap: (E, E) -> int)
    requires Graded(M, v, swap)
    ensures IsAlgebra(M) && SwapSigns(swap)
  {
  }

  // --------------------------------------------------------------- Three factors

  // Three matrices that anticommute with each other.
  function Spin(k: nat): Matrix {
    if k == 0 then Matrix(0.0, 1.0, 1.0, 0.0)
    else if k == 1 then Matrix(1.0, 0.0, 0.0, -1.0)
    else Matrix(0.0, 1.0, -1.0, 0.0)
  }

  function SpinSwap(i: nat, j: nat): int {
    if i < 3 && j < 3 && i != j then -1 else 0
  }

  function SpinTask(): Task<nat, nat, ()> {
    Task([0, 2, 1], [0, 1, 2], (b, x, y) => (x == y, b), (x, y) => SpinSwap(x, y), b => true)
  }

  // The pattern acb in the product abc of three anticommuting factors: the signs
  // recorded multiply to 1, while abc = -acb.
  lemma ThreeFactorsLoseSign(ls: seq<nat>, signs: seq<int>, chain: seq<()>)
    requires ls == [0, 2, 1] && signs == [1, -1, -1] && chain == [(), (), (), ()]
    ensures IsMatch(SpinTask(), (), ls, chain) && Recorded(SpinTask(), ls, 0, signs) && TotalSign(signs) == 1
    ensures exists M: Model<Matrix>, v: nat -> Matrix ::
      Graded(M, v, SpinTask().swap) && !SameUpTo(M, v, TotalSign(signs), SpinTask().prod, Arranged(SpinTask().prod, ls))
  {
    hide IsMatch, Recorded, TotalSign, Graded, SameUpTo, UnitModel;
    SpinMatch(ls, chain);
    SpinSigns(ls, signs);
    var M, v := UnitModel(), (k: nat) => Spin(k);
    SpinGraded(M, v);
    SpinDiffer(M, v, ls);
    assert Graded(M, v, SpinTask().swap);
    assert !SameUpTo(M, v, TotalSign(signs), SpinTask().prod, Arranged(SpinTask().prod, ls));
  }

  lemma SpinDiffer(M: Model<Matrix>, v: nat -> Matrix, ls: seq<nat>)
    requires M == UnitModel() && (forall k: nat :: v(k) == Spin(k)) && ls == [0, 2, 1]
    ensures !SameUpTo(M, v, 1, SpinTask().prod, Arranged(SpinTask().prod, ls))
  {
    hide IsAlgebra, UnitModel, ProdOf, Worths, Spin;
    UnitModelIsAnAlgebra();
    SpinProducts(M, v);
    assert Arranged(SpinTask().prod, ls) == [0, 2, 1];
  }

  lemma SpinMoves()
    ensures MovingSign(SpinTask().swap, SpinTask().prod, 0, 2, false) == -1
    ensures MovingSign(SpinTask().swap, SpinTask().prod, 2, 1, false) == -1
  {
    var T := SpinTask();
    assert T.prod[1..2] == [1] && [1][..0] == [] && T.prod[2..2] == [];
    assert PassSign(T.swap, 0, [1]) == -1 && PassSign(T.swap, 1, []) == 1;
  }

  lemma SpinMatch(ls: seq<nat>, chain: seq<()>)
    requires ls == [0, 2, 1] && chain == [(), (), (), ()]
    ensures IsMatch(SpinTask(), (), ls, chain)
  {
    hide MovingSign;
    SpinMoves();
    forall k | 0 < k < |ls| ensures CanFollow(SpinTask(), ls, k) { assert k == 1 || k == 2; }
  }

  lemma SpinSigns(ls: seq<nat>, signs: seq<int>)
    requires ls == [0, 2, 1] && signs == [1, -1, -1]
    ensures Recorded(SpinTask(), ls, 0, signs) && TotalSign(signs) == 1
  {
    hide MovingSign;
    SpinMoves();
    forall k | 0 <= k < |signs| ensures RecordedAt(SpinTask(), ls, 0 + k, signs[k]) {
      assert k == 0 || k == 1 || k == 2;
    }
    assert signs[..2] == [1, -1] && [1, -1][..1] == [1] && [1][..0] == [];
    assert TotalSign([1]) == 1 && TotalSign([1, -1]) == -1;
  }

  lemma SpinGraded(M: Model<Matrix>, v: nat -> Matrix)
    requires M == UnitModel() && (forall k: nat :: v(k) == Spin(k))
    ensures Graded(M, v, SpinTask().swap)
  {
    UnitModelIsAnAlgebra();
    forall x: nat, y: nat ensures SwapLaw(M, v, SpinTask().swap, x, y) {
      if SpinSwap(x, y) != 0 { SpinAnticommutes(x, y); }
    }
  }

  lemma SpinAnticommutes(x: nat, y: nat)
    requires SpinSwap(x, y) != 0
    ensures Product(Spin(x), Spin(y)) == Multiple(-1.0, Product(Spin(y), Spin(x)))
  {
  }

  lemma SpinProducts(M: Model<Matrix>, v: nat -> Matrix)
    requires M == UnitModel() && (forall k: nat :: v(k) == Spin(k)) && IsAlgebra(M)
    ensures ProdOf(M, Worths(v, [0, 1, 2])) != M.scale(1.0, ProdOf(M, Worths(v, [0, 2, 1])))
  {
    hide IsAlgebra, ProdOf, Worths, Spin, Product, Multiple;
    TripleWorth(M, v, 0, 1, 2);
    TripleWorth(M, v, 0, 2, 1);
    SpinTriples();
    MultipleEnds(1.0, Multiple(-1.0, UNIT));
    NotMinusUnit();
  }

  lemma NotMinusUnit()
    ensures Multiple(-1.0, UNIT) != UNIT
  {
    assert Multiple(-1.0, UNIT).p == -1.0;
  }

  lemma TripleWorth(M: Model<Matrix>, v: nat -> Matrix, x: nat, y: nat, z: nat)
    requires IsAlgebra(M)
    ensures ProdOf(M, Worths(v, [x, y, z])) == M.mul(v(x), M.mul(v(y), v(z)))
  {
    hide IsAlgebra, ProdOf, Worths;
    assert [x, y, z] == [x] + [y, z];
    WorthsAppend(M, v, [x], [y, z]);
    WorthOne(M, v, x);
    PairWorth(M, v, y, z);
  }

  lemma SpinTriples()
    ensures Product(Spin(0), Product(Spin(1), Spin(2))) == UNIT
    ensures Product(Spin(0), Product(Spin(2), Spin(1))) == Multiple(-1.0, UNIT)
  {
    hide Product, Multiple, Spin;
    SpinPairs();
    SpinSquare();
    ProductScales(-1.0, Spin(0), Spin(0));
  }

  lemma SpinPairs()
    ensures Product(Spin(1), Spin(2)) == Spin(0)
    ensures Product(Spin(2), Spin(1)) == Multiple(-1.0, Spin(0))
  {
    hide Dot, Expressions.Times;
    SmallDots();
    assert Multiple(-1.0, Spin(0)) == Matrix(0.0, -1.0, -1.0, 0.0) by { SmallProducts(); }
  }

  lemma SmallDots()
    ensures Dot(1.0, 0.0, 0.0, -1.0) == 0.0 && Dot(1.0, 0.0, 1.0, 0.0) == 1.0
    ensures Dot(0.0, -1.0, 0.0, -1.0) == 1.0 && Dot(0.0, -1.0, 1.0, 0.0) == 0.0
    ensures Dot(0.0, 1.0, 1.0, 0.0) == 0.0 && Dot(0.0, 1.0, 0.0, -1.0) == -1.0
    ensures Dot(-1.0, 0.0, 1.0, 0.0) == -1.0 && Dot(-1.0, 0.0, 0.0, -1.0) == 0.0
  {
    hide Dot;
    SmallDot(1.0, 0.0, 0.0, -1.0);
    SmallDot(1.0, 0.0, 1.0, 0.0);
    SmallDot(0.0, -1.0, 0.0, -1.0);
    SmallDot(0.0, -1.0, 1.0, 0.0);
    SmallDot(0.0, 1.0, 1.0, 0.0);
    SmallDot(0.0, 1.0, 0.0, -1.0);
    SmallDot(-1.0, 0.0, 1.0, 0.0);
    SmallDot(-1.0, 0.0, 0.0, -1.0);
  }

  function ByUnit(a: real, x: real): real {
    if a == 0.0 then 0.0 else if a == 1.0 then x else -x
  }

  lemma SmallDot(a: real, b: real, x: real, y: real)
    requires a == 0.0 || a == 1.0 || a == -1.0
    requires b == 0.0 || b == 1.0 || b == -1.0
    ensures Dot(a, b, x, y) == ByUnit(a, x) + ByUnit(b, y)
  {
    TimesUnit(a, x);
    TimesUnit(b, y);
  }

  lemma TimesUnit(a: real, x: real)
    requires a == 0.0 || a == 1.0 || a == -1.0
    ensures a * x == ByUnit(a, x)
  {
  }

  lemma SmallProducts()
    ensures Expressions.Times(-1.0, 0.0) == 0.0 && Expressions.Times(-1.0, 1.0) == -1.0
  {
  }

  lemma SpinSquare()
    ensures Product(Spin(0), Spin(0)) == UNIT
  {
    hide Dot;
    assert Dot(0.0, 1.0, 0.0, 1.0) == 1.0 && Dot(0.0, 1.0, 1.0, 0.0) == 0.0 by { UnitDots(); }
    assert Dot(1.0, 0.0, 0.0, 1.0) == 0.0 && Dot(1.0, 0.0, 1.0, 0.0) == 1.0 by { UnitDots(); }
  }

  lemma UnitDots()
    ensures Dot(0.0, 1.0, 0.0, 1.0) == 1.0 && Dot(0.0, 1.0, 1.0, 0.0) == 0.0
    ensures Dot(1.0, 0.0, 0.0, 1.0) == 0.0 && Dot(1.0, 0.0, 1.0, 0.0) == 1.0
  {
  }
}
