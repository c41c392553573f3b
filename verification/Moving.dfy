// can_move_adjacent: the sign of making two factors of a product neighbours.

module Moving {
  import opened Expressions

  // swap(x, y) is the sign can_swap finds for exchanging neighbours: 1, -1, or 0
  // when they do not commute.
  ghost predicate SwapSigns<E(!new)>(swap: (E, E) -> int) {
    forall x, y :: swap(x, y) in {-1, 0, 1}
  }

  // The sign of moving x past all the factors of s.
  function PassSign<E>(swap: (E, E) -> int, x: E, s: seq<E>): int {
    if s == [] then 1 else PassSign(swap, x, s[..|s| - 1]) * swap(x, s[|s| - 1])
  }

  // The factors strictly between two positions.
  function Between<E>(prod: seq<E>, i: nat, j: nat): seq<E>
    requires i < |prod| && j < |prod| && i != j
  {
    if i < j then prod[i + 1..j] else prod[j + 1..i]
  }

  // What the moves make of the product: `one` ends up immediately left of `two`.
  // The earlier of the two moves, or with fixOne the later one.
  function Adjacent<E>(prod: seq<E>, one: nat, two: nat, fixOne: bool): seq<E>
    requires one < |prod| && two < |prod| && one != two
  {
    var lo, hi := if one < two then one else two, if one < two then two else one;
    var pair := [prod[one], prod[two]];
    prod[..lo] + (if fixOne then pair + prod[lo + 1..hi] else prod[lo + 1..hi] + pair) + prod[hi + 1..]
  }

  function MovingSign<E>(swap: (E, E) -> int, prod: seq<E>, one: nat, two: nat, fixOne: bool): int
    requires one < |prod| && two < |prod| && one != two
  {
    var lo, hi := if one < two then one else two, if one < two then two else one;
    (if one < two then 1 else swap(prod[lo], prod[hi]))
      * (if fixOne then PassBack(swap, prod[hi], prod[lo + 1..hi]) else PassSign(swap, prod[lo], prod[lo + 1..hi]))
  }

  // The sign of moving x to the left past all the factors of s.
  function PassBack<E>(swap: (E, E) -> int, x: E, s: seq<E>): int {
    if s == [] then 1 else PassBack(swap, x, s[1..]) * swap(x, s[0])
  }

  // ------------------------------------------------------------------ The loops

  method CanMoveAdjacent<E>(swap: (E, E) -> int, prod: seq<E>, one: nat, two: nat, fixOne: bool) returns (sign: int)
    requires one < |prod| && two < |prod| && one != two
    ensures sign == MovingSign(swap, prod, one, two, fixOne)
  {
    var onefirst := false;
    var probe := one;
    while probe < |prod|
      invariant one <= probe <= |prod| && (two < probe ==> two < one) && !onefirst
      decreases |prod| - probe
    {
      if probe == two {
        onefirst := true;
        break;
      }
      probe := probe + 1;
    }
    sign := 1;
    var lo, hi := one, two;
    if !onefirst {
      lo, hi := two, one;
      sign := sign * swap(prod[lo], prod[hi]);
    }
    if sign != 0 {
      if fixOne {
        sign := MoveBack(swap, prod, lo, hi, sign);
      } else {
        sign := MoveOn(swap, prod, lo, hi, sign);
      }
    }
  }

  // The loop that moves the later factor back.
  method MoveBack<E>(swap: (E, E) -> int, prod: seq<E>, lo: nat, hi: nat, start: int) returns (sign: int)
    requires lo < hi < |prod|
    ensures sign == start * PassBack(swap, prod[hi], prod[lo + 1..hi])
  {
    sign := start;
    var probe := hi - 1;
    while probe != lo
      invariant lo <= probe < hi && sign == start * PassBack(swap, prod[hi], prod[probe + 1..hi])
      decreases probe
    {
      PassBackStep(swap, prod, probe, hi);
      Shuffle(start, PassBack(swap, prod[hi], prod[probe + 1..hi]), swap(prod[hi], prod[probe]));
      sign := sign * swap(prod[hi], prod[probe]);
      if sign == 0 {
        PassBackZero(swap, prod, lo, probe, hi, start);
        break;
      }
      probe := probe - 1;
    }
  }

  // The loop that moves the earlier factor on.
  method MoveOn<E>(swap: (E, E) -> int, prod: seq<E>, lo: nat, hi: nat, start: int) returns (sign: int)
    requires lo < hi < |prod|
    ensures sign == start * PassSign(swap, prod[lo], prod[lo + 1..hi])
  {
    sign := start;
    var probe := lo + 1;
    while probe != hi
      invariant lo < probe <= hi && sign == start * PassSign(swap, prod[lo], prod[lo + 1..probe])
      decreases hi - probe
    {
      PassSignStep(swap, prod, lo, probe);
      Shuffle(start, PassSign(swap, prod[lo], prod[lo + 1..probe]), swap(prod[lo], prod[probe]));
      sign := sign * swap(prod[lo], prod[probe]);
      if sign == 0 {
        PassSignZero(swap, prod, lo, probe, hi, start);
        break;
      }
      probe := probe + 1;
    }
  }

  lemma Shuffle(a: int, b: int, c: int)
    ensures (a * b) * c == a * (b * c)
  {
  }

  lemma PassSignStep<E>(swap: (E, E) -> int, prod: seq<E>, lo: nat, probe: nat)
    requires lo < probe < |prod|
    ensures PassSign(swap, prod[lo], prod[lo + 1..probe + 1])
         == PassSign(swap, prod[lo], prod[lo + 1..probe]) * swap(prod[lo], prod[probe])
  {
    assert prod[lo + 1..probe + 1][..probe - lo - 1] == prod[lo + 1..probe];
  }

  lemma PassBackStep<E>(swap: (E, E) -> int, prod: seq<E>, probe: nat, hi: nat)
    requires probe < hi < |prod|
    ensures PassBack(swap, prod[hi], prod[probe..hi])
         == PassBack(swap, prod[hi], prod[probe + 1..hi]) * swap(prod[hi], prod[probe])
  {
    assert prod[probe..hi][1..] == prod[probe + 1..hi];
  }

  // Once the running sign is zero it stays so.
  lemma {:induction false} PassSignZero<E>(swap: (E, E) -> int, prod: seq<E>, lo: nat, probe: nat, hi: nat, start: int)
    requires lo < probe < hi <= |prod| && start * PassSign(swap, prod[lo], prod[lo + 1..probe + 1]) == 0
    ensures start * PassSign(swap, prod[lo], prod[lo + 1..hi]) == 0
    decreases hi
  {
    if probe + 1 < hi {
      PassSignZero(swap, prod, lo, probe, hi - 1, start);
      PassSignStep(swap, prod, lo, hi - 1);
      Shuffle(start, PassSign(swap, prod[lo], prod[lo + 1..hi - 1]), swap(prod[lo], prod[hi - 1]));
    }
  }

  lemma {:induction false} PassBackZero<E>(swap: (E, E) -> int, prod: seq<E>, lo: nat, probe: nat, hi: nat, start: int)
    requires lo < probe < hi < |prod| && start * PassBack(swap, prod[hi], prod[probe..hi]) == 0
    ensures start * PassBack(swap, prod[hi], prod[lo + 1..hi]) == 0
    decreases probe - lo
  {
    if lo + 1 < probe {
      PassBackStep(swap, prod, probe - 1, hi);
      Shuffle(start, PassBack(swap, prod[hi], prod[probe..hi]), swap(prod[hi], prod[probe - 1]));
      PassBackZero(swap, prod, lo, probe - 1, hi, start);
    }
  }

  // -------------------------------------------------------------------- Values

  ghost function Worths<E, V>(v: E -> V, s: seq<E>): (r: seq<V>)
    ensures |r| == |s| && forall i :: 0 <= i < |s| ==> r[i] == v(s[i])
  {
    seq(|s|, i requires 0 <= i < |s| => v(s[i]))
  }

  // Exchanging neighbours x and y costs the sign swap(x, y).
  ghost predicate SwapLaw<E, V>(M: Model<V>, v: E -> V, swap: (E, E) -> int, x: E, y: E) {
    swap(x, y) != 0 ==> M.mul(v(x), v(y)) == M.scale(swap(x, y) as real, M.mul(v(y), v(x)))
  }

  ghost predicate Graded<E(!new), V(!new)>(M: Model<V>, v: E -> V, swap: (E, E) -> int) {
    IsAlgebra(M) && SwapSigns(swap) && forall x, y :: SwapLaw(M, v, swap, x, y)
  }

  // Both products have the same value up to the sign s.
  ghost predicate SameUpTo<E, V>(M: Model<V>, v: E -> V, s: int, a: seq<E>, b: seq<E>) {
    ProdOf(M, Worths(v, a)) == M.scale(s as real, ProdOf(M, Worths(v, b)))
  }

  lemma WorthsAppend<E, V(!new)>(M: Model<V>, v: E -> V, a: seq<E>, b: seq<E>)
    requires IsAlgebra(M)
    ensures ProdOf(M, Worths(v, a + b)) == M.mul(ProdOf(M, Worths(v, a)), ProdOf(M, Worths(v, b)))
  {
    hide IsAlgebra;
    assert Worths(v, a + b) == Worths(v, a) + Worths(v, b);
    ProdAppend(M, Worths(v, a), Worths(v, b));
  }

  lemma WorthOne<E, V(!new)>(M: Model<V>, v: E -> V, x: E)
    requires IsAlgebra(M)
    ensures ProdOf(M, Worths(v, [x])) == v(x)
  {
    hide IsAlgebra;
    assert Worths(v, [x]) == [v(x)];
    ProdOne(M, v(x));
  }

  // A part of a product may be rearranged at the cost of its sign.
  lemma InContext<E, V(!new)>(M: Model<V>, v: E -> V, s: int, a: seq<E>, x: seq<E>, y: seq<E>, b: seq<E>)
    requires IsAlgebra(M) && SameUpTo(M, v, s, x, y)
    ensures SameUpTo(M, v, s, a + x + b, a + y + b)
  {
    hide IsAlgebra;
    var A, Y, B := ProdOf(M, Worths(v, a)), ProdOf(M, Worths(v, y)), ProdOf(M, Worths(v, b));
    WorthsAppend(M, v, a + x, b);
    WorthsAppend(M, v, a, x);
    WorthsAppend(M, v, a + y, b);
    WorthsAppend(M, v, a, y);
    LinearLaws(M, s as real, Y, A);
    LinearLaws(M, s as real, A, Y);
    LinearLaws(M, s as real, M.mul(A, Y), B);
  }

  lemma Chain<E, V(!new)>(M: Model<V>, v: E -> V, s: int, t: int, st: int, a: seq<E>, b: seq<E>, c: seq<E>)
    requires IsAlgebra(M) && SameUpTo(M, v, s, a, b) && SameUpTo(M, v, t, b, c) && st == s * t
    ensures SameUpTo(M, v, st, a, c)
  {
    hide IsAlgebra;
    ScaleLaws(M, s as real, t as real, ProdOf(M, Worths(v, c)));
    assert st as real == (s as real) * (t as real);
  }

  lemma Unmoved<E, V(!new)>(M: Model<V>, v: E -> V, a: seq<E>)
    requires IsAlgebra(M)
    ensures SameUpTo(M, v, 1, a, a)
  {
    hide IsAlgebra;
    ScaleLaws(M, 1.0, 1.0, ProdOf(M, Worths(v, a)));
  }

  lemma PairSwaps<E(!new), V(!new)>(M: Model<V>, v: E -> V, swap: (E, E) -> int, x: E, y: E)
    requires Graded(M, v, swap) && swap(x, y) != 0
    ensures SameUpTo(M, v, swap(x, y), [x, y], [y, x]) && SameUpTo(M, v, swap(x, y), [y, x], [x, y])
  {
    assert SwapLaw(M, v, swap, x, y);
    hide IsAlgebra, Graded;
    var s := swap(x, y);
    PairWorth(M, v, x, y);
    PairWorth(M, v, y, x);
    var yx := M.mul(v(y), v(x));
    assert swap(x, y) in {-1, 0, 1} by { IsSign(M, v, swap, x, y); }
    ScaleLaws(M, s as real, s as real, yx);
    ScaleLaws(M, 1.0, 1.0, yx);
    assert (s as real) * (s as real) == 1.0;
  }

  lemma IsSign<E(!new), V(!new)>(M: Model<V>, v: E -> V, swap: (E, E) -> int, x: E, y: E)
    requires Graded(M, v, swap)
    ensures swap(x, y) in {-1, 0, 1} && IsAlgebra(M)
  {
  }

  lemma PairWorth<E, V(!new)>(M: Model<V>, v: E -> V, x: E, y: E)
    requires IsAlgebra(M)
    ensures ProdOf(M, Worths(v, [x, y])) == M.mul(v(x), v(y))
  {
    hide IsAlgebra;
    assert [x, y] == [x] + [y];
    WorthsAppend(M, v, [x], [y]);
    WorthOne(M, v, x);
    WorthOne(M, v, y);
  }

  // Moving x to the right past s, one factor at a time.
  lemma {:induction false} PassValue<E(!new), V(!new)>(M: Model<V>, v: E -> V, swap: (E, E) -> int, x: E, s: seq<E>)
    requires Graded(M, v, swap) && PassSign(swap, x, s) != 0
    ensures SameUpTo(M, v, PassSign(swap, x, s), [x] + s, s + [x])
  {
    hide Graded, SameUpTo;
    IsSign(M, v, swap, x, x);
    if s == [] {
      assert [x] + s == s + [x];
      Unmoved(M, v, [x] + s);
    } else {
      var t, y := s[..|s| - 1], s[|s| - 1];
      PassValue(M, v, swap, x, t);
      InContext(M, v, PassSign(swap, x, t), [], [x] + t, t + [x], [y]);
      PairSwaps(M, v, swap, x, y);
      InContext(M, v, swap(x, y), t, [x, y], [y, x], []);
      assert [] + ([x] + t) + [y] == [x] + s && [] + (t + [x]) + [y] == t + [x, y] + [] && t + [y, x] + [] == s + [x];
      Chain(M, v, PassSign(swap, x, t), swap(x, y), PassSign(swap, x, s), [x] + s, t + [x, y] + [], s + [x]);
    }
  }

  // Moving x to the left past s.
  lemma {:induction false} PassBackValue<E(!new), V(!new)>(M: Model<V>, v: E -> V, swap: (E, E) -> int, x: E, s: seq<E>)
    requires Graded(M, v, swap) && PassBack(swap, x, s) != 0
    ensures SameUpTo(M, v, PassBack(swap, x, s), s + [x], [x] + s)
  {
    hide Graded, SameUpTo;
    IsSign(M, v, swap, x, x);
    if s == [] {
      assert [x] + s == s + [x];
      Unmoved(M, v, [x] + s);
    } else {
      var y, t := s[0], s[1..];
      PassBackValue(M, v, swap, x, t);
      InContext(M, v, PassBack(swap, x, t), [y], t + [x], [x] + t, []);
      PairSwaps(M, v, swap, x, y);
      InContext(M, v, swap(x, y), [], [y, x], [x, y], t);
      assert [y] + (t + [x]) + [] == s + [x] && [y] + ([x] + t) + [] == [] + [y, x] + t && [] + [x, y] + t == [x] + s;
      Chain(M, v, PassBack(swap, x, t), swap(x, y), PassBack(swap, x, s), s + [x], [] + [y, x] + t, [x] + s);
    }
  }

  // A nonzero sign of can_move_adjacent is the sign between the product and the
  // product with `one` immediately left of `two`, whichever stood first.
  lemma MovingValue<E(!new), V(!new)>(M: Model<V>, v: E -> V, swap: (E, E) -> int, prod: seq<E>, one: nat, two: nat,
      fixOne: bool)
    requires Graded(M, v, swap) && one < |prod| && two < |prod| && one != two
      && MovingSign(swap, prod, one, two, fixOne) != 0
    ensures SameUpTo(M, v, MovingSign(swap, prod, one, two, fixOne), prod, Adjacent(prod, one, two, fixOne))
  {
    hide Graded, SameUpTo, PassSign, PassBack;
    IsSign(M, v, swap, prod[one], prod[two]);
    var lo, hi := if one < two then one else two, if one < two then two else one;
    var a, m, b := prod[..lo], prod[lo + 1..hi], prod[hi + 1..];
    var x, y := prod[lo], prod[hi];
    assert prod == a + ([x] + m + [y]) + b;
    var s := if fixOne then PassBack(swap, y, m) else PassSign(swap, x, m);
    var near := if fixOne then [x, y] + m else m + [x, y];
    NearEachOther(M, v, swap, x, m, y, fixOne);
    if one < two {
      InContext(M, v, s, a, [x] + m + [y], near, b);
      assert Adjacent(prod, one, two, fixOne) == a + near + b;
    } else {
      PairSwaps(M, v, swap, x, y);
      var far := if fixOne then [y, x] + m else m + [y, x];
      if fixOne {
        InContext(M, v, swap(x, y), [], [x, y], [y, x], m);
      } else {
        InContext(M, v, swap(x, y), m, [x, y], [y, x], []);
      }
      assert [] + [x, y] + m == [x, y] + m && [] + [y, x] + m == [y, x] + m && m + [x, y] + [] == m + [x, y]
        && m + [y, x] + [] == m + [y, x];
      Chain(M, v, s, swap(x, y), MovingSign(swap, prod, one, two, fixOne), [x] + m + [y], near, far);
      InContext(M, v, MovingSign(swap, prod, one, two, fixOne), a, [x] + m + [y], far, b);
      assert Adjacent(prod, one, two, fixOne) == a + far + b;
    }
  }

  lemma NearEachOther<E(!new), V(!new)>(M: Model<V>, v: E -> V, swap: (E, E) -> int, x: E, m: seq<E>, y: E,
      fixOne: bool)
    requires Graded(M, v, swap) && (if fixOne then PassBack(swap, y, m) else PassSign(swap, x, m)) != 0
    ensures fixOne ==> SameUpTo(M, v, PassBack(swap, y, m), [x] + m + [y], [x, y] + m)
    ensures !fixOne ==> SameUpTo(M, v, PassSign(swap, x, m), [x] + m + [y], m + [x, y])
  {
    hide Graded, SameUpTo, PassSign, PassBack;
    IsSign(M, v, swap, x, y);
    if fixOne {
      PassBackValue(M, v, swap, y, m);
      InContext(M, v, PassBack(swap, y, m), [x], m + [y], [y] + m, []);
      assert [x] + (m + [y]) + [] == [x] + m + [y] && [x] + ([y] + m) + [] == [x, y] + m;
    } else {
      PassValue(M, v, swap, x, m);
      InContext(M, v, PassSign(swap, x, m), [], [x] + m, m + [x], [y]);
      assert [] + ([x] + m) + [y] == [x] + m + [y] && [] + (m + [x]) + [y] == m + [x, y];
    }
  }

  // ------------------------------------------------------ When the sign is zero

  ghost predicate PassesAll<E>(swap: (E, E) -> int, x: E, s: seq<E>) {
    forall k :: 0 <= k < |s| ==> swap(x, s[k]) != 0
  }

  lemma NonZeroProduct(a: int, b: int)
    ensures a * b != 0 <==> a != 0 && b != 0
  {
  }

  lemma {:induction false} PassSignNonZero<E>(swap: (E, E) -> int, x: E, s: seq<E>)
    ensures PassSign(swap, x, s) != 0 <==> PassesAll(swap, x, s)
  {
    if s != [] {
      PassSignNonZero(swap, x, s[..|s| - 1]);
      NonZeroProduct(PassSign(swap, x, s[..|s| - 1]), swap(x, s[|s| - 1]));
    }
  }

  lemma {:induction false} PassBackNonZero<E>(swap: (E, E) -> int, x: E, s: seq<E>)
    ensures PassBack(swap, x, s) != 0 <==> PassesAll(swap, x, s)
  {
    if s != [] {
      PassBackNonZero(swap, x, s[1..]);
      NonZeroProduct(PassBack(swap, x, s[1..]), swap(x, s[0]));
      if PassesAll(swap, x, s[1..]) && swap(x, s[0]) != 0 {
        forall k | 0 <= k < |s| ensures swap(x, s[k]) != 0 { if k > 0 { assert s[k] == s[1..][k - 1]; } }
      }
    }
  }

  // The sign is zero exactly when the moving factor does not commute with some
  // factor in between, or has to pass the other one and cannot.
  lemma MovingSignNonZero<E>(swap: (E, E) -> int, prod: seq<E>, one: nat, two: nat, fixOne: bool)
    requires one < |prod| && two < |prod| && one != two
    ensures var lo, hi := if one < two then one else two, if one < two then two else one;
            (MovingSign(swap, prod, one, two, fixOne) != 0 <==>
              && (two < one ==> swap(prod[lo], prod[hi]) != 0)
              && PassesAll(swap, if fixOne then prod[hi] else prod[lo], Between(prod, one, two)))
  {
    hide PassSign, PassBack;
    var lo, hi := if one < two then one else two, if one < two then two else one;
    PassSignNonZero(swap, prod[lo], prod[lo + 1..hi]);
    PassBackNonZero(swap, prod[hi], prod[lo + 1..hi]);
    NonZeroProduct(if one < two then 1 else swap(prod[lo], prod[hi]),
      if fixOne then PassBack(swap, prod[hi], prod[lo + 1..hi]) else PassSign(swap, prod[lo], prod[lo + 1..hi]));
  }
}
