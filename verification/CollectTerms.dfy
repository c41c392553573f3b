// collect_terms: equal terms of a sum are added up.

module CollectTermsClass {
  import opened Expressions
  import opened CleanupRules
  import opened CleanupTheorems
  import opened HashBins
  import opened Collecting
  import opened CleanupClass

  // ---------------------------------------------------------------- The rewrite

  // The hash and the comparison of terms are given; both ignore the multiplier.
  function TermRules(hash: Ex -> int, same: (Ex, Ex) -> bool): Rules<Ex, real> {
    Rules(hash, same, (a: real, b: real) => a + b, 0.0)
  }

  ghost predicate IgnoresMultiplier(same: (Ex, Ex) -> bool) {
    forall a, b, x, y :: same(WithMult(a, x), WithMult(b, y)) == same(a, b)
  }

  function WithMult(e: Ex, m: real): Ex {
    e.(mult := m)
  }

  function Mults(kids: seq<Ex>): (r: seq<real>)
    ensures |r| == |kids| && forall i :: 0 <= i < |r| ==> r[i] == kids[i].mult
  {
    seq(|kids|, i requires 0 <= i < |kids| => kids[i].mult)
  }

  function WithMults(kids: seq<Ex>, ms: seq<real>): (r: seq<Ex>)
    requires |ms| == |kids|
    ensures |r| == |kids| && forall i :: 0 <= i < |r| ==> r[i] == WithMult(kids[i], ms[i])
  {
    seq(|kids|, i requires 0 <= i < |kids| => WithMult(kids[i], ms[i]))
  }

  // A sum among the terms hands its multiplier to its own terms.
  function Handed(e: Ex): Ex {
    if e.name.Sum? && e.mult != 1.0 then Node(Sum, 1.0, ScaleAll(e.kids, e.mult)) else e
  }

  function RemoveZeroed(kids: seq<Ex>): (r: seq<Ex>)
    ensures |r| <= |kids|
  {
    if kids == [] then []
    else if kids[0].mult == 0.0 then RemoveZeroed(kids[1..])
    else [Handed(kids[0])] + RemoveZeroed(kids[1..])
  }

  ghost function CollectedTerms(R: Rules<Ex, real>, kids: seq<Ex>): seq<Ex> {
    RemoveZeroed(WithMults(kids, Collected(R, kids, Mults(kids))))
  }

  ghost function CollectRule(R: Rules<Ex, real>, e: Ex): Ex {
    var kids := CollectedTerms(R, e.kids);
    if |kids| == 1 then kids[0] else if |kids| == 0 then NOUGHT else e.(kids := kids)
  }

  // --------------------------------------------------------------------- Values

  ghost predicate SwapLaw<V>(M: Model<V>, x: V, y: V) {
    M.add(x, y) == M.add(y, x)
  }

  // Addition commutes and multiples add up. Cleaning up needs neither.
  ghost predicate IsCommutativeSum<V(!new)>(M: Model<V>) {
    (forall x, y :: SwapLaw(M, x, y)) && AddsUp(M)
  }

  // Terms that compare equal have equal values, apart from their multipliers.
  ghost predicate Respects<V>(M: Model<V>, same: (Ex, Ex) -> bool) {
    forall a, b :: same(a, b) ==> Core(M, a) == Core(M, b)
  }

  ghost function TermWorth<V>(M: Model<V>): Worth<Ex, real, V> {
    Worth(M.add, M.zero, (c: real, k: Ex) => M.scale(c, Core(M, k)))
  }

  lemma TermsAdditive<V(!new)>(M: Model<V>, hash: Ex -> int, same: (Ex, Ex) -> bool)
    requires IsAlgebra(M) && IsCommutativeSum(M) && Respects(M, same)
    ensures Additive(TermRules(hash, same), TermWorth(M))
  {
    hide IsAlgebra, Core;
    var R, W := TermRules(hash, same), TermWorth(M);
    forall x, y, z ensures PlusLaw(W, x, y, z) {
      AddLaws(M, x, y, z);
      assert SwapLaw(M, x, y);
    }
    forall a, b, k ensures WeighLaw(R, W, a, b, k) {
      ScaleLaws(M, a, b, Core(M, k));
      assert SplitLaw(M, a, b, Core(M, k));
    }
  }

  lemma {:induction false} TotalIsSum<V(!new)>(M: Model<V>, kids: seq<Ex>, ms: seq<real>)
    requires IsAlgebra(M) && |ms| == |kids|
    ensures Total(TermWorth(M), kids, ms) == SumOf(M, Values(M, WithMults(kids, ms)))
  {
    hide IsAlgebra, Core, Value;
    var all := WithMults(kids, ms);
    if kids == [] {
      assert all == [];
    } else {
      var n := |kids| - 1;
      TotalIsSum(M, kids[..n], ms[..n]);
      assert all == WithMults(kids[..n], ms[..n]) + [all[n]];
      ValuesAppend(M, all[..n], [all[n]]);
      assert all[..n] == WithMults(kids[..n], ms[..n]);
      ConsValues(M, all[n], []);
      assert [all[n]] + [] == [all[n]] && [Value(M, all[n])] + [] == [Value(M, all[n])];
      SumAppend(M, Values(M, all[..n]), [Value(M, all[n])]);
      SumOne(M, Value(M, all[n]));
      ValueWith(M, kids[n], ms[n]);
    }
  }

  lemma HandedValue<V(!new)>(M: Model<V>, e: Ex)
    requires IsAlgebra(M)
    ensures Value(M, Handed(e)) == Value(M, e)
  {
    hide IsAlgebra, Value;
    if e.name.Sum? && e.mult != 1.0 {
      SumCore(M, e);
      SumCore(M, Handed(e));
      ScaleAllValue(M, e.kids, e.mult);
      UnitScale(M, SumOf(M, Values(M, Handed(e).kids)));
    }
  }

  lemma {:induction false} RemoveZeroedValue<V(!new)>(M: Model<V>, kids: seq<Ex>)
    requires IsAlgebra(M)
    ensures SumOf(M, Values(M, RemoveZeroed(kids))) == SumOf(M, Values(M, kids))
  {
    hide IsAlgebra, Value, Handed;
    if kids != [] {
      RemoveZeroedValue(M, kids[1..]);
      if kids[0].mult == 0.0 {
        ZeroValue(M, kids[0]);
        AddLaws(M, SumOf(M, Values(M, kids[1..])), M.zero, M.zero);
      } else {
        HandedValue(M, kids[0]);
        ConsValues(M, Handed(kids[0]), RemoveZeroed(kids[1..]));
      }
    }
  }

  lemma CollectedTermsValue<V(!new)>(M: Model<V>, hash: Ex -> int, same: (Ex, Ex) -> bool, kids: seq<Ex>)
    requires IsAlgebra(M) && IsCommutativeSum(M) && Respects(M, same) && Sound(TermRules(hash, same))
    ensures SumOf(M, Values(M, CollectedTerms(TermRules(hash, same), kids))) == SumOf(M, Values(M, kids))
  {
    hide IsAlgebra, IsCommutativeSum, Respects, Sound, TermRules, TermWorth, Additive;
    var R, W := TermRules(hash, same), TermWorth(M);
    var ms := Mults(kids);
    TermsAdditive(M, hash, same);
    CollectedTotal(R, W, kids, ms);
    TotalIsSum(M, kids, ms);
    TotalIsSum(M, kids, Collected(R, kids, ms));
    assert WithMults(kids, ms) == kids;
    RemoveZeroedValue(M, WithMults(kids, Collected(R, kids, ms)));
  }

  // collect_terms::apply keeps the value of a sum, except that a sum left with
  // one term loses its own multiplier.
  lemma CollectRuleValue<V(!new)>(M: Model<V>, hash: Ex -> int, same: (Ex, Ex) -> bool, e: Ex)
    requires IsAlgebra(M) && IsCommutativeSum(M) && Respects(M, same) && Sound(TermRules(hash, same)) && e.name.Sum?
    ensures var R := TermRules(hash, same); var r := Value(M, CollectRule(R, e));
            Value(M, e) == if |CollectedTerms(R, e.kids)| == 1 then M.scale(e.mult, r) else r
    ensures e.mult == 1.0 ==> Value(M, CollectRule(TermRules(hash, same), e)) == Value(M, e)
  {
    hide IsAlgebra, IsCommutativeSum, Respects, Sound, CollectedTerms, Value;
    var kids := CollectedTerms(TermRules(hash, same), e.kids);
    CollectedTermsValue(M, hash, same, e.kids);
    SumCore(M, e);
    if |kids| == 1 {
      assert kids == [kids[0]] + [];
      ConsValues(M, kids[0], []);
      SumOne(M, Value(M, kids[0]));
      UnitScale(M, Value(M, kids[0]));
    } else if |kids| == 0 {
      ScaleLaws(M, e.mult, e.mult, M.zero);
      ZeroValue(M, NOUGHT);
    } else {
      SumCore(M, e.(kids := kids));
    }
  }

  // Comparing names and children, whatever the multiplier, is such a comparison.
  lemma ExactEquality<V>(M: Model<V>, hash: Ex -> int, same: (Ex, Ex) -> bool)
    requires IsEquality(same)
    requires forall x, m :: hash(WithMult(x, m)) == hash(x)
    ensures Sound(TermRules(hash, same)) && IgnoresMultiplier(same) && Respects(M, same)
  {
    forall x, y | same(x, y) ensures hash(x) == hash(y) && Core(M, x) == Core(M, y) {
      assert hash(WithMult(x, 1.0)) == hash(x) && hash(WithMult(y, 1.0)) == hash(y);
      assert WithMult(x, 1.0).name == x.name && WithMult(x, 1.0).kids == x.kids;
      assert WithMult(y, 1.0).name == y.name && WithMult(y, 1.0).kids == y.kids;
    }
    forall a, b, x, y ensures same(WithMult(a, x), WithMult(b, y)) == same(a, b) {
      assert WithMult(WithMult(a, x), 1.0) == WithMult(a, 1.0) && WithMult(WithMult(b, y), 1.0) == WithMult(b, 1.0);
    }
  }

  // ------------------------------------------------------------ Nothing is left

  lemma {:induction false} RemoveZeroedFrom(kids: seq<Ex>, a: nat) returns (i: nat)
    requires a < |RemoveZeroed(kids)|
    ensures a <= i < |kids| && RemoveZeroed(kids)[a] == Handed(kids[i]) && kids[i].mult != 0.0
    ensures a == |RemoveZeroed(kids[..i])|
  {
    if kids[0].mult == 0.0 {
      i := RemoveZeroedFrom(kids[1..], a);
      assert kids[..i + 1][1..] == kids[1..][..i];
      i := i + 1;
    } else if a == 0 {
      i := 0;
      assert kids[..0] == [];
    } else {
      i := RemoveZeroedFrom(kids[1..], a - 1);
      assert kids[..i + 1][1..] == kids[1..][..i];
      i := i + 1;
    }
  }

  lemma {:induction false} RemoveZeroedGrows(kids: seq<Ex>, i: nat, j: nat)
    requires i <= j <= |kids|
    ensures |RemoveZeroed(kids[..i])| <= |RemoveZeroed(kids[..j])|
  {
    if i > 0 {
      assert kids[..i][1..] == kids[1..][..i - 1] && kids[..j][1..] == kids[1..][..j - 1];
      RemoveZeroedGrows(kids[1..], i - 1, j - 1);
    }
  }

  // For any comparison: no term is left without a multiplier, and two terms left
  // are equal only when both are sums, one of which just handed on its multiplier.
  lemma CollectedTermsDiffer(hash: Ex -> int, same: (Ex, Ex) -> bool, kids: seq<Ex>, a: nat, b: nat)
    requires Sound(TermRules(hash, same)) && IgnoresMultiplier(same)
    requires forall x, y :: same(x, y) ==> x.name == y.name
    requires a < b < |CollectedTerms(TermRules(hash, same), kids)|
    ensures var r := CollectedTerms(TermRules(hash, same), kids);
            && r[a].mult != 0.0 && r[b].mult != 0.0
            && (same(r[a], r[b]) ==> r[a].name.Sum? && r[b].name.Sum?)
    ensures (forall k :: k in kids ==> !k.name.Sum?) ==>
      !same(CollectedTerms(TermRules(hash, same), kids)[a], CollectedTerms(TermRules(hash, same), kids)[b])
  {
    hide Sound, RemoveZeroed, Collected;
    var R := TermRules(hash, same);
    var ms := Collected(R, kids, Mults(kids));
    var all := WithMults(kids, ms);
    var i := RemoveZeroedFrom(all, a);
    var j := RemoveZeroedFrom(all, b);
    if j <= i { RemoveZeroedGrows(all, j, i); }
    assert all[i] == WithMult(kids[i], ms[i]) && all[j] == WithMult(kids[j], ms[j]);
    if R.same(kids[i], kids[j]) { LaterIsZero(R, kids, Mults(kids), i, j); }
    assert !same(all[i], all[j]);
    assert kids[i] in kids && kids[j] in kids;
  }

  // The comparison of ExactEquality.
  ghost predicate IsEquality(same: (Ex, Ex) -> bool) {
    forall x, y :: same(x, y) <==> WithMult(x, 1.0) == WithMult(y, 1.0)
  }

  // Terms i and j are sums whose terms come to the same once both have handed on
  // what collecting has left them as multipliers.
  ghost predicate HandOnAlike(kids: seq<Ex>, ms: seq<real>, i: nat, j: nat)
    requires i < |kids| == |ms| && j < |kids|
  {
    && kids[i].name.Sum? && kids[j].name.Sum?
    && ScaleAll(kids[i].kids, ms[i]) == ScaleAll(kids[j].kids, ms[j])
  }

  lemma {:induction false} ScaleAllByOne(kids: seq<Ex>)
    ensures ScaleAll(kids, 1.0) == kids
  {
    forall k | 0 <= k < |kids| ensures ScaleAll(kids, 1.0)[k] == kids[k] {}
  }

  lemma HandedEqual(same: (Ex, Ex) -> bool, x: Ex, y: Ex)
    requires IsEquality(same)
    ensures same(Handed(x), Handed(y)) <==>
      if x.name.Sum? && y.name.Sum? then ScaleAll(x.kids, x.mult) == ScaleAll(y.kids, y.mult) else same(x, y)
  {
    ScaleAllByOne(x.kids);
    ScaleAllByOne(y.kids);
    SameShape(same, x, y);
    SameShape(same, Handed(x), Handed(y));
  }

  lemma SameShape(same: (Ex, Ex) -> bool, x: Ex, y: Ex)
    requires IsEquality(same)
    ensures same(x, y) <==> x.name == y.name && x.kids == y.kids
  {
    assert WithMult(x, 1.0) == WithMult(y, 1.0) <==> x.name == y.name && x.kids == y.kids;
  }

  // Two terms with nonzero multipliers after collecting are left equal exactly when
  // they hand on alike.
  lemma LeftEqual(R: Rules<Ex, real>, kids: seq<Ex>, i: nat, j: nat)
    requires Sound(R) && IsEquality(R.same) && R.zero == 0.0 && i < j < |kids|
    requires Collected(R, kids, Mults(kids))[j] != 0.0
    ensures var ms := Collected(R, kids, Mults(kids));
      R.same(Handed(WithMult(kids[i], ms[i])), Handed(WithMult(kids[j], ms[j]))) <==> HandOnAlike(kids, ms, i, j)
  {
    hide Sound, Collected, ScaleAll, Handed;
    var ms := Collected(R, kids, Mults(kids));
    var x, y := WithMult(kids[i], ms[i]), WithMult(kids[j], ms[j]);
    HandedEqual(R.same, x, y);
    SameShape(R.same, x, y);
    SameShape(R.same, kids[i], kids[j]);
    if R.same(kids[i], kids[j]) { LaterIsZero(R, kids, Mults(kids), i, j); }
  }

  lemma {:induction false} RemoveZeroedTo(kids: seq<Ex>, i: nat)
    requires i < |kids| && kids[i].mult != 0.0
    ensures |RemoveZeroed(kids[..i])| < |RemoveZeroed(kids)|
    ensures RemoveZeroed(kids)[|RemoveZeroed(kids[..i])|] == Handed(kids[i])
  {
    if i > 0 {
      assert kids[..i][1..] == kids[1..][..i - 1];
      RemoveZeroedTo(kids[1..], i - 1);
    }
  }

  // So no two equal terms are left exactly when no two of the sums among the terms
  // hand on alike.
  lemma NoneLeftEqual(hash: Ex -> int, same: (Ex, Ex) -> bool, kids: seq<Ex>)
    requires Sound(TermRules(hash, same)) && IsEquality(same)
    ensures var r := CollectedTerms(TermRules(hash, same), kids);
            var ms := Collected(TermRules(hash, same), kids, Mults(kids));
            (forall a, b :: 0 <= a < b < |r| ==> !same(r[a], r[b])) <==>
            (forall i, j :: 0 <= i < j < |kids| && ms[i] != 0.0 && ms[j] != 0.0 ==> !HandOnAlike(kids, ms, i, j))
  {
    hide Sound, RemoveZeroed, Collected, Handed, HandOnAlike;
    var R := TermRules(hash, same);
    var ms := Collected(R, kids, Mults(kids));
    var all, r := WithMults(kids, ms), CollectedTerms(R, kids);
    if a, b :| 0 <= a < b < |r| && same(r[a], r[b]) {
      var i := RemoveZeroedFrom(all, a);
      var j := RemoveZeroedFrom(all, b);
      if j <= i { RemoveZeroedGrows(all, j, i); }
      LeftEqual(R, kids, i, j);
      assert ms[i] != 0.0 && ms[j] != 0.0 && HandOnAlike(kids, ms, i, j);
    }
    if i, j :| 0 <= i < j < |kids| && ms[i] != 0.0 && ms[j] != 0.0 && HandOnAlike(kids, ms, i, j) {
      RemoveZeroedTo(all, i);
      RemoveZeroedTo(all, j);
      RemoveZeroedUpTo(all, i, j);
      LeftEqual(R, kids, i, j);
      assert same(r[|RemoveZeroed(all[..i])|], r[|RemoveZeroed(all[..j])|]);
    }
  }

  lemma RemoveZeroedUpTo(kids: seq<Ex>, i: nat, j: nat)
    requires i < j <= |kids| && kids[i].mult != 0.0
    ensures |RemoveZeroed(kids[..i])| < |RemoveZeroed(kids[..j])|
  {
    RemoveZeroedTo(kids[..j], i);
    assert kids[..j][..i] == kids[..i];
  }

  lemma TwoDifferent(R: Rules<Ex, real>, kids: seq<Ex>, ms: seq<real>)
    requires |kids| == |ms| == 2 && !R.same(kids[0], kids[1])
    ensures Collected(R, kids, ms) == ms
  {
    ClassSumSkips(R, kids, ms, 0, 1, 2);
    assert First(R, kids, 0) && First(R, kids, 1);
    assert CollectedAt(R, kids, ms, 1) == ms[1];
  }

  // 3(a+a) is collected into 2a.
  lemma LoneTermDropsMultiplier(hash: Ex -> int, same: (Ex, Ex) -> bool, a: Ex)
    requires IsEquality(same) && Sound(TermRules(hash, same)) && a.mult == 1.0 && !a.name.Sum?
    ensures CollectedTerms(TermRules(hash, same), [a, a]) == [Scaled(a, 2.0)]
    ensures CollectRule(TermRules(hash, same), Node(Sum, 3.0, [a, a])) == Scaled(a, 2.0)
  {
    hide Sound, Collected, RemoveZeroed;
    var R, kids := TermRules(hash, same), [a, a];
    var ms := Collected(R, kids, Mults(kids));
    SameShape(same, a, a);
    TwoEqual(R, kids, Mults(kids));
    assert ms == [2.0, 0.0];
    var all := WithMults(kids, ms);
    assert all == [Scaled(a, 2.0), a.(mult := 0.0)] && all[1..] == [a.(mult := 0.0)] && all[1..][1..] == [];
    RemoveZeroedHead(all);
    RemoveZeroedHead(all[1..]);
    RemoveZeroedNone();
  }

  lemma TwoEqual(R: Rules<Ex, real>, kids: seq<Ex>, ms: seq<real>)
    requires |kids| == |ms| == 2 && R.same(kids[0], kids[1])
    ensures Collected(R, kids, ms) == [R.add(ms[0], ms[1]), R.zero]
  {
    assert First(R, kids, 0) && !First(R, kids, 1);
    assert ClassSum(R, kids, ms, 0, 1) == ms[0];
    assert CollectedAt(R, kids, ms, 0) == R.add(ms[0], ms[1]);
  }

  // Handing the multiplier on can make two sums equal that were not: 2(a+b) and
  // 2a+2b, as terms of one sum, are left side by side.
  lemma NestedSumsStayApart(hash: Ex -> int, same: (Ex, Ex) -> bool, a: Ex, b: Ex)
    requires IsEquality(same)
    requires a == Node(Opaque("a"), 1.0, []) && b == Node(Opaque("b"), 1.0, [])
    ensures var twice := Node(Sum, 1.0, [Scaled(a, 2.0), Scaled(b, 2.0)]);
            CollectedTerms(TermRules(hash, same), [Node(Sum, 2.0, [a, b]), twice]) == [twice, twice]
  {
    var twice := Node(Sum, 1.0, [Scaled(a, 2.0), Scaled(b, 2.0)]);
    var kids := [Node(Sum, 2.0, [a, b]), twice];
    var R := TermRules(hash, same);
    assert kids[0].kids[0].mult == 1.0 && twice.kids[0].mult == 2.0;
    assert !R.same(kids[0], kids[1]);
    assert Mults(kids) == [2.0, 1.0];
    TwoDifferent(R, kids, Mults(kids));
    var all := WithMults(kids, [2.0, 1.0]);
    assert all == kids;
    assert ScaleAll([a, b], 2.0) == twice.kids;
    assert kids[1..] == [twice] && [twice][1..] == [];
    RemoveZeroedHead(kids);
    RemoveZeroedHead([twice]);
    assert Handed(twice) == twice && Handed(kids[0]) == twice;
  }

  // -------------------------------------------------------------- What cancels

  // The multipliers of the terms that compare equal to x, added up.
  function LikeSum(same: (Ex, Ex) -> bool, kids: seq<Ex>, x: Ex): real {
    if kids == [] then 0.0
    else
      var n := |kids| - 1;
      LikeSum(same, kids[..n], x) + if same(x, kids[n]) then kids[n].mult else 0.0
  }

  lemma {:induction false} NothingAlike(same: (Ex, Ex) -> bool, kids: seq<Ex>, x: Ex)
    requires forall j :: 0 <= j < |kids| ==> !same(x, kids[j])
    ensures LikeSum(same, kids, x) == 0.0
  {
    if kids != [] { NothingAlike(same, kids[..|kids| - 1], x); }
  }

  lemma {:induction false} AlikeTogether(same: (Ex, Ex) -> bool, kids: seq<Ex>, x: Ex, y: Ex)
    requires forall z :: same(x, z) <==> same(y, z)
    ensures LikeSum(same, kids, x) == LikeSum(same, kids, y)
  {
    if kids != [] { AlikeTogether(same, kids[..|kids| - 1], x, y); }
  }

  lemma {:induction false} ClassSumIsLike(R: Rules<Ex, real>, hash: Ex -> int, kids: seq<Ex>, k: nat, n: nat)
    requires R == TermRules(hash, R.same) && Sound(R) && k < n <= |kids| && First(R, kids, k)
    ensures ClassSum(R, kids, Mults(kids), k, n) == LikeSum(R.same, kids[..n], kids[k])
    decreases n
  {
    assert kids[..n][..n - 1] == kids[..n - 1] && kids[..n][n - 1] == kids[n - 1];
    if n == k + 1 {
      forall j | 0 <= j < |kids[..k]| ensures !R.same(kids[k], kids[..k][j]) { assert !R.same(kids[j], kids[k]); }
      NothingAlike(R.same, kids[..k], kids[k]);
    } else {
      ClassSumIsLike(R, hash, kids, k, n - 1);
    }
  }

  // The first of equal terms is left with the sum of their multipliers, the others
  // with none.
  lemma CollectedIsLike(hash: Ex -> int, same: (Ex, Ex) -> bool, kids: seq<Ex>, i: nat)
    requires Sound(TermRules(hash, same)) && i < |kids|
    ensures Collected(TermRules(hash, same), kids, Mults(kids))[i] ==
      if forall j :: 0 <= j < i ==> !same(kids[j], kids[i]) then LikeSum(same, kids, kids[i]) else 0.0
  {
    var R := TermRules(hash, same);
    if First(R, kids, i) {
      ClassSumIsLike(R, hash, kids, i, |kids|);
      assert kids[..|kids|] == kids;
    }
  }

  // The multipliers of every class of equal terms add up to zero.
  ghost predicate Cancels(same: (Ex, Ex) -> bool, kids: seq<Ex>) {
    forall i :: 0 <= i < |kids| ==> LikeSum(same, kids, kids[i]) == 0.0
  }

  lemma {:induction false} NoneLeft(kids: seq<Ex>)
    ensures RemoveZeroed(kids) == [] <==> forall i :: 0 <= i < |kids| ==> kids[i].mult == 0.0
  {
    if i :| 0 <= i < |kids| && kids[i].mult != 0.0 { RemoveZeroedTo(kids, i); }
    if RemoveZeroed(kids) != [] { var i := RemoveZeroedFrom(kids, 0); }
  }

  lemma EqualAlike(hash: Ex -> int, same: (Ex, Ex) -> bool, kids: seq<Ex>, i: nat, j: nat)
    requires Sound(TermRules(hash, same)) && i < |kids| && j < |kids| && same(kids[j], kids[i])
    ensures LikeSum(same, kids, kids[i]) == LikeSum(same, kids, kids[j])
  {
    var R := TermRules(hash, same);
    assert R.same(kids[i], kids[j]);
    forall z ensures same(kids[i], z) <==> same(kids[j], z) {
      assert R.same(kids[i], z) <==> R.same(kids[j], z);
    }
    AlikeTogether(same, kids, kids[i], kids[j]);
  }

  // No term is left exactly when every class cancels.
  lemma CancelsIsEmpty(hash: Ex -> int, same: (Ex, Ex) -> bool, kids: seq<Ex>)
    requires Sound(TermRules(hash, same))
    ensures CollectedTerms(TermRules(hash, same), kids) == [] <==> Cancels(same, kids)
  {
    hide Sound, Collected, LikeSum, RemoveZeroed;
    var R := TermRules(hash, same);
    var all := WithMults(kids, Collected(R, kids, Mults(kids)));
    NoneLeft(all);
    forall i | 0 <= i < |kids|
      ensures all[i].mult ==
        if forall j :: 0 <= j < i ==> !same(kids[j], kids[i]) then LikeSum(same, kids, kids[i]) else 0.0
    {
      CollectedIsLike(hash, same, kids, i);
    }
    if forall i :: 0 <= i < |all| ==> all[i].mult == 0.0 {
      forall i | 0 <= i < |kids| ensures LikeSum(same, kids, kids[i]) == 0.0 { FirstCancels(hash, same, kids, all, i); }
    }
  }

  lemma {:induction false} FirstCancels(hash: Ex -> int, same: (Ex, Ex) -> bool, kids: seq<Ex>, all: seq<Ex>, i: nat)
    requires Sound(TermRules(hash, same)) && |all| == |kids| && i < |kids|
    requires forall k :: 0 <= k < |all| ==> all[k].mult == 0.0
    requires forall k :: 0 <= k < |all| ==>
      all[k].mult == if forall j :: 0 <= j < k ==> !same(kids[j], kids[k]) then LikeSum(same, kids, kids[k]) else 0.0
    ensures LikeSum(same, kids, kids[i]) == 0.0
    decreases i
  {
    hide Sound, LikeSum;
    if j: nat :| j < i && same(kids[j], kids[i]) {
      FirstCancels(hash, same, kids, all, j);
      EqualAlike(hash, same, kids, i, j);
    } else {
      assert all[i].mult == 0.0;
    }
  }

  // ------------------------------------------------------------------ The class

  method RemoveZeroedTerms(it: Cursor)
    modifies it`children
    ensures it.children == RemoveZeroed(old(it.children))
  {
    hide RemoveZeroed;
    ghost var input := it.children;
    var one := 0;
    WholeList(it.children);
    while one < |it.children|
      invariant 0 <= one <= |it.children|
      invariant it.children[..one] + RemoveZeroed(it.children[one..]) == RemoveZeroed(input)
      decreases |it.children| - one
    {
      AtFront(it.children, one);
      RemoveZeroedHead(it.children[one..]);
      var sib := it.children[one];
      if sib.mult == 0.0 {
        Erased(it.children, one);
        it.children := it.children[..one] + it.children[one + 1..];
      } else if sib.name.Sum? && sib.mult != 1.0 {
        var terms := MultiplyTerms(sib);
        Replaced(it.children, one, Node(Sum, 1.0, terms));
        Regroup(it.children[..one], [Handed(sib)], RemoveZeroed(it.children[one + 1..]));
        it.children := it.children[one := Node(Sum, 1.0, terms)];
        one := one + 1;
      } else {
        Passed(it.children, one);
        Regroup(it.children[..one], [Handed(sib)], RemoveZeroed(it.children[one + 1..]));
        one := one + 1;
      }
    }
    WholeList(it.children);
    RemoveZeroedNone();
  }

  lemma RemoveZeroedHead(kids: seq<Ex>)
    requires kids != []
    ensures RemoveZeroed(kids) == (if kids[0].mult == 0.0 then [] else [Handed(kids[0])]) + RemoveZeroed(kids[1..])
  {
  }

  lemma RemoveZeroedNone()
    ensures RemoveZeroed([]) == []
  {
  }

  // collect_terms::apply, up to pushup_multiplier.
  method Apply(it: Cursor, hash: Ex -> int, same: (Ex, Ex) -> bool) returns (applied: bool)
    requires it.name.Sum? && Sound(TermRules(hash, same)) && IgnoresMultiplier(same)
    modifies it
    ensures it.Tree() == CollectRule(TermRules(hash, same), old(it.Tree()))
    ensures var left := CollectedTerms(TermRules(hash, same), old(it.children));
      && (Cancels(same, old(it.children)) ==> left == [] && it.Tree() == Node(One, 0.0, []))
      && (!Cancels(same, old(it.children)) && |left| == 1 ==> it.Tree() == left[0])
      && (!Cancels(same, old(it.children)) && |left| != 1 ==>
        |left| > 1 && it.Tree() == Node(Sum, old(it.multiplier), left))
    ensures applied <==> exists i, j ::
      0 <= i < j < |old(it.children)| && same(old(it.children)[i], old(it.children)[j])
  {
    hide Sound, Collected, RemoveZeroed, Cancels;
    CancelsIsEmpty(hash, same, it.children);
    var bins := new Collector(TermRules(hash, same), it.children, Mults(it.children));
    bins.FillHashMap();
    applied := bins.CollectFromHashMap();
    it.children := WithMults(it.children, bins.coef);
    RemoveZeroedTerms(it);
    if |it.children| == 1 {
      it.Reseat(it.children[0]);
    } else if |it.children| == 0 {
      it.Reseat(NOUGHT);
    }
  }
}
