// The rewrites of pre_clean_dispatch: numbers, \frac and \sub.

module PreCleanRules {
  import opened Expressions
  import opened CleanupRules
  import opened CleanupTheorems

  // -------------------------------------------------------------- The rewrites

  // A \frac with one argument stands for 1/(...).
  function WithNumerator(kids: seq<Ex>): seq<Ex> {
    if |kids| == 1 then [Node(One, 1.0, [])] + kids else kids
  }

  predicate NoZeros(kids: seq<Ex>) {
    forall i :: 0 <= i < |kids| ==> kids[i].mult != 0.0
  }

  // acc divided by the multipliers of the denominators, one after the other.
  function Divided(acc: real, kids: seq<Ex>): real
    requires NoZeros(kids)
    decreases kids
  {
    if kids == [] then acc
    else
      assert NoZeros(kids[1..]);
      Divided(acc / kids[0].mult, kids[1..])
  }

  // The multipliers up to the first zero, set to one.
  function UnitUntilZero(kids: seq<Ex>): (r: seq<Ex>)
    ensures |r| == |kids|
  {
    if kids == [] || kids[0].mult == 0.0 then kids
    else [kids[0].(mult := 1.0)] + UnitUntilZero(kids[1..])
  }

  // All multipliers set to one.
  function Units(kids: seq<Ex>): (r: seq<Ex>)
    ensures |r| == |kids| && forall i :: 0 <= i < |r| ==> r[i] == kids[i].(mult := 1.0)
  {
    seq(|kids|, i requires 0 <= i < |kids| => kids[i].(mult := 1.0))
  }

  predicate AllNumbers(kids: seq<Ex>) {
    forall i :: 0 <= i < |kids| ==> kids[i].name.One?
  }

  function FracRule(e: Ex): Ex
    requires e.kids != []
  {
    var kids := WithNumerator(e.kids);
    var top, below := kids[0].(mult := 1.0), kids[1..];
    if !NoZeros(below) then e.(kids := [top] + UnitUntilZero(below))
    else
      var rat := Divided(kids[0].mult, below);
      if AllNumbers(kids) then Node(One, e.mult * rat, [])
      else
        var rest := Stripped(below);
        if rest == [] then Scaled(Scaled(top, e.mult), rat)
        else Node(Frac, e.mult * rat, [top] + rest)
  }

  // Terms after the first: zeros dropped, signs flipped.
  function Flipped(kids: seq<Ex>): seq<Ex> {
    if kids == [] then []
    else if kids[0].mult == 0.0 then Flipped(kids[1..])
    else [kids[0].(mult := -kids[0].mult)] + Flipped(kids[1..])
  }

  function SubTerms(kids: seq<Ex>): seq<Ex>
    requires kids != []
  {
    (if kids[0].mult == 0.0 then [] else [kids[0]]) + Flipped(kids[1..])
  }

  function SubRule(e: Ex): Ex
    requires |e.kids| > 1 && !AllZero(e.kids)
  {
    var kids := SubTerms(e.kids);
    if |kids| == 1 then Scaled(kids[0], e.mult) else Node(Sum, e.mult, kids)
  }

  predicate AllZero(kids: seq<Ex>) {
    forall i :: 0 <= i < |kids| ==> kids[i].mult == 0.0
  }

  // What the assertions in cleanup_frac and cleanup_sub ask for.
  predicate Admissible(e: Ex) {
    && (e.name.Frac? ==> e.kids != [])
    && (e.name.Sub? ==> |e.kids| > 1 && !AllZero(e.kids))
  }

  function PreRule(e: Ex): Ex
    requires Admissible(e)
  {
    match e.name
    case Number(q) => Node(One, e.mult * q, e.kids)
    case Frac => FracRule(e)
    case Sub => SubRule(e)
    case _ => e
  }

  // Zero over zero: the numerator and some denominator have multiplier zero.
  predicate ZeroOverZero(e: Ex) {
    e.name.Frac? && |e.kids| > 1 && e.kids[0].mult == 0.0 && !NoZeros(e.kids[1..])
  }

  // ------------------------------------------------------------------- Values

  lemma ConsInverses<V>(M: Model<V>, x: V, vs: seq<V>)
    ensures Inverses(M, [x] + vs) == [M.inv(x)] + Inverses(M, vs)
  {
  }

  // The denominators: their multipliers go into the number, pure numbers vanish.
  lemma {:induction false} DividedValue<V(!new)>(M: Model<V>, acc: real, kids: seq<Ex>)
    requires IsAlgebra(M) && NoZeros(kids)
    ensures M.scale(acc, ProdOf(M, Inverses(M, Values(M, kids))))
         == M.scale(Divided(acc, kids), ProdOf(M, Inverses(M, Values(M, Stripped(kids)))))
    decreases kids
  {
    hide IsAlgebra, Value;
    if kids != [] {
      assert NoZeros(kids[1..]);
      var m, c := kids[0].mult, Core(M, kids[0]);
      var R, R' := ProdOf(M, Inverses(M, Values(M, kids[1..]))), ProdOf(M, Inverses(M, Values(M, Stripped(kids[1..]))));
      DividedValue(M, acc / m, kids[1..]);
      OneDivision(M, acc, kids[0], Values(M, kids[1..]));
      assert Values(M, kids) == [Value(M, kids[0])] + Values(M, kids[1..]);
      var D := Divided(acc, kids);
      StrippedHead(M, D, kids);
      LinearLaws(M, acc / m, M.inv(c), R);
      LinearLaws(M, D, M.inv(c), R');
    }
  }

  // scale(acc) of (m c)^-1 R is scale(acc / m) of c^-1 R.
  lemma OneDivision<V(!new)>(M: Model<V>, acc: real, e: Ex, vs: seq<V>)
    requires IsAlgebra(M) && e.mult != 0.0
    ensures M.scale(acc, ProdOf(M, Inverses(M, [Value(M, e)] + vs)))
         == M.scale(acc / e.mult, M.mul(M.inv(Core(M, e)), ProdOf(M, Inverses(M, vs))))
  {
    hide IsAlgebra, Value;
    var R, c := ProdOf(M, Inverses(M, vs)), Core(M, e);
    OwnMultiplier(M, e);
    ConsInverses(M, Value(M, e), vs);
    ConsProduct(M, M.inv(Value(M, e)), Inverses(M, vs));
    InverseLaws(M, e.mult, c);
    LinearLaws(M, 1.0 / e.mult, M.inv(c), R);
    ScaleTwice(M, acc, 1.0 / e.mult, acc / e.mult, M.mul(M.inv(c), R));
  }

  lemma StrippedHead<V(!new)>(M: Model<V>, D: real, kids: seq<Ex>)
    requires IsAlgebra(M) && kids != []
    ensures M.scale(D, ProdOf(M, Inverses(M, Values(M, Stripped(kids)))))
         == M.scale(D, M.mul(M.inv(Core(M, kids[0])), ProdOf(M, Inverses(M, Values(M, Stripped(kids[1..]))))))
  {
    hide IsAlgebra, Value;
    var R' := ProdOf(M, Inverses(M, Values(M, Stripped(kids[1..]))));
    OwnMultiplier(M, kids[0]);
    if kids[0].name.One? {
      InverseLaws(M, 1.0, M.one);
      MulLaws(M, R', R', R');
    } else {
      var u := kids[0].(mult := 1.0);
      ConsValues(M, u, Stripped(kids[1..]));
      ValueWith(M, kids[0], 1.0);
      UnitScale(M, Core(M, kids[0]));
      ConsInverses(M, Value(M, u), Values(M, Stripped(kids[1..])));
      ConsProduct(M, M.inv(Value(M, u)), Inverses(M, Values(M, Stripped(kids[1..]))));
    }
  }

  // With the numerator spelled out, a fraction is numerator times inverses.
  lemma NumeratorValue<V(!new)>(M: Model<V>, kids: seq<Ex>)
    requires IsAlgebra(M) && kids != []
    ensures |WithNumerator(kids)| >= 2
    ensures FracOf(M, Values(M, kids)) == FracOf(M, Values(M, WithNumerator(kids)))
  {
    hide IsAlgebra;
    if |kids| == 1 {
      var one := Node(One, 1.0, []);
      ConsValues(M, one, kids);
      assert Value(M, one) == M.scale(1.0, M.one);
      UnitScale(M, M.one);
      var vs := Values(M, kids);
      assert ([M.one] + vs)[1..] == vs;
      assert vs == [vs[0]] + [];
      ConsInverses(M, vs[0], []);
      assert Inverses(M, []) == [];
      assert Inverses(M, vs) == [M.inv(vs[0])];
      ProdOne(M, M.inv(vs[0]));
      MulLaws(M, M.inv(vs[0]), M.one, M.one);
    }
  }

  lemma FracCore<V>(M: Model<V>, e: Ex)
    requires e.name.Frac? && |e.kids| >= 2
    ensures Value(M, e) == M.scale(e.mult, M.mul(Value(M, e.kids[0]), ProdOf(M, Inverses(M, Values(M, e.kids[1..])))))
  {
  }

  // The value of a fraction with its multipliers collected into one number.
  lemma CollectedFraction<V(!new)>(M: Model<V>, e: Ex, kids: seq<Ex>)
    requires IsAlgebra(M) && e.name.Frac? && e.kids != [] && kids == WithNumerator(e.kids) && NoZeros(kids[1..])
    ensures Value(M, e) == M.scale(e.mult, M.scale(Divided(kids[0].mult, kids[1..]),
      M.mul(Core(M, kids[0]), ProdOf(M, Inverses(M, Values(M, Stripped(kids[1..])))))))
  {
    hide IsAlgebra, Divided, Stripped;
    NumeratorValue(M, e.kids);
    FracValues(M, e, kids);
    var c, m := Core(M, kids[0]), kids[0].mult;
    var R, R' := ProdOf(M, Inverses(M, Values(M, kids[1..]))), ProdOf(M, Inverses(M, Values(M, Stripped(kids[1..]))));
    OwnMultiplier(M, kids[0]);
    DividedValue(M, m, kids[1..]);
    LinearLaws(M, m, c, R);
    LinearLaws(M, Divided(m, kids[1..]), c, R');
  }

  lemma FracValues<V>(M: Model<V>, e: Ex, kids: seq<Ex>)
    requires e.name.Frac? && |kids| >= 2 && FracOf(M, Values(M, e.kids)) == FracOf(M, Values(M, kids))
    ensures Value(M, e) == M.scale(e.mult, M.mul(Value(M, kids[0]), ProdOf(M, Inverses(M, Values(M, kids[1..])))))
  {
    FracValue(M, e);
    HeadAndTail(M, kids);
    FracIs(M, Values(M, kids));
  }

  lemma FracValue<V>(M: Model<V>, e: Ex)
    requires e.name.Frac?
    ensures Value(M, e) == M.scale(e.mult, FracOf(M, Values(M, e.kids)))
  {
  }

  lemma HeadAndTail<V>(M: Model<V>, kids: seq<Ex>)
    requires kids != []
    ensures Values(M, kids)[0] == Value(M, kids[0]) && Values(M, kids)[1..] == Values(M, kids[1..])
  {
    hide Value;
    assert Values(M, kids) == [Value(M, kids[0])] + Values(M, kids[1..]);
  }

  lemma FracIs<V>(M: Model<V>, vs: seq<V>)
    requires |vs| >= 2
    ensures FracOf(M, vs) == M.mul(vs[0], ProdOf(M, Inverses(M, vs[1..])))
  {
  }

  lemma NumbersStripped(kids: seq<Ex>)
    requires AllNumbers(kids)
    ensures Stripped(kids) == []
  {
    if kids != [] {
      assert AllNumbers(kids[1..]);
      NumbersStripped(kids[1..]);
    }
  }

  lemma NoFactors<V>(M: Model<V>)
    ensures ProdOf(M, Inverses(M, Values(M, []))) == M.one
  {
    assert Inverses(M, []) == [];
  }

  // What a fraction is worth once its multipliers are one number n.
  ghost predicate Collected<V>(M: Model<V>, e: Ex, c: V, rest: seq<Ex>, n: real) {
    Value(M, e) == M.scale(n, M.mul(c, ProdOf(M, Inverses(M, Values(M, rest)))))
  }

  lemma FracIsCollected<V(!new)>(M: Model<V>, e: Ex, n: real)
    requires IsAlgebra(M) && e.name.Frac? && e.kids != [] && NoZeros(WithNumerator(e.kids)[1..])
    requires var kids := WithNumerator(e.kids); n == e.mult * Divided(kids[0].mult, kids[1..])
    ensures var kids := WithNumerator(e.kids); Collected(M, e, Core(M, kids[0]), Stripped(kids[1..]), n)
  {
    hide IsAlgebra, Value, Divided, Stripped, Core;
    var kids := WithNumerator(e.kids);
    var R' := ProdOf(M, Inverses(M, Values(M, Stripped(kids[1..]))));
    CollectedFraction(M, e, kids);
    ScaleTwice(M, e.mult, Divided(kids[0].mult, kids[1..]), n, M.mul(Core(M, kids[0]), R'));
  }

  lemma AllNumbersValue<V(!new)>(M: Model<V>, e: Ex, c: V, n: Ex)
    requires IsAlgebra(M) && Collected(M, e, c, [], n.mult) && c == M.one && n.name.One?
    ensures Value(M, n) == Value(M, e)
  {
    hide IsAlgebra, Value;
    NoFactors(M);
    OwnMultiplier(M, n);
    MulLaws(M, M.one, M.one, M.one);
  }

  lemma LoneNumeratorValue<V(!new)>(M: Model<V>, e: Ex, top: Ex, m: real, rat: real, n: real)
    requires IsAlgebra(M) && Collected(M, e, Value(M, top), [], n) && n == m * rat
    ensures Value(M, Scaled(Scaled(top, m), rat)) == Value(M, e)
  {
    hide IsAlgebra, Value;
    var c := Value(M, top);
    NoFactors(M);
    MulLaws(M, c, c, c);
    ValueScaled(M, Scaled(top, m), rat);
    ValueScaled(M, top, m);
    ScaleTwice(M, rat, m, n, c);
  }

  lemma SmallerFracValue<V>(M: Model<V>, e: Ex, top: Ex, rest: seq<Ex>, f: Ex)
    requires Collected(M, e, Value(M, top), rest, f.mult) && rest != []
    requires f.name.Frac? && f.kids == [top] + rest
    ensures Value(M, f) == Value(M, e)
  {
    hide Value;
    assert f.kids[1..] == rest;
    FracCore(M, f);
  }

  lemma TopValue<V(!new)>(M: Model<V>, e: Ex)
    requires IsAlgebra(M)
    ensures Value(M, e.(mult := 1.0)) == Core(M, e) && (e.name.One? ==> Core(M, e) == M.one)
  {
    hide IsAlgebra;
    ValueWith(M, e, 1.0);
    UnitScale(M, Core(M, e));
  }

  lemma DividedFracValue<V(!new)>(M: Model<V>, e: Ex)
    requires IsAlgebra(M) && e.name.Frac? && e.kids != [] && NoZeros(WithNumerator(e.kids)[1..])
    ensures Value(M, FracRule(e)) == Value(M, e)
  {
    hide IsAlgebra, Value, Divided, Stripped, Core, Collected;
    var kids := WithNumerator(e.kids);
    var top, below := kids[0].(mult := 1.0), kids[1..];
    var rat := Divided(kids[0].mult, below);
    TopValue(M, kids[0]);
    if AllNumbers(kids) {
      assert AllNumbers(below);
      NumbersStripped(below);
      FracIsCollected(M, e, FracRule(e).mult);
      AllNumbersValue(M, e, Core(M, kids[0]), FracRule(e));
    } else if Stripped(below) == [] {
      FracIsCollected(M, e, e.mult * rat);
      LoneNumeratorValue(M, e, top, e.mult, rat, e.mult * rat);
    } else {
      FracIsCollected(M, e, FracRule(e).mult);
      SmallerFracValue(M, e, top, Stripped(below), FracRule(e));
    }
  }

  // ------------------------------------------------------- Zero denominators

  // What the early return leaves: the multipliers before the first zero
  // denominator are one, and nothing else has changed.
  lemma ZeroDenominatorStops(e: Ex, z: nat)
    requires e.name.Frac? && 0 < z < |WithNumerator(e.kids)| && WithNumerator(e.kids)[z].mult == 0.0
    requires forall i :: 0 < i < z ==> WithNumerator(e.kids)[i].mult != 0.0
    ensures FracRule(e).name == e.name && FracRule(e).mult == e.mult
    ensures |FracRule(e).kids| == |WithNumerator(e.kids)|
    ensures forall i :: 0 <= i < |WithNumerator(e.kids)| ==>
      FracRule(e).kids[i] == if i < z then WithNumerator(e.kids)[i].(mult := 1.0) else WithNumerator(e.kids)[i]
  {
    var kids := WithNumerator(e.kids);
    var below := kids[1..];
    assert below[z - 1].mult == 0.0;
    UnitUntilZeroAt(below, z - 1);
    var r := FracRule(e).kids;
    forall i | 0 <= i < |kids| ensures r[i] == if i < z then kids[i].(mult := 1.0) else kids[i] {
      if i > 0 { assert r[i] == UnitUntilZero(below)[i - 1] && below[i - 1] == kids[i]; }
    }
  }

  lemma {:induction false} UnitUntilZeroAt(kids: seq<Ex>, z: nat)
    requires z < |kids| && kids[z].mult == 0.0 && forall i :: 0 <= i < z ==> kids[i].mult != 0.0
    ensures forall i :: 0 <= i < |kids| ==>
      UnitUntilZero(kids)[i] == if i < z then kids[i].(mult := 1.0) else kids[i]
  {
    if z > 0 {
      UnitUntilZeroAt(kids[1..], z - 1);
      forall i | 0 <= i < |kids|
        ensures UnitUntilZero(kids)[i] == if i < z then kids[i].(mult := 1.0) else kids[i]
      {
        if i > 0 { assert UnitUntilZero(kids)[i] == UnitUntilZero(kids[1..])[i - 1] && kids[1..][i - 1] == kids[i]; }
      }
    }
  }

  // Numbers other than zero make no difference to x.
  ghost predicate Absorbs<V(!new)>(M: Model<V>, x: V) {
    forall a :: a != 0.0 ==> M.scale(a, x) == x
  }

  ghost function Denominator<V>(M: Model<V>, kids: seq<Ex>): V {
    ProdOf(M, Inverses(M, Values(M, kids)))
  }

  lemma DenominatorHead<V>(M: Model<V>, kids: seq<Ex>)
    requires kids != []
    ensures Denominator(M, kids) == M.mul(M.inv(Value(M, kids[0])), Denominator(M, kids[1..]))
  {
    hide Value;
    ConsInverses(M, Value(M, kids[0]), Values(M, kids[1..]));
    ConsProduct(M, M.inv(Value(M, kids[0])), Inverses(M, Values(M, kids[1..])));
  }

  lemma ZeroInverse<V(!new)>(M: Model<V>)
    requires IsAlgebra(M)
    ensures Absorbs(M, M.inv(M.zero))
    ensures AddsUp(M) ==> M.inv(M.zero) == M.zero
  {
    hide IsAlgebra;
    var x := M.inv(M.zero);
    forall a | a != 0.0 ensures M.scale(a, x) == x {
      InverseLaws(M, 1.0 / a, M.zero);
      ScaleLaws(M, 1.0 / a, 1.0, x);
      assert 1.0 / (1.0 / a) == a;
    }
    if AddsUp(M) {
      ScaleLaws(M, 0.0, 0.0, x);
      assert SplitLaw(M, 1.0, -1.0, x) && SplitLaw(M, 1.0, 1.0, x);
      assert M.scale(1.0 + 1.0, x) == x && M.scale(-1.0, x) == x;
    }
  }

  lemma AbsorbsProduct<V(!new)>(M: Model<V>, x: V, y: V)
    requires IsAlgebra(M) && (Absorbs(M, x) || Absorbs(M, y))
    ensures Absorbs(M, M.mul(x, y))
  {
    hide IsAlgebra;
    forall a | a != 0.0 ensures M.scale(a, M.mul(x, y)) == M.mul(x, y) { LinearLaws(M, a, x, y); }
  }

  lemma ZeroProduct<V(!new)>(M: Model<V>, x: V)
    requires IsAlgebra(M)
    ensures M.mul(M.zero, x) == M.zero == M.mul(x, M.zero)
  {
    hide IsAlgebra;
    ScaleLaws(M, 0.0, 0.0, M.zero);
    LinearLaws(M, 0.0, M.zero, x);
    LinearLaws(M, 0.0, x, M.zero);
    ScaleLaws(M, 0.0, 0.0, M.mul(M.zero, x));
    ScaleLaws(M, 0.0, 0.0, M.mul(x, M.zero));
  }

  // A zero denominator absorbs numbers, so the multipliers set to one before it
  // are not missed.
  lemma {:induction false} ZeroDenominators<V(!new)>(M: Model<V>, kids: seq<Ex>)
    requires IsAlgebra(M) && !NoZeros(kids)
    ensures Absorbs(M, Denominator(M, kids)) && (AddsUp(M) ==> Denominator(M, kids) == M.zero)
    ensures Denominator(M, UnitUntilZero(kids)) == Denominator(M, kids)
  {
    hide IsAlgebra, Value, Denominator, Absorbs, AddsUp, Core;
    var D := Denominator(M, kids[1..]);
    DenominatorHead(M, kids);
    ZeroInverse(M);
    ZeroProduct(M, D);
    if kids[0].mult == 0.0 {
      ZeroValue(M, kids[0]);
      AbsorbsProduct(M, M.inv(M.zero), D);
    } else {
      NonZeroTail(kids);
      ZeroDenominators(M, kids[1..]);
      ZeroProduct(M, M.inv(Value(M, kids[0])));
      AbsorbsProduct(M, M.inv(Value(M, kids[0])), D);
      UnitDenominator(M, kids[0], D);
      var r := UnitUntilZero(kids);
      assert r[0] == kids[0].(mult := 1.0) && r[1..] == UnitUntilZero(kids[1..]);
      DenominatorHead(M, r);
    }
  }

  lemma NonZeroTail(kids: seq<Ex>)
    requires kids != [] && kids[0].mult != 0.0
    ensures NoZeros(kids) <==> NoZeros(kids[1..])
  {
    if NoZeros(kids[1..]) {
      forall i | 0 <= i < |kids| ensures kids[i].mult != 0.0 { if i > 0 { assert kids[i] == kids[1..][i - 1]; } }
    }
  }

  lemma UnitDenominator<V(!new)>(M: Model<V>, e: Ex, D: V)
    requires IsAlgebra(M) && e.mult != 0.0 && Absorbs(M, D)
    ensures M.mul(M.inv(Value(M, e)), D) == M.mul(M.inv(Value(M, e.(mult := 1.0))), D)
  {
    hide IsAlgebra, Core;
    var c := Core(M, e);
    OwnMultiplier(M, e);
    ValueWith(M, e, 1.0);
    UnitScale(M, c);
    InverseLaws(M, e.mult, c);
    LinearLaws(M, 1.0 / e.mult, M.inv(c), D);
    assert 1.0 / e.mult != 0.0;
  }

  lemma UnitNumerator<V(!new)>(M: Model<V>, e: Ex, D: V)
    requires IsAlgebra(M) && Absorbs(M, D) && (e.mult == 0.0 ==> D == M.zero)
    ensures M.mul(Value(M, e), D) == M.mul(Value(M, e.(mult := 1.0)), D)
  {
    hide IsAlgebra, Core;
    var c := Core(M, e);
    OwnMultiplier(M, e);
    ValueWith(M, e, 1.0);
    UnitScale(M, c);
    LinearLaws(M, e.mult, c, D);
    ZeroProduct(M, c);
    ZeroProduct(M, Value(M, e));
  }

  lemma StoppedFracValue<V(!new)>(M: Model<V>, e: Ex)
    requires IsAlgebra(M) && e.name.Frac? && e.kids != [] && !NoZeros(WithNumerator(e.kids)[1..])
    requires !ZeroOverZero(e) || AddsUp(M)
    ensures Value(M, FracRule(e)) == Value(M, e)
  {
    hide IsAlgebra, Value, UnitUntilZero, AddsUp, Absorbs, FracOf, NoZeros;
    var kids := WithNumerator(e.kids);
    var top, below, r := kids[0].(mult := 1.0), kids[1..], FracRule(e);
    NumeratorValue(M, e.kids);
    FracValues(M, e, kids);
    ZeroDenominators(M, below);
    UnitNumerator(M, kids[0], Denominator(M, below));
    assert r.kids[1..] == UnitUntilZero(below);
    FracCore(M, r);
  }

  // cleanup_frac keeps the value of every fraction, a zero denominator or not. Zero
  // over zero needs multiples to add up.
  lemma FracRuleValue<V(!new)>(M: Model<V>, e: Ex)
    requires IsAlgebra(M) && e.name.Frac? && e.kids != [] && (!ZeroOverZero(e) || AddsUp(M))
    ensures Value(M, FracRule(e)) == Value(M, e)
  {
    hide IsAlgebra, Value, FracRule, AddsUp;
    if NoZeros(WithNumerator(e.kids)[1..]) { DividedFracValue(M, e); } else { StoppedFracValue(M, e); }
  }

  // Truth values: a number other than zero counts as true.
  function TruthModel(): Model<bool> {
    Model(false, true, (x, y) => x || y, (x, y) => x && y, (a, x) => a != 0.0 && x, x => true, (id, vs) => true)
  }

  lemma TruthIsAnAlgebra()
    ensures IsAlgebra(TruthModel()) && !AddsUp(TruthModel())
  {
    var M := TruthModel();
    forall x, y, z ensures AddLaw(M, x, y, z) {}
    forall x, y, z ensures MulLaw(M, x, y, z) {}
    forall a, b, x ensures ScaleLaw(M, a, b, x) {}
    forall a, x, y ensures LinearLaw(M, a, x, y) {}
    forall a, x ensures InverseLaw(M, a, x) {}
    assert !SplitLaw(M, 1.0, -1.0, true);
  }

  lemma {:induction false} AllTrue(vs: seq<bool>)
    ensures ProdOf(TruthModel(), Inverses(TruthModel(), vs)) == true
  {
    var M := TruthModel();
    var r := Inverses(M, vs);
    if vs != [] {
      AllTrue(vs[1..]);
      assert r[1..] == Inverses(M, vs[1..]);
    }
  }

  // Without that the value is kept in every algebra exactly when the fraction is
  // not zero over zero: otherwise the zero of the numerator is forgotten.
  lemma ZeroOverZeroForgets(e: Ex)
    requires e.name.Frac? && e.kids != [] && e.mult != 0.0
    requires var top := WithNumerator(e.kids)[0].name; top.One? || top.Opaque?
    ensures (forall M: Model<bool> :: IsAlgebra(M) ==> Value(M, FracRule(e)) == Value(M, e)) <==> !ZeroOverZero(e)
  {
    hide IsAlgebra, FracRule, Value;
    if ZeroOverZero(e) {
      var M := TruthModel();
      TruthIsAnAlgebra();
      ZeroOverZeroTruth(e);
    } else {
      forall M: Model<bool> | IsAlgebra(M) ensures Value(M, FracRule(e)) == Value(M, e) { FracRuleValue(M, e); }
    }
  }

  lemma ZeroOverZeroTruth(e: Ex)
    requires ZeroOverZero(e) && e.mult != 0.0 && (e.kids[0].name.One? || e.kids[0].name.Opaque?)
    ensures Value(TruthModel(), e) == false && Value(TruthModel(), FracRule(e)) == true
  {
    hide IsAlgebra, Value, Values, ProdOf;
    var M, r := TruthModel(), FracRule(e);
    TruthIsAnAlgebra();
    FracCore(M, e);
    ZeroValue(M, e.kids[0]);
    FracCore(M, r);
    AllTrue(Values(M, r.kids[1..]));
    OwnMultiplier(M, r.kids[0]);
  }

  lemma {:induction false} FlippedValue<V(!new)>(M: Model<V>, kids: seq<Ex>)
    requires IsAlgebra(M)
    ensures SumOf(M, Values(M, Flipped(kids))) == SumOf(M, Negated(M, Values(M, kids)))
  {
    hide IsAlgebra, Value;
    if kids == [] {
      assert Negated(M, Values(M, kids)) == [];
    } else {
      FlippedValue(M, kids[1..]);
      var v, vs := Value(M, kids[0]), Values(M, kids[1..]);
      assert Values(M, kids) == [v] + vs;
      assert Negated(M, [v] + vs) == [M.scale(-1.0, v)] + Negated(M, vs);
      ConsSum(M, M.scale(-1.0, v), Negated(M, vs));
      if kids[0].mult == 0.0 {
        ZeroValue(M, kids[0]);
        ScaleLaws(M, -1.0, -1.0, v);
        AddLaws(M, SumOf(M, Negated(M, vs)), v, v);
      } else {
        var k := kids[0].(mult := -kids[0].mult);
        ConsValues(M, k, Flipped(kids[1..]));
        ConsSum(M, Value(M, k), Values(M, Flipped(kids[1..])));
        ValueWith(M, kids[0], -kids[0].mult);
        OwnMultiplier(M, kids[0]);
        ScaleTwice(M, -1.0, kids[0].mult, -kids[0].mult, Core(M, kids[0]));
      }
    }
  }

  lemma ConsSum<V>(M: Model<V>, x: V, vs: seq<V>)
    ensures SumOf(M, [x] + vs) == M.add(x, SumOf(M, vs))
  {
    assert ([x] + vs)[1..] == vs;
  }

  lemma SubTermsValue<V(!new)>(M: Model<V>, kids: seq<Ex>)
    requires IsAlgebra(M) && kids != []
    ensures SumOf(M, Values(M, SubTerms(kids))) == SubOf(M, Values(M, kids))
  {
    hide IsAlgebra, Value;
    FlippedValue(M, kids[1..]);
    var v, r := Value(M, kids[0]), Flipped(kids[1..]);
    assert Values(M, kids) == [v] + Values(M, kids[1..]);
    assert Values(M, kids)[1..] == Values(M, kids[1..]);
    if kids[0].mult == 0.0 {
      assert SubTerms(kids) == r;
      ZeroValue(M, kids[0]);
      AddLaws(M, SumOf(M, Values(M, r)), v, v);
    } else {
      ConsValues(M, kids[0], r);
      ConsSum(M, v, Values(M, r));
    }
  }

  lemma SubRuleValue<V(!new)>(M: Model<V>, e: Ex)
    requires IsAlgebra(M) && e.name.Sub? && |e.kids| > 1 && !AllZero(e.kids)
    ensures Value(M, SubRule(e)) == Value(M, e)
  {
    hide IsAlgebra, Value, SubTerms;
    var kids := SubTerms(e.kids);
    SubTermsValue(M, e.kids);
    SubCore(M, e);
    if |kids| == 1 {
      assert kids == [kids[0]] + [];
      ConsValues(M, kids[0], []);
      SumOne(M, Value(M, kids[0]));
      ValueScaled(M, kids[0], e.mult);
    } else {
      SumCore(M, Node(Sum, e.mult, kids));
    }
  }

  lemma SubCore<V>(M: Model<V>, e: Ex)
    requires e.name.Sub?
    ensures Value(M, e) == M.scale(e.mult, SubOf(M, Values(M, e.kids)))
  {
  }

  lemma PreRuleValue<V(!new)>(M: Model<V>, e: Ex)
    requires IsAlgebra(M) && Admissible(e) && (!ZeroOverZero(e) || AddsUp(M))
    ensures Value(M, PreRule(e)) == Value(M, e)
  {
    hide IsAlgebra, Value, FracRule, SubRule, AddsUp;
    match e.name
    case Number(q) =>
      NumberCore(M, e, q);
      var n := PreRule(e);
      ScaleTwice(M, e.mult, q, n.mult, M.one);
      OwnMultiplier(M, n);
    case Frac => FracRuleValue(M, e);
    case Sub => SubRuleValue(M, e);
    case _ =>
  }

  lemma NumberCore<V>(M: Model<V>, e: Ex, q: real)
    requires e.name == Number(q)
    ensures Value(M, e) == M.scale(e.mult, M.scale(q, M.one))
  {
  }

  // When the multiplier comes out as zero.
  lemma PreRuleZero(e: Ex)
    requires Admissible(e)
    ensures PreRule(e).mult == 0.0 <==>
      || e.mult == 0.0
      || e.name == Number(0.0)
      || (e.name.Frac? && |e.kids| > 1 && e.kids[0].mult == 0.0 && NoZeros(e.kids[1..]))
  {
    hide FracRule, SubRule, NoZeros;
    match e.name
    case Number(q) => TimesZero(e.mult, q);
    case Frac => FracRuleZero(e);
    case Sub => SubRuleZero(e);
    case _ =>
  }

  lemma FracRuleZero(e: Ex)
    requires e.name.Frac? && e.kids != []
    ensures FracRule(e).mult == 0.0 <==>
      e.mult == 0.0 || (|e.kids| > 1 && e.kids[0].mult == 0.0 && NoZeros(e.kids[1..]))
  {
    hide Divided, Stripped, AllNumbers, NoZeros, UnitUntilZero;
    var kids := WithNumerator(e.kids);
    if NoZeros(kids[1..]) {
      DividedZero(kids[0].mult, kids[1..]);
      FracRuleMultiplier(e);
      TimesZero(e.mult, Divided(kids[0].mult, kids[1..]));
    }
  }

  lemma FracRuleMultiplier(e: Ex)
    requires e.name.Frac? && e.kids != [] && NoZeros(WithNumerator(e.kids)[1..])
    ensures FracRule(e).mult == e.mult * Divided(WithNumerator(e.kids)[0].mult, WithNumerator(e.kids)[1..])
  {
    hide Divided, Stripped, AllNumbers, NoZeros;
  }

  lemma SubRuleZero(e: Ex)
    requires e.name.Sub? && |e.kids| > 1 && !AllZero(e.kids)
    ensures SubRule(e).mult == 0.0 <==> e.mult == 0.0
  {
    hide SubTerms;
    var kids := SubTerms(e.kids);
    SubTermsNonZero(e.kids);
    if |kids| == 1 { TimesZero(kids[0].mult, e.mult); }
  }

  lemma TimesZero(x: real, y: real)
    ensures x * y == 0.0 <==> x == 0.0 || y == 0.0
  {
  }

  lemma {:induction false} DividedZero(acc: real, kids: seq<Ex>)
    requires NoZeros(kids)
    ensures Divided(acc, kids) == 0.0 <==> acc == 0.0
    decreases kids
  {
    if kids != [] {
      assert NoZeros(kids[1..]);
      DividedZero(acc / kids[0].mult, kids[1..]);
    }
  }

  lemma SubTermsNonZero(kids: seq<Ex>)
    requires kids != []
    ensures NoZeros(SubTerms(kids))
  {
    FlippedNonZero(kids[1..]);
  }

  lemma {:induction false} FlippedNonZero(kids: seq<Ex>)
    ensures NoZeros(Flipped(kids))
  {
    if kids != [] { FlippedNonZero(kids[1..]); }
  }
}
