// The form of what the rewrites of one node leave, clean children or not.

module CleanupForms {
  import opened Expressions
  import opened CleanupRules
  import opened PreCleanRules
  import opened PreCleanForms

  // -------------------------------------------------------------------- Products

  // The factors of a tree of nested products, from left to right.
  function Leaves(e: Ex): seq<Ex>
    decreases e, 1
  {
    if e.name.Prod? then AllLeaves(e.kids) else [e]
  }

  function AllLeaves(es: seq<Ex>): seq<Ex>
    decreases es, 0
  {
    if es == [] then [] else Leaves(es[0]) + AllLeaves(es[1..])
  }

  // The multipliers of the products in it, multiplied.
  function ProductMultiplier(e: Ex): real
    decreases e, 1
  {
    if e.name.Prod? then Times(e.mult, AllProductMultipliers(e.kids)) else 1.0
  }

  function AllProductMultipliers(es: seq<Ex>): real
    decreases es, 0
  {
    if es == [] then 1.0 else Times(ProductMultiplier(es[0]), AllProductMultipliers(es[1..]))
  }

  lemma {:induction false} LeavesAppend(a: seq<Ex>, b: seq<Ex>)
    ensures AllLeaves(a + b) == AllLeaves(a) + AllLeaves(b)
    ensures AllProductMultipliers(a + b) == Times(AllProductMultipliers(a), AllProductMultipliers(b))
  {
    hide Times, Leaves, ProductMultiplier;
    if a == [] {
      assert a + b == b;
      TimesLaws(AllProductMultipliers(b), 1.0, 1.0);
    } else {
      assert (a + b)[1..] == a[1..] + b;
      LeavesAppend(a[1..], b);
      Regroup(ProductMultiplier(a[0]), AllProductMultipliers(a[1..]), AllProductMultipliers(b));
    }
  }

  lemma Regroup(x: real, y: real, z: real)
    ensures Times(x, Times(y, z)) == Times(Times(x, y), z)
  {
    assert x * (y * z) == (x * y) * z;
  }

  // Flattening opens all nested products, however deep, and multiplies up what they
  // carry.
  lemma {:induction false} FlatFactorsAreLeaves(kids: seq<Ex>)
    ensures FlatFactors(kids) == AllLeaves(kids) && FlatFactor(kids) == AllProductMultipliers(kids)
    decreases Nodes(kids)
  {
    hide Times;
    if kids != [] {
      var rest := kids[1..];
      if kids[0].name.Prod? {
        OpenedSize(kids);
        FlatFactorsAreLeaves(kids[0].kids + rest);
        LeavesAppend(kids[0].kids, rest);
        Regroup(kids[0].mult, AllProductMultipliers(kids[0].kids), AllProductMultipliers(rest));
      } else {
        assert Nodes(kids) == Size(kids[0]) + Nodes(rest);
        FlatFactorsAreLeaves(rest);
        TimesLaws(AllProductMultipliers(rest), 1.0, 1.0);
      }
    }
  }

  lemma {:induction false} LeavesAreNoProducts(e: Ex)
    ensures forall i :: 0 <= i < |Leaves(e)| ==> !Leaves(e)[i].name.Prod?
    decreases e, 1
  {
    if e.name.Prod? { AllLeavesAreNoProducts(e.kids); }
  }

  lemma {:induction false} AllLeavesAreNoProducts(es: seq<Ex>)
    ensures forall i :: 0 <= i < |AllLeaves(es)| ==> !AllLeaves(es)[i].name.Prod?
    decreases es, 0
  {
    hide Leaves;
    if es != [] {
      LeavesAreNoProducts(es[0]);
      AllLeavesAreNoProducts(es[1..]);
    }
  }

  lemma {:induction false} GatheredIs(kids: seq<Ex>)
    ensures Gathered(kids) == MultiplierProduct(kids)
  {
    if kids != [] { GatheredIs(kids[1..]); }
  }

  // cleanup_numericalflat: the factors that are not numbers, with unit multipliers,
  // and the product of all multipliers.
  lemma NumericalFlatForm(e: Ex)
    ensures NumericalFlat(e).0 == Node(e.name, Times(e.mult, MultiplierProduct(e.kids)), Stripped(e.kids))
  {
    GatheredIs(e.kids);
  }

  // cleanup_productlike: with nested products, their factors as they are, numbers
  // included; without, the factors that are not numbers, with unit multipliers. None
  // left is a number, a lone one takes over the multiplier of the product.
  lemma ProductForm(e: Ex) returns (f: seq<nat>)
    requires e.name.Prod?
    ensures HasNamed(e.kids, Prod) ==>
      Flattening(Times(e.mult, AllProductMultipliers(e.kids)), AllLeaves(e.kids), ProductLike(e).0)
    ensures !HasNamed(e.kids, Prod) ==>
      WithoutNumbers(e.kids, f, Stripped(e.kids))
      && Flattening(Times(e.mult, MultiplierProduct(e.kids)), Stripped(e.kids), ProductLike(e).0)
  {
    hide NumericalFlat, Stripped, Leaves, PushDown, HasNamed, WithoutNumbers, Times;
    f := StrippedIs(e.kids);
    FlatFactorsAreLeaves(e.kids);
    NumericalFlatForm(e);
  }

  // A product of these factors with this multiplier, collapsed.
  ghost predicate Flattening(m: real, factors: seq<Ex>, r: Ex) {
    if |factors| == 0 then r == Node(One, m, [])
    else if |factors| == 1 then r == PushDown(factors[0].(mult := m))
    else r == Node(Prod, m, factors)
  }

  // ------------------------------------------------------------------------ Sums

  // push_down_multiplier: every term takes the multiplier, a nested sum hands it on.
  lemma PushDownForm(e: Ex)
    requires e.name.Sum? && e.mult != 1.0
    ensures PushDown(e).name.Sum? && PushDown(e).mult == 1.0 && |PushDown(e).kids| == |e.kids|
    ensures forall i :: 0 <= i < |e.kids| && !e.kids[i].name.Sum? ==> PushDown(e).kids[i] == Scaled(e.kids[i], e.mult)
    ensures forall i :: 0 <= i < |e.kids| && e.kids[i].name.Sum? ==>
      PushDown(e).kids[i].name.Sum? && PushDown(e).kids[i].mult == 1.0
      && PushDown(e).kids[i] == PushDown(Scaled(e.kids[i], e.mult))
  {
    PushAllForm(e.kids, e.mult);
  }

  lemma {:induction false} PushAllForm(kids: seq<Ex>, m: real)
    ensures forall i :: 0 <= i < |kids| ==> PushAll(kids, m)[i] == PushDown(Scaled(kids[i], m))
  {
    hide PushDown;
    if kids != [] {
      PushAllForm(kids[1..], m);
      var r := PushAll(kids, m);
      forall i | 0 <= i < |kids| ensures r[i] == PushDown(Scaled(kids[i], m)) {
        if i > 0 { assert r[i] == PushAll(kids[1..], m)[i - 1] && kids[i] == kids[1..][i - 1]; }
      }
    }
  }

  // Nested sums are opened one level: each term stands for its own terms, scaled, or
  // for itself.
  lemma {:induction false} FlatTermsSplit(a: seq<Ex>, k: Ex, b: seq<Ex>)
    ensures FlatTerms(a + [k] + b)
         == FlatTerms(a) + (if k.name.Sum? then ScaleAll(k.kids, k.mult) else [k]) + FlatTerms(b)
  {
    hide FlatTerms, ScaleAll;
    if a == [] {
      assert a + [k] + b == [k] + b;
      FlatTermsHead(k, b);
      FlatTermsNone();
    } else {
      assert a == [a[0]] + a[1..] && a + [k] + b == [a[0]] + (a[1..] + [k] + b);
      FlatTermsHead(a[0], a[1..] + [k] + b);
      FlatTermsHead(a[0], a[1..]);
      FlatTermsSplit(a[1..], k, b);
    }
  }

  lemma FlatTermsNone()
    ensures FlatTerms([]) == []
  {
  }

  lemma FlatTermsHead(k: Ex, b: seq<Ex>)
    ensures FlatTerms([k] + b) == (if k.name.Sum? then ScaleAll(k.kids, k.mult) else [k]) + FlatTerms(b)
  {
    assert ([k] + b)[1..] == b;
  }

  lemma {:induction false} NonZeroIs(kids: seq<Ex>) returns (f: seq<nat>)
    ensures NonZeroAt(kids, f) && Selects(kids, f, NonZero(kids))
  {
    hide NonZeroAt, Selects, Later;
    if kids == [] {
      f := [];
      NothingNonZero(kids, f);
      NothingSelected<Ex>(kids, f, []);
    } else {
      var g := NonZeroIs(kids[1..]);
      f := (if kids[0].mult == 0.0 then [] else [0]) + Later(g);
      LaterNonZero(kids, g, f);
      NonZeroStep(kids, g);
    }
  }

  lemma NonZeroStep(kids: seq<Ex>, g: seq<nat>)
    requires kids != [] && Selects(kids[1..], g, NonZero(kids[1..]))
    ensures Selects(kids, (if kids[0].mult == 0.0 then [] else [0]) + Later(g), NonZero(kids))
  {
    hide Selects, Later;
    var keep := kids[0].mult != 0.0;
    SelectsMore(kids, g, NonZero(kids[1..]), keep);
    assert NonZero(kids) == (if keep then [kids[0]] else []) + NonZero(kids[1..]);
    assert (if kids[0].mult == 0.0 then [] else [0]) + Later(g) == (if keep then [0] else []) + Later(g);
  }

  // cleanup_sumlike: no nonzero term makes the node zero, a lone one takes its place;
  // when zeros went or sums were opened the multiplier stays, and otherwise it is
  // pushed down.
  lemma SumForm(e: Ex) returns (f: seq<nat>, kids: seq<Ex>)
    requires e.name.Sum?
    ensures NonZeroAt(e.kids, f) && Selects(e.kids, f, kids)
    ensures var r := SumLike(e).0;
      if |f| == 0 then r == Node(Sum, 0.0, [])
      else if |f| == 1 then r == Scaled(kids[0], e.mult)
      else if |f| < |e.kids| || HasNamed(kids, Sum) then r == Node(Sum, e.mult, FlatTerms(kids))
      else r == PushDown(e)
  {
    hide NonZeroAt, PushDown, NonZero, FlatTerms;
    f := NonZeroIs(e.kids);
    kids := NonZero(e.kids);
    NonZeroSize(e.kids);
    FlatTermsSize(kids);
  }
}
