// The form of what pre_clean_dispatch leaves: which nodes, with which children.

module PreCleanForms {
  import opened Expressions
  import opened CleanupRules
  import opened PreCleanRules
  import opened PreCleanWalk

  // ------------------------------------------------------------------- Fractions

  ghost predicate Ascending(f: seq<nat>) {
    forall i, j :: 0 <= i < j < |f| ==> f[i] < f[j]
  }

  // r are the entries of s at the positions f.
  ghost predicate Selects<A>(s: seq<A>, f: seq<nat>, r: seq<A>) {
    |f| == |r| && forall m :: 0 <= m < |r| ==> f[m] < |s| && r[m] == s[f[m]]
  }

  lemma SelectsMore<A>(s: seq<A>, g: seq<nat>, t: seq<A>, keep: bool)
    requires s != [] && Selects(s[1..], g, t)
    ensures Selects(s, (if keep then [0] else []) + Later(g), (if keep then [s[0]] else []) + t)
  {
    var f, r := (if keep then [0] else []) + Later(g), (if keep then [s[0]] else []) + t;
    var n := if keep then 1 else 0;
    forall m | 0 <= m < |r| ensures f[m] < |s| && r[m] == s[f[m]] {
      if m >= n { assert f[m] == Later(g)[m - n] && r[m] == t[m - n]; }
    }
  }

  // The terms negated.
  function Negatives(kids: seq<Ex>): (r: seq<Ex>)
    ensures |r| == |kids| && forall i :: 0 <= i < |r| ==> r[i] == kids[i].(mult := -kids[i].mult)
  {
    seq(|kids|, i requires 0 <= i < |kids| => kids[i].(mult := -kids[i].mult))
  }

  lemma TailOfUnits(kids: seq<Ex>)
    requires kids != []
    ensures |Units(kids)| > 0 && Units(kids)[1..] == Units(kids[1..]) && Units(kids)[0] == kids[0].(mult := 1.0)
  {
  }

  lemma TailOfNegatives(kids: seq<Ex>)
    requires kids != []
    ensures |Negatives(kids)| > 0 && Negatives(kids)[1..] == Negatives(kids[1..])
    ensures Negatives(kids)[0] == kids[0].(mult := -kids[0].mult)
  {
  }

  // r are the denominators that are not numbers, in order, with multiplier one.
  ghost predicate WithoutNumbers(below: seq<Ex>, f: seq<nat>, r: seq<Ex>) {
    && Ascending(f) && |f| == |r|
    && (forall i :: 0 <= i < |below| ==> (i in f <==> !below[i].name.One?))
    && Selects(Units(below), f, r)
  }

  lemma {:induction false} StrippedIs(below: seq<Ex>) returns (f: seq<nat>)
    ensures WithoutNumbers(below, f, Stripped(below))
  {
    if below == [] {
      f := [];
    } else {
      var g := StrippedIs(below[1..]);
      var first := if below[0].name.One? then [] else [0];
      f := first + Later(g);
      StrippedMembers(below, g, f);
      TailOfUnits(below);
      SelectsMore(Units(below), g, Stripped(below[1..]), !below[0].name.One?);
      LaterAscends(g);
    }
  }

  function Later(g: seq<nat>): (later: seq<nat>)
    ensures |later| == |g| && forall m :: 0 <= m < |g| ==> later[m] == g[m] + 1
  {
    seq(|g|, m requires 0 <= m < |g| => g[m] + 1)
  }

  lemma LaterAscends(g: seq<nat>)
    requires Ascending(g)
    ensures Ascending(Later(g)) && Ascending([0] + Later(g))
  {
    var f := [0] + Later(g);
    forall i, j | 0 <= i < j < |f| ensures f[i] < f[j] {
      if i > 0 { assert g[i - 1] < g[j - 1]; }
    }
  }

  lemma StrippedMembers(below: seq<Ex>, g: seq<nat>, f: seq<nat>)
    requires below != [] && f == (if below[0].name.One? then [] else [0]) + Later(g)
    requires forall i :: 0 <= i < |below| - 1 ==> (i in g <==> !below[1..][i].name.One?)
    ensures forall i :: 0 <= i < |below| ==> (i in f <==> !below[i].name.One?)
  {
    forall i | 0 <= i < |below| ensures i in f <==> !below[i].name.One? {
      if i > 0 {
        ShiftedMember(g, Later(g), i);
        assert below[1..][i - 1] == below[i];
      }
    }
  }

  lemma ShiftedMember(g: seq<nat>, later: seq<nat>, i: nat)
    requires i > 0 && later == Later(g)
    ensures i in later <==> i - 1 in g
    ensures i in [0] + later <==> i in later
  {
    if i - 1 in g {
      var m :| 0 <= m < |g| && g[m] == i - 1;
      assert later[m] == i;
    }
  }

  function MultiplierProduct(kids: seq<Ex>): real {
    if kids == [] then 1.0 else Times(kids[0].mult, MultiplierProduct(kids[1..]))
  }

  lemma {:induction false} DividedTimes(acc: real, kids: seq<Ex>)
    requires NoZeros(kids)
    ensures Times(Divided(acc, kids), MultiplierProduct(kids)) == acc
    decreases kids
  {
    hide Times;
    TimesLaws(acc, 1.0, 1.0);
    if kids != [] {
      assert NoZeros(kids[1..]);
      var m := kids[0].mult;
      DividedTimes(acc / m, kids[1..]);
      TimesLaws(Divided(acc, kids), m, MultiplierProduct(kids[1..]));
      assert Times(m, acc / m) == acc by { Quotient(m, acc); }
    }
  }

  lemma TimesLaws(x: real, y: real, z: real)
    ensures Times(x, 1.0) == x && Times(x, Times(y, z)) == Times(y, Times(x, z)) && Times(x, y) == Times(y, x)
  {
    assert x * (y * z) == y * (x * z);
  }

  lemma Quotient(m: real, x: real)
    requires m != 0.0
    ensures Times(m, x / m) == x
  {
  }

  // A fraction without zero denominators: a number when all is numbers, the numerator
  // when only numbers stand below it, and otherwise a fraction over the rest.
  lemma FracForm(e: Ex) returns (f: seq<nat>)
    requires e.name.Frac? && e.kids != [] && NoZeros(WithNumerator(e.kids)[1..])
    ensures var kids, r := WithNumerator(e.kids), FracRule(e);
      var top, below := kids[0], kids[1..];
      && (top.name.One? && AllNumbers(below) ==> r.name.One? && r.kids == [])
      && (!top.name.One? && AllNumbers(below) ==> r.name == top.name && r.kids == top.kids)
      && (!AllNumbers(below) ==>
        r.name.Frac? && |r.kids| > 1 && r.kids[0] == top.(mult := 1.0) && WithoutNumbers(below, f, r.kids[1..]))
    ensures Times(FracRule(e).mult, MultiplierProduct(WithNumerator(e.kids)[1..]))
         == Times(e.mult, WithNumerator(e.kids)[0].mult)
  {
    hide Times, WithoutNumbers;
    var kids := WithNumerator(e.kids);
    var below := kids[1..];
    f := StrippedIs(below);
    OnlyNumbers(kids);
    FracMultiplier(e);
  }

  lemma OnlyNumbers(kids: seq<Ex>)
    requires kids != []
    ensures AllNumbers(kids) <==> kids[0].name.One? && AllNumbers(kids[1..])
    ensures AllNumbers(kids[1..]) <==> Stripped(kids[1..]) == []
  {
    if kids[0].name.One? && AllNumbers(kids[1..]) {
      forall i | 0 <= i < |kids| ensures kids[i].name.One? { if i > 0 { assert kids[i] == kids[1..][i - 1]; } }
    }
    if AllNumbers(kids[1..]) {
      NumbersStripped(kids[1..]);
    } else {
      var f := StrippedIs(kids[1..]);
      var i :| 0 <= i < |kids[1..]| && !kids[1..][i].name.One?;
      assert i in f;
    }
  }

  lemma FracMultiplier(e: Ex)
    requires e.name.Frac? && e.kids != [] && NoZeros(WithNumerator(e.kids)[1..])
    ensures Times(FracRule(e).mult, MultiplierProduct(WithNumerator(e.kids)[1..]))
         == Times(e.mult, WithNumerator(e.kids)[0].mult)
  {
    hide FracRule, Times;
    var kids := WithNumerator(e.kids);
    var d, m := Divided(kids[0].mult, kids[1..]), MultiplierProduct(kids[1..]);
    DividedTimes(kids[0].mult, kids[1..]);
    FracRuleMultiplier(e);
    ProductIs(FracRule(e).mult, e.mult, d, m);
  }

  lemma ProductIs(xy: real, x: real, y: real, z: real)
    requires xy == x * y
    ensures Times(xy, z) == Times(x, Times(y, z))
  {
    assert (x * y) * z == x * (y * z);
  }

  // ----------------------------------------------------------------- Differences

  // Position of the terms that are not zero.
  ghost predicate NonZeroAt(kids: seq<Ex>, f: seq<nat>) {
    Ascending(f) && forall i :: (i in f <==> 0 <= i < |kids| && kids[i].mult != 0.0)
  }

  // The terms of a difference as terms of a sum.
  function AsTerms(kids: seq<Ex>): (r: seq<Ex>)
    ensures |r| == |kids|
    ensures forall i :: 0 <= i < |r| ==> r[i] == if i == 0 then kids[0] else kids[i].(mult := -kids[i].mult)
  {
    if kids == [] then [] else [kids[0]] + Negatives(kids[1..])
  }

  lemma {:induction false} FlippedIs(kids: seq<Ex>) returns (f: seq<nat>)
    ensures NonZeroAt(kids, f) && Selects(Negatives(kids), f, Flipped(kids))
  {
    hide NonZeroAt, Negatives, Later, Selects;
    if kids == [] {
      f := [];
      NothingNonZero(kids, f);
      NothingSelected<Ex>([], f, []);
      assert Negatives(kids) == [];
    } else {
      var g := FlippedIs(kids[1..]);
      f := (if kids[0].mult == 0.0 then [] else [0]) + Later(g);
      LaterNonZero(kids, g, f);
      FlippedStep(kids, g);
    }
  }

  lemma FlippedStep(kids: seq<Ex>, g: seq<nat>)
    requires kids != [] && Selects(Negatives(kids[1..]), g, Flipped(kids[1..]))
    ensures Selects(Negatives(kids), (if kids[0].mult == 0.0 then [] else [0]) + Later(g), Flipped(kids))
  {
    hide Negatives, Selects, Later;
    var keep := kids[0].mult != 0.0;
    TailOfNegatives(kids);
    SelectsMore(Negatives(kids), g, Flipped(kids[1..]), keep);
    assert Flipped(kids) == (if keep then [Negatives(kids)[0]] else []) + Flipped(kids[1..]);
    assert (if kids[0].mult == 0.0 then [] else [0]) + Later(g) == (if keep then [0] else []) + Later(g);
  }

  lemma NothingSelected<A>(s: seq<A>, f: seq<nat>, r: seq<A>)
    requires f == [] && r == []
    ensures Selects(s, f, r)
  {
  }

  lemma NothingNonZero(kids: seq<Ex>, f: seq<nat>)
    requires kids == [] && f == []
    ensures NonZeroAt(kids, f)
  {
  }

  lemma LaterNonZero(kids: seq<Ex>, g: seq<nat>, f: seq<nat>)
    requires kids != [] && NonZeroAt(kids[1..], g)
    requires f == (if kids[0].mult == 0.0 then [] else [0]) + Later(g)
    ensures NonZeroAt(kids, f)
  {
    LaterAscends(g);
    assert [] + Later(g) == Later(g);
    forall i ensures i in f <==> 0 <= i < |kids| && kids[i].mult != 0.0 {
      if i > 0 {
        ShiftedMember(g, Later(g), i);
        assert i < |kids| ==> kids[i] == kids[1..][i - 1];
      }
    }
  }

  // A difference becomes the sum of its nonzero terms, all but the first negated; a
  // single one takes its place.
  lemma SubForm(e: Ex) returns (f: seq<nat>)
    requires e.name.Sub? && |e.kids| > 1 && !AllZero(e.kids)
    ensures NonZeroAt(e.kids, f) && f != [] && f[0] < |e.kids|
    ensures var r := SubRule(e);
      if |f| == 1 then r == Scaled(AsTerms(e.kids)[f[0]], e.mult)
      else r.name.Sum? && r.mult == e.mult && Selects(AsTerms(e.kids), f, r.kids)
  {
    hide SubTerms, AsTerms, NonZeroAt;
    f := SubTermsAre(e.kids);
    NotAllZero(e.kids, f);
  }

  lemma NotAllZero(kids: seq<Ex>, f: seq<nat>)
    requires NonZeroAt(kids, f) && !AllZero(kids)
    ensures f != []
  {
    var i :| 0 <= i < |kids| && kids[i].mult != 0.0;
    assert i in f;
  }

  lemma SubTermsAre(kids: seq<Ex>) returns (f: seq<nat>)
    requires kids != []
    ensures NonZeroAt(kids, f) && Selects(AsTerms(kids), f, SubTerms(kids))
  {
    hide Flipped, NonZeroAt;
    var g := FlippedIs(kids[1..]);
    f := (if kids[0].mult == 0.0 then [] else [0]) + Later(g);
    LaterNonZero(kids, g, f);
    assert AsTerms(kids)[1..] == Negatives(kids[1..]);
    SelectsMore(AsTerms(kids), g, Flipped(kids[1..]), kids[0].mult != 0.0);
  }

  // -------------------------------------------------------------- The whole tree

  // No rational names and no differences anywhere; every fraction has a denominator,
  // and one without zero denominators has unit multipliers and no numbers below.
  predicate PreCleaned(e: Ex) {
    && (forall i :: 0 <= i < |e.kids| ==> PreCleaned(e.kids[i]))
    && !e.name.Number? && !e.name.Sub?
    && (e.name.Frac? ==> |e.kids| > 1 && (NoZeros(e.kids[1..]) ==> Reduced(e.kids)))
  }

  predicate Reduced(kids: seq<Ex>)
    requires kids != []
  {
    && kids[0].mult == 1.0
    && forall i :: 0 < i < |kids| ==> !kids[i].name.One? && kids[i].mult == 1.0
  }

  predicate AllPreCleaned(es: seq<Ex>) {
    forall i :: 0 <= i < |es| ==> PreCleaned(es[i])
  }

  // The multiplier of a node does not matter.
  lemma PreCleanedWith(e: Ex, m: real)
    ensures PreCleaned(e.(mult := m)) <==> PreCleaned(e)
  {
    var n := e.(mult := m);
    assert n.kids == e.kids && n.name == e.name;
  }

  lemma RulePreCleans(e: Ex)
    requires Admissible(e) && AllPreCleaned(e.kids)
    ensures PreCleaned(PreRule(e))
  {
    hide FracRule, SubRule, PreCleaned;
    match e.name
    case Number(q) => NodePreCleaned(PreRule(e));
    case Frac => FracPreCleans(e);
    case Sub => SubPreCleans(e);
    case _ => NodePreCleaned(e);
  }

  lemma NodePreCleaned(e: Ex)
    requires AllPreCleaned(e.kids) && !e.name.Number? && !e.name.Sub? && !e.name.Frac?
    ensures PreCleaned(e)
  {
  }

  lemma FracNodePreCleaned(e: Ex)
    requires AllPreCleaned(e.kids) && e.name.Frac? && |e.kids| > 1 && (NoZeros(e.kids[1..]) ==> Reduced(e.kids))
    ensures PreCleaned(e)
  {
  }

  lemma FracPreCleans(e: Ex)
    requires e.name.Frac? && e.kids != [] && AllPreCleaned(e.kids)
    ensures PreCleaned(FracRule(e))
  {
    hide PreCleaned, FracRule;
    var kids, r := WithNumerator(e.kids), FracRule(e);
    NumeratorPreCleaned(e.kids);
    if NoZeros(kids[1..]) {
      var f := FracForm(e);
      if AllNumbers(kids[1..]) {
        if kids[0].name.One? {
          NodePreCleaned(r);
        } else {
          assert r == kids[0].(mult := r.mult);
          PreCleanedWith(kids[0], r.mult);
        }
      } else {
        RestPreCleaned(kids, f, r.kids);
        FracNodePreCleaned(r);
      }
    } else {
      StoppedPreCleaned(e);
    }
  }

  lemma NumeratorPreCleaned(kids: seq<Ex>)
    requires AllPreCleaned(kids) && kids != []
    ensures AllPreCleaned(WithNumerator(kids)) && |WithNumerator(kids)| > 1
  {
    hide PreCleaned;
    NodePreCleaned(Node(One, 1.0, []));
  }

  lemma RestPreCleaned(kids: seq<Ex>, f: seq<nat>, r: seq<Ex>)
    requires AllPreCleaned(kids) && |kids| > 1 && r != [] && r[0] == kids[0].(mult := 1.0)
    requires WithoutNumbers(kids[1..], f, r[1..])
    ensures AllPreCleaned(r) && Reduced(r)
  {
    hide PreCleaned;
    forall i | 0 <= i < |r| ensures PreCleaned(r[i]) && r[i].mult == 1.0 && (i > 0 ==> !r[i].name.One?) {
      if i == 0 {
        PreCleanedWith(kids[0], 1.0);
      } else {
        assert r[i] == r[1..][i - 1];
        var k := f[i - 1];
        assert k in f && kids[1..][k] == kids[k + 1];
        PreCleanedWith(kids[k + 1], 1.0);
      }
    }
  }

  // The early return at a zero denominator.
  lemma StoppedPreCleaned(e: Ex)
    requires e.name.Frac? && e.kids != [] && AllPreCleaned(e.kids) && !NoZeros(WithNumerator(e.kids)[1..])
    ensures PreCleaned(FracRule(e))
  {
    hide PreCleaned;
    var kids := WithNumerator(e.kids);
    NumeratorPreCleaned(e.kids);
    var z := FirstZero(kids);
    ZeroDenominatorStops(e, z);
    var r := FracRule(e);
    forall i | 0 <= i < |r.kids| ensures PreCleaned(r.kids[i]) { PreCleanedWith(kids[i], 1.0); }
    assert r.kids[1..][z - 1].mult == 0.0;
    FracNodePreCleaned(r);
  }

  lemma FirstZero(kids: seq<Ex>) returns (z: nat)
    requires |kids| > 1 && !NoZeros(kids[1..])
    ensures 0 < z < |kids| && kids[z].mult == 0.0 && forall i :: 0 < i < z ==> kids[i].mult != 0.0
  {
    var i :| 0 <= i < |kids[1..]| && kids[1..][i].mult == 0.0;
    z := 1;
    while kids[z].mult != 0.0
      invariant 0 < z <= i + 1 && forall j :: 0 < j < z ==> kids[j].mult != 0.0
      decreases i + 1 - z
    {
      assert kids[i + 1].mult == 0.0;
      z := z + 1;
    }
  }

  lemma SubPreCleans(e: Ex)
    requires e.name.Sub? && |e.kids| > 1 && !AllZero(e.kids) && AllPreCleaned(e.kids)
    ensures PreCleaned(SubRule(e))
  {
    hide PreCleaned, SubRule, AsTerms, Negatives, NonZeroAt;
    var f := SubForm(e);
    var r, terms := SubRule(e), AsTerms(e.kids);
    TermsPreCleaned(e.kids);
    if |f| == 1 {
      PreCleanedWith(terms[f[0]], r.mult);
    } else {
      NodePreCleaned(r);
    }
  }

  lemma TermsPreCleaned(kids: seq<Ex>)
    requires AllPreCleaned(kids)
    ensures AllPreCleaned(AsTerms(kids))
  {
    hide PreCleaned, AsTerms;
    var terms := AsTerms(kids);
    forall i | 0 <= i < |terms| ensures PreCleaned(terms[i]) {
      if i == 0 {
        assert terms[i] == kids[0];
      } else {
        var n := kids[i].(mult := -kids[i].mult);
        PreCleanedWith(kids[i], -kids[i].mult);
        assert terms[i] == n;
      }
    }
  }

  // pre_clean_dispatch_deep leaves a tree in that form.
  lemma {:induction false} DeepPreCleans(e: Ex)
    requires Posed(e)
    ensures PreCleaned(PreDeep(e))
    decreases e, 1
  {
    hide PreRule, Zero, PreCleaned;
    assert AllPosed(e.kids);
    AllDeepPreClean(e.kids);
    var n := e.(kids := PreAll(e.kids));
    PosedAdmissible(e, n);
    RulePreCleans(n);
  }

  lemma {:induction false} AllDeepPreClean(es: seq<Ex>)
    requires AllPosed(es)
    ensures AllPreCleaned(PreAll(es))
    decreases es, 0
  {
    hide Posed, PreDeep, Zero, PreCleaned;
    if es != [] {
      PosedTail(es);
      DeepPreCleans(es[0]);
      AllDeepPreClean(es[1..]);
    }
  }
}
