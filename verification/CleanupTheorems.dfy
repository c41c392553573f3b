// The clean-up keeps the value of every expression, reaches the normal form of
// check_consistency, and changes nothing when run again.

module CleanupTheorems {
  import opened Expressions
  import opened CleanupRules

  // ---------------------------------------------------------------- Normal form

  ghost predicate CleanTop(e: Ex) {
    && (e.mult == 0.0 ==> e.name.One? && e.kids == [])
    && (e.name.Sum? ==> e.mult == 1.0 && |e.kids| >= 2 && CleanTerms(e.kids))
    && (e.name.Prod? ==> |e.kids| >= 2 && CleanFactors(e.kids))
  }

  // No zero and no nested sum.
  ghost predicate CleanTerms(kids: seq<Ex>) {
    forall i :: 0 <= i < |kids| ==> kids[i].mult != 0.0 && !kids[i].name.Sum?
  }

  // Unit multipliers, no numbers and no nested product.
  ghost predicate CleanFactors(kids: seq<Ex>) {
    forall i :: 0 <= i < |kids| ==> kids[i].mult == 1.0 && !kids[i].name.Prod? && !kids[i].name.One?
  }

  ghost predicate Clean(e: Ex)
    decreases e
  {
    CleanTop(e) && forall i :: 0 <= i < |e.kids| ==> Clean(e.kids[i])
  }

  ghost predicate AllClean(kids: seq<Ex>) {
    forall i :: 0 <= i < |kids| ==> Clean(kids[i])
  }

  // A clean term or factor keeps clean under a new multiplier.
  lemma CleanWith(e: Ex, m: real)
    requires Clean(e) && m != 0.0 && !e.name.Sum?
    ensures Clean(e.(mult := m))
  {
  }

  lemma CleanScaled(e: Ex, m: real)
    requires Clean(e) && m != 0.0 && e.mult != 0.0 && !e.name.Sum?
    ensures Clean(Scaled(e, m)) && Scaled(e, m).mult != 0.0
  {
    hide Clean;
    NonZeroTimes(e.mult, m);
    var s := Scaled(e, m);
    CleanWith(e, s.mult);
    assert e.(mult := s.mult) == s;
  }

  lemma NonZeroTimes(x: real, y: real)
    requires x != 0.0 && y != 0.0
    ensures x * y != 0.0
  {
  }

  // ------------------------------------------------------- Products, structure

  lemma {:induction false} FlatFactorsClean(kids: seq<Ex>)
    requires AllClean(kids)
    ensures AllClean(FlatFactors(kids)) && !HasNamed(FlatFactors(kids), Prod)
    decreases Nodes(kids)
  {
    hide CleanTop;
    if kids != [] {
      var rest := kids[1..];
      assert AllClean(rest);
      assert Clean(kids[0]);
      if kids[0].name.Prod? {
        OpenedSize(kids);
        FlatFactorsClean(kids[0].kids + rest);
      } else {
        FlatFactorsClean(rest);
        HasNamedTail(FlatFactors(kids), Prod);
      }
    }
  }

  lemma {:induction false} FlatFactorsAppend(a: seq<Ex>, b: seq<Ex>)
    requires !HasNamed(a, Prod)
    ensures FlatFactors(a + b) == a + FlatFactors(b)
  {
    if a == [] {
      assert a + b == b;
    } else {
      HasNamedTail(a, Prod);
      assert (a + b)[1..] == a[1..] + b;
      FlatFactorsAppend(a[1..], b);
    }
  }

  lemma CleanFactorsNone(kids: seq<Ex>)
    requires CleanFactors(kids)
    ensures !HasNamed(kids, Prod) && !HasNamed(kids, One) && AllUnit(kids) && !GatherChanges(kids)
  {
  }

  // Flattening clean nested products leaves at least two factors.
  lemma {:induction false} FlatFactorsMany(kids: seq<Ex>)
    requires AllClean(kids) && HasNamed(kids, Prod)
    ensures |FlatFactors(kids)| >= 2
  {
    assert AllClean(kids[1..]);
    if kids[0].name.Prod? {
      assert Clean(kids[0]);
      CleanFactorsNone(kids[0].kids);
      FlatFactorsAppend(kids[0].kids, kids[1..]);
    } else {
      HasNamedTail(kids, Prod);
      FlatFactorsMany(kids[1..]);
    }
  }

  lemma {:induction false} StrippedClean(kids: seq<Ex>)
    requires AllClean(kids)
    ensures AllClean(Stripped(kids))
    ensures forall i :: 0 <= i < |Stripped(kids)| ==> Stripped(kids)[i].mult == 1.0
    ensures !HasNamed(kids, Prod) ==> !HasNamed(Stripped(kids), Prod)
  {
    hide CleanTop;
    if kids != [] {
      assert AllClean(kids[1..]);
      StrippedClean(kids[1..]);
      HasNamedTail(kids, Prod);
      if !kids[0].name.One? {
        assert Clean(kids[0]);
        UnitClean(kids[0]);
        HasNamedTail(Stripped(kids), Prod);
      }
    }
  }

  lemma UnitClean(e: Ex)
    requires Clean(e)
    ensures Clean(e.(mult := 1.0))
  {
    if e.name.Sum? { assert e.(mult := 1.0) == e; } else { CleanWith(e, 1.0); }
  }

  // ------------------------------------------------------------- Sums, structure

  // Terms that are zero or clean: what cleanup_sumlike may meet.
  ghost predicate ZeroOrClean(kids: seq<Ex>) {
    forall i :: 0 <= i < |kids| ==> kids[i].mult == 0.0 || Clean(kids[i])
  }

  lemma NonZeroClean(kids: seq<Ex>)
    requires ZeroOrClean(kids)
    ensures AllClean(NonZero(kids))
  {
    NonZeroSize(kids);
  }

  // A clean sum has multiplier one, so opening it leaves its terms as they are.
  lemma {:induction false} FlatTermsClean(kids: seq<Ex>)
    requires AllClean(kids) && forall i :: 0 <= i < |kids| ==> kids[i].mult != 0.0
    ensures AllClean(FlatTerms(kids)) && CleanTerms(FlatTerms(kids)) && |FlatTerms(kids)| >= |kids|
  {
    if kids != [] {
      assert AllClean(kids[1..]);
      FlatTermsClean(kids[1..]);
      assert Clean(kids[0]);
      if kids[0].name.Sum? {
        var s := ScaleAll(kids[0].kids, 1.0);
        forall i | 0 <= i < |s| ensures s[i] == kids[0].kids[i] {}
        assert s == kids[0].kids;
      }
    }
  }

  lemma {:induction false} PushAllTerms(kids: seq<Ex>, m: real)
    requires CleanTerms(kids)
    ensures PushAll(kids, m) == ScaleAll(kids, m)
  {
    if kids != [] {
      PushAllTerms(kids[1..], m);
      assert ScaleAll(kids, m)[1..] == ScaleAll(kids[1..], m);
    }
  }

  lemma PushDownClean(e: Ex)
    requires e.name.Sum? && AllClean(e.kids) && CleanTerms(e.kids)
    ensures ZeroOrClean(PushDown(e).kids) && PushDown(e).name.Sum? && PushDown(e).mult == 1.0
    ensures e.mult != 0.0 ==> AllClean(PushDown(e).kids)
  {
    PushAllTerms(e.kids, e.mult);
    var s := ScaleAll(e.kids, e.mult);
    forall i | 0 <= i < |s| ensures if e.mult == 0.0 then s[i].mult == 0.0 else Clean(s[i]) {
      if e.mult != 0.0 { CleanScaled(e.kids[i], e.mult); }
    }
  }

  // ------------------------------------------------------- One turn, structure

  lemma SumLikeClean(e: Ex)
    requires e.name.Sum? && e.mult != 0.0 && ZeroOrClean(e.kids)
    ensures AllClean(SumLike(e).0.kids)
    ensures SumLike(e).0.name.Prod? ==> !GatherChanges(SumLike(e).0.kids)
    ensures !SumLike(e).1 ==> CleanTop(e)
  {
    hide Clean, PushDown, FlatTerms, NonZero;
    var kids := NonZero(e.kids);
    NonZeroClean(e.kids);
    NonZeroSize(e.kids);
    if |kids| == 1 {
      CleanKids(kids[0]);
    } else if |kids| > 1 {
      FlatTermsClean(kids);
      FlatTermsSize(kids);
      PushDownClean(e.(kids := FlatTerms(kids)));
      UnitPushDown(e);
    }
  }

  lemma CleanKids(e: Ex)
    requires Clean(e)
    ensures AllClean(e.kids) && (e.name.Prod? ==> !GatherChanges(e.kids))
  {
    if e.name.Prod? { CleanFactorsNone(e.kids); }
  }

  lemma RestClean(e1: Ex)
    requires e1.name.Sum? ==> e1.mult != 0.0 && ZeroOrClean(e1.kids)
    requires !e1.name.Sum? ==> AllClean(e1.kids) && (e1.name.Prod? ==> !HasNamed(e1.kids, Prod))
    ensures AllClean(Rest(e1).0.kids)
  {
    hide Clean, SumLike, GatherChanges;
    if e1.name.Sum? {
      SumLikeClean(e1);
      NumericalFlatSize(SumLike(e1).0);
    } else if e1.name.Prod? {
      StrippedClean(e1.kids);
    }
  }

  // A collapsed clean product.
  lemma CollapsedClean(c: Ex, m: real)
    requires Clean(c) && c.mult == 1.0
    ensures var e1 := PushDown(c.(mult := m));
            && (e1.name.Sum? ==> e1.mult == 1.0 && ZeroOrClean(e1.kids))
            && (!e1.name.Sum? ==> AllClean(e1.kids)) && e1.name == c.name
            && (e1.name.Prod? ==> !GatherChanges(e1.kids))
  {
    CleanKids(c);
    if c.name.Sum? { PushDownClean(c.(mult := m)); }
  }

  lemma FlattenedClean(e: Ex)
    requires e.name.Prod? && AllClean(e.kids)
    ensures var (n, changed) := FlattenOrGather(e);
            && n.name.Prod? && AllClean(n.kids) && !HasNamed(n.kids, Prod)
            && (|n.kids| == 1 ==> n.kids[0].mult == 1.0)
  {
    hide FlatFactors, FlatFactor, Gathered, Stripped, Clean;
    if HasNamed(e.kids, Prod) {
      FlatFactorsClean(e.kids);
      FlatFactorsMany(e.kids);
    } else {
      StrippedClean(e.kids);
    }
  }

  lemma ProductTurnClean(e: Ex)
    requires e.name.Prod? && AllClean(e.kids)
    ensures AllClean(Rest(ProductLike(e).0).0.kids)
  {
    hide FlattenOrGather, Rest, PushDown, Clean, HasNamed, GatherChanges;
    var (n, changed) := FlattenOrGather(e);
    FlattenedClean(e);
    var e1 := ProductLike(e).0;
    if |n.kids| == 1 {
      assert AllClean(n.kids) && Clean(n.kids[0]);
      CollapsedClean(n.kids[0], n.mult);
      HasNamedOnly(n.kids, Prod);
      RestClean(e1);
    } else {
      RestClean(e1);
    }
  }

  lemma HasNamedOnly(kids: seq<Ex>, name: Name)
    requires |kids| == 1
    ensures HasNamed(kids, name) <==> kids[0].name == name
  {
  }

  // Clean children stay clean, and a node that rests is clean.
  lemma TurnClean(e: Ex)
    requires AllClean(e.kids) && !IsVanishing(e)
    ensures AllClean(Turn(e).0.kids)
    ensures !Turn(e).1 ==> Clean(e)
  {
    hide Rest, ProductLike, SumLike, Turn, PushDown;
    TurnIsRest(e);
    if e.name.Prod? {
      ProductTurnClean(e);
      if !ProductLike(e).1 { ProductRests(e); }
    } else {
      RestClean(e);
      if e.name.Sum? {
        SumLikeClean(e);
        if SumLike(e).1 { RestChanges(e); }
      }
    }
  }

  lemma ProductRests(e: Ex)
    requires e.name.Prod? && !ProductLike(e).1
    ensures |e.kids| >= 2 && CleanFactors(e.kids)
  {
    StrippedSize(e.kids);
  }

  lemma RestChanges(e: Ex)
    requires e.name.Sum? && SumLike(e).1
    ensures Rest(e).1
  {
  }

  // ------------------------------------------------------------------- Values

  lemma ScaleTwice<V(!new)>(M: Model<V>, a: real, b: real, ab: real, x: V)
    requires IsAlgebra(M) && ab == a * b
    ensures M.scale(a, M.scale(b, x)) == M.scale(ab, x)
  {
    hide IsAlgebra;
    ScaleLaws(M, a, b, x);
  }

  lemma MulScaled<V(!new)>(M: Model<V>, a: real, x: V, b: real, y: V, ab: real)
    requires IsAlgebra(M) && ab == a * b
    ensures M.mul(M.scale(a, x), M.scale(b, y)) == M.scale(ab, M.mul(x, y))
  {
    hide IsAlgebra;
    LinearLaws(M, a, x, M.scale(b, y));
    LinearLaws(M, b, x, y);
    ScaleTwice(M, a, b, ab, M.mul(x, y));
  }

  lemma UnitScale<V(!new)>(M: Model<V>, x: V)
    requires IsAlgebra(M)
    ensures M.scale(1.0, x) == x
  {
    hide IsAlgebra;
    ScaleLaws(M, 1.0, 1.0, x);
  }

  lemma ConsValues<V>(M: Model<V>, e: Ex, es: seq<Ex>)
    ensures Values(M, [e] + es) == [Value(M, e)] + Values(M, es)
  {
    assert ([e] + es)[1..] == es;
  }

  lemma {:induction false} FlatFactorsValue<V(!new)>(M: Model<V>, kids: seq<Ex>)
    requires IsAlgebra(M)
    ensures ProdOf(M, Values(M, kids)) == M.scale(FlatFactor(kids), ProdOf(M, Values(M, FlatFactors(kids))))
    decreases Nodes(kids)
  {
    hide IsAlgebra, Value;
    if kids == [] {
      UnitScale(M, M.one);
    } else if kids[0].name.Prod? {
      OpenedSize(kids);
      FlatFactorsValue(M, kids[0].kids + kids[1..]);
      OpenedProduct(M, kids);
      ScaleTwice(M, kids[0].mult, FlatFactor(kids[0].kids + kids[1..]), FlatFactor(kids),
        ProdOf(M, Values(M, FlatFactors(kids))));
    } else {
      FlatFactorsValue(M, kids[1..]);
      ConsValues(M, kids[0], FlatFactors(kids[1..]));
      LinearLaws(M, FlatFactor(kids[1..]), Value(M, kids[0]), ProdOf(M, Values(M, FlatFactors(kids[1..]))));
    }
  }

  // A nested product, opened.
  lemma OpenedProduct<V(!new)>(M: Model<V>, kids: seq<Ex>)
    requires IsAlgebra(M) && kids != [] && kids[0].name.Prod?
    ensures ProdOf(M, Values(M, kids)) == M.scale(kids[0].mult, ProdOf(M, Values(M, kids[0].kids + kids[1..])))
  {
    hide IsAlgebra;
    var p, r := Values(M, kids[0].kids), Values(M, kids[1..]);
    ValuesAppend(M, kids[0].kids, kids[1..]);
    ProdAppend(M, p, r);
    LinearLaws(M, kids[0].mult, ProdOf(M, p), ProdOf(M, r));
  }

  lemma {:induction false} StrippedValue<V(!new)>(M: Model<V>, kids: seq<Ex>)
    requires IsAlgebra(M)
    ensures ProdOf(M, Values(M, kids)) == M.scale(Gathered(kids), ProdOf(M, Values(M, Stripped(kids))))
  {
    hide IsAlgebra, Value;
    if kids == [] {
      UnitScale(M, M.one);
    } else {
      StrippedValue(M, kids[1..]);
      var r := ProdOf(M, Values(M, Stripped(kids[1..])));
      OwnMultiplier(M, kids[0]);
      MulScaled(M, kids[0].mult, Core(M, kids[0]), Gathered(kids[1..]), r, Gathered(kids));
      if kids[0].name.One? {
        MulLaws(M, r, r, r);
      } else {
        ConsValues(M, kids[0].(mult := 1.0), Stripped(kids[1..]));
        ConsProduct(M, Value(M, kids[0].(mult := 1.0)), Values(M, Stripped(kids[1..])));
        ValueWith(M, kids[0], 1.0);
        UnitScale(M, Core(M, kids[0]));
      }
    }
  }

  lemma ConsProduct<V>(M: Model<V>, x: V, vs: seq<V>)
    ensures ProdOf(M, [x] + vs) == M.mul(x, ProdOf(M, vs))
  {
    assert ([x] + vs)[1..] == vs;
  }

  lemma OwnMultiplier<V>(M: Model<V>, e: Ex)
    ensures Value(M, e) == M.scale(e.mult, Core(M, e)) && (e.name.One? ==> Core(M, e) == M.one)
  {
  }

  lemma {:induction false} NonZeroValue<V(!new)>(M: Model<V>, kids: seq<Ex>)
    requires IsAlgebra(M)
    ensures SumOf(M, Values(M, kids)) == SumOf(M, Values(M, NonZero(kids)))
  {
    hide IsAlgebra, Value;
    if kids != [] {
      NonZeroValue(M, kids[1..]);
      if kids[0].mult == 0.0 {
        ZeroValue(M, kids[0]);
        AddLaws(M, SumOf(M, Values(M, kids[1..])), M.zero, M.zero);
      } else {
        ConsValues(M, kids[0], NonZero(kids[1..]));
      }
    }
  }

  lemma {:induction false} ScaleAllValue<V(!new)>(M: Model<V>, kids: seq<Ex>, m: real)
    requires IsAlgebra(M)
    ensures SumOf(M, Values(M, ScaleAll(kids, m))) == M.scale(m, SumOf(M, Values(M, kids)))
  {
    hide IsAlgebra, Value;
    if kids == [] {
      ScaleLaws(M, m, m, M.zero);
    } else {
      ScaleAllValue(M, kids[1..], m);
      assert ScaleAll(kids, m) == [Scaled(kids[0], m)] + ScaleAll(kids[1..], m);
      ConsValues(M, Scaled(kids[0], m), ScaleAll(kids[1..], m));
      ValueScaled(M, kids[0], m);
      LinearLaws(M, m, Value(M, kids[0]), SumOf(M, Values(M, kids[1..])));
    }
  }

  lemma {:induction false} FlatTermsValue<V(!new)>(M: Model<V>, kids: seq<Ex>)
    requires IsAlgebra(M)
    ensures SumOf(M, Values(M, kids)) == SumOf(M, Values(M, FlatTerms(kids)))
  {
    hide IsAlgebra, Value;
    if kids != [] {
      FlatTermsValue(M, kids[1..]);
      if kids[0].name.Sum? {
        var s := ScaleAll(kids[0].kids, kids[0].mult);
        ScaleAllValue(M, kids[0].kids, kids[0].mult);
        ValuesAppend(M, s, FlatTerms(kids[1..]));
        SumAppend(M, Values(M, s), Values(M, FlatTerms(kids[1..])));
        SumCore(M, kids[0]);
      } else {
        ConsValues(M, kids[0], FlatTerms(kids[1..]));
      }
    }
  }

  lemma SumCore<V>(M: Model<V>, e: Ex)
    ensures e.name.Sum? ==> Value(M, e) == M.scale(e.mult, SumOf(M, Values(M, e.kids)))
    ensures e.name.Prod? ==> Value(M, e) == M.scale(e.mult, ProdOf(M, Values(M, e.kids)))
  {
  }

  lemma {:induction false} PushDownValue<V(!new)>(M: Model<V>, e: Ex)
    requires IsAlgebra(M)
    ensures Value(M, PushDown(e)) == Value(M, e)
    decreases Size(e), 1
  {
    hide IsAlgebra, Value;
    if e.mult != 1.0 && e.name.Sum? {
      PushAllValue(M, e.kids, e.mult);
      SumCore(M, e);
      SumCore(M, PushDown(e));
      UnitScale(M, SumOf(M, Values(M, PushDown(e).kids)));
    }
  }

  lemma {:induction false} PushAllValue<V(!new)>(M: Model<V>, kids: seq<Ex>, m: real)
    requires IsAlgebra(M)
    ensures SumOf(M, Values(M, PushAll(kids, m))) == M.scale(m, SumOf(M, Values(M, kids)))
    decreases Nodes(kids), 2
  {
    hide IsAlgebra, Value;
    if kids == [] {
      ScaleLaws(M, m, m, M.zero);
    } else {
      ScaledSize(kids, m);
      PushDownValue(M, Scaled(kids[0], m));
      PushAllValue(M, kids[1..], m);
      ConsValues(M, PushDown(Scaled(kids[0], m)), PushAll(kids[1..], m));
      ValueScaled(M, kids[0], m);
      LinearLaws(M, m, Value(M, kids[0]), SumOf(M, Values(M, kids[1..])));
    }
  }

  // --------------------------------------------------------- Values of one turn

  lemma ProductValue<V(!new)>(M: Model<V>, e: Ex, f: real, kids: seq<Ex>, n: Ex)
    requires IsAlgebra(M) && e.name.Prod? && n.name.Prod? && n.mult == e.mult * f && n.kids == kids
    requires ProdOf(M, Values(M, e.kids)) == M.scale(f, ProdOf(M, Values(M, kids)))
    ensures Value(M, n) == Value(M, e)
  {
    hide IsAlgebra, Value;
    SumCore(M, e);
    SumCore(M, n);
    ScaleTwice(M, e.mult, f, n.mult, ProdOf(M, Values(M, kids)));
  }

  lemma NumericalFlatValue<V(!new)>(M: Model<V>, e: Ex)
    requires IsAlgebra(M) && e.name.Prod?
    ensures Value(M, NumericalFlat(e).0) == Value(M, e)
  {
    hide IsAlgebra, Value, Gathered, Stripped;
    StrippedValue(M, e.kids);
    ProductValue(M, e, Gathered(e.kids), Stripped(e.kids), NumericalFlat(e).0);
  }

  lemma FlattenOrGatherValue<V(!new)>(M: Model<V>, e: Ex)
    requires IsAlgebra(M) && e.name.Prod?
    ensures Value(M, FlattenOrGather(e).0) == Value(M, e)
  {
    hide IsAlgebra, Value, FlatFactor, FlatFactors, NumericalFlat;
    if HasNamed(e.kids, Prod) {
      FlatFactorsValue(M, e.kids);
      ProductValue(M, e, FlatFactor(e.kids), FlatFactors(e.kids), FlattenOrGather(e).0);
    } else {
      NumericalFlatValue(M, e);
    }
  }

  // Collapsing keeps the value because the lone factor has multiplier one.
  lemma CollapseValue<V(!new)>(M: Model<V>, n: Ex, changed: bool)
    requires IsAlgebra(M) && n.name.Prod? && (|n.kids| == 1 ==> n.kids[0].mult == 1.0)
    ensures Value(M, Collapse(n, changed).0) == Value(M, n)
  {
    hide IsAlgebra, Value, PushDown;
    SumCore(M, n);
    if |n.kids| == 1 {
      var c := n.kids[0];
      PushDownValue(M, c.(mult := n.mult));
      assert n.kids == [c] + [];
      ConsValues(M, c, []);
      ProdOne(M, Value(M, c));
      OwnMultiplier(M, c);
      UnitScale(M, Core(M, c));
      ValueWith(M, c, n.mult);
    } else if |n.kids| == 0 {
      OwnMultiplier(M, n.(name := One));
    }
  }

  lemma SumLikeValue<V(!new)>(M: Model<V>, e: Ex)
    requires IsAlgebra(M) && e.name.Sum?
    ensures Value(M, SumLike(e).0) == Value(M, e)
  {
    hide IsAlgebra, Value, PushDown, FlatTerms, NonZero;
    var kids := NonZero(e.kids);
    NonZeroValue(M, e.kids);
    SumCore(M, e);
    if |kids| == 0 {
      assert kids == [];
      ZeroValue(M, Node(e.name, 0.0, []));
      ScaleLaws(M, e.mult, e.mult, M.zero);
    } else if |kids| == 1 {
      assert kids == [kids[0]] + [];
      ConsValues(M, kids[0], []);
      SumOne(M, Value(M, kids[0]));
      ValueScaled(M, kids[0], e.mult);
    } else {
      FlatTermsValue(M, kids);
      SumCore(M, e.(kids := FlatTerms(kids)));
      PushDownValue(M, e.(kids := FlatTerms(kids)));
    }
  }

  lemma TurnValue<V(!new)>(M: Model<V>, e: Ex)
    requires IsAlgebra(M) && AllClean(e.kids)
    ensures Value(M, Turn(e).0) == Value(M, e)
  {
    hide IsAlgebra, Value, FlattenOrGather, Collapse, SumLike, NumericalFlat, Clean;
    TurnIsRest(e);
    if e.name.Prod? {
      FlattenedClean(e);
      FlattenOrGatherValue(M, e);
      CollapseValue(M, FlattenOrGather(e).0, FlattenOrGather(e).1);
      RestValue(M, ProductLike(e).0);
    } else {
      RestValue(M, e);
    }
  }

  lemma RestValue<V(!new)>(M: Model<V>, e1: Ex)
    requires IsAlgebra(M)
    ensures Value(M, Rest(e1).0) == Value(M, e1)
  {
    hide IsAlgebra, Value, SumLike, NumericalFlat;
    if e1.name.Sum? {
      SumLikeValue(M, e1);
      if SumLike(e1).0.name.Prod? { NumericalFlatValue(M, SumLike(e1).0); }
    } else if e1.name.Prod? {
      NumericalFlatValue(M, e1);
    }
  }

  // ---------------------------------------------------------------- The theorems

  // cleanup_dispatch on a node with clean children: a clean node of the same value.
  lemma {:induction false} DispatchClean(e: Ex)
    requires AllClean(e.kids)
    ensures Clean(Dispatch(e))
    decreases Size(e), Unrest(e)
  {
    hide Turn, Clean, AllClean;
    if IsVanishing(e) {
      NoughtClean();
    } else {
      TurnProgress(e);
      TurnClean(e);
      if Turn(e).1 { DispatchClean(Turn(e).0); }
    }
  }

  lemma NoughtClean()
    ensures Clean(NOUGHT)
  {
  }

  lemma {:induction false} DispatchValue<V(!new)>(M: Model<V>, e: Ex)
    requires IsAlgebra(M) && AllClean(e.kids)
    ensures Value(M, Dispatch(e)) == Value(M, e)
    decreases Size(e), Unrest(e)
  {
    hide Turn, IsAlgebra, Value, AllClean;
    if IsVanishing(e) {
      ZeroValue(M, e);
      ZeroValue(M, NOUGHT);
    } else {
      TurnProgress(e);
      TurnValue(M, e);
      TurnClean(e);
      if Turn(e).1 { DispatchValue(M, Turn(e).0); }
    }
  }

  // After the walk every node is in normal form.
  lemma {:induction false} DeepClean(e: Ex)
    ensures Clean(DispatchDeep(e))
    decreases e, 1
  {
    hide Dispatch, Clean;
    DeepAllClean(e.kids);
    DispatchClean(e.(kids := DispatchAll(e.kids)));
  }

  lemma {:induction false} DeepAllClean(es: seq<Ex>)
    ensures AllClean(DispatchAll(es))
    decreases es, 0
  {
    hide Clean, DispatchDeep;
    if es != [] {
      DeepClean(es[0]);
      DeepAllClean(es[1..]);
    }
  }

  // The walk keeps the value in every algebra, whatever the atoms stand for.
  lemma {:induction false} DeepValue<V(!new)>(M: Model<V>, e: Ex)
    requires IsAlgebra(M)
    ensures Value(M, DispatchDeep(e)) == Value(M, e)
    decreases e, 1
  {
    hide Dispatch, IsAlgebra, Clean;
    DeepAllValue(M, e.kids);
    DeepAllClean(e.kids);
    DispatchValue(M, e.(kids := DispatchAll(e.kids)));
  }

  lemma {:induction false} DeepAllValue<V(!new)>(M: Model<V>, es: seq<Ex>)
    requires IsAlgebra(M)
    ensures Values(M, DispatchAll(es)) == Values(M, es)
    decreases es, 0
  {
    hide IsAlgebra, Value, DispatchDeep;
    if es != [] {
      DeepValue(M, es[0]);
      DeepAllValue(M, es[1..]);
      ConsValues(M, DispatchDeep(es[0]), DispatchAll(es[1..]));
    }
  }

  // A clean node rests.
  lemma CleanRests(e: Ex)
    requires Clean(e)
    ensures Dispatch(e) == e
  {
    hide NumericalFlat, FlatFactors, FlatFactor;
    if e.name.Prod? {
      CleanFactorsNone(e.kids);
      NumericalFlatSize(e);
      NumericalFlatFlag(e);
    } else if e.name.Sum? {
      CleanSumRests(e);
    }
  }

  lemma CleanSumRests(e: Ex)
    requires Clean(e) && e.name.Sum?
    ensures SumLike(e) == (e, false)
  {
    hide FlatTerms, PushDown;
    AllNonZero(e.kids);
    FlatTermsSize(e.kids);
    UnitPushDown(e);
  }

  lemma {:induction false} AllNonZero(kids: seq<Ex>)
    requires forall i :: 0 <= i < |kids| ==> kids[i].mult != 0.0
    ensures NonZero(kids) == kids
  {
    if kids != [] { AllNonZero(kids[1..]); }
  }

  // Nothing in a clean tree changes.
  lemma {:induction false} CleanFixed(e: Ex)
    requires Clean(e)
    ensures DispatchDeep(e) == e
    decreases e, 1
  {
    hide Dispatch;
    CleanAllFixed(e.kids);
    CleanRests(e);
  }

  lemma {:induction false} CleanAllFixed(es: seq<Ex>)
    requires AllClean(es)
    ensures DispatchAll(es) == es
    decreases es, 0
  {
    hide DispatchDeep;
    if es != [] {
      assert Clean(es[0]) && AllClean(es[1..]);
      CleanFixed(es[0]);
      CleanAllFixed(es[1..]);
    }
  }

  // A second walk changes nothing; and a tree is in normal form exactly when a
  // walk leaves it as it is.
  lemma DeepIdempotent(e: Ex)
    ensures DispatchDeep(DispatchDeep(e)) == DispatchDeep(e)
    ensures DispatchDeep(e) == e <==> Clean(e)
  {
    hide Dispatch, DispatchDeep, Clean;
    DeepClean(e);
    CleanFixed(DispatchDeep(e));
    if Clean(e) { CleanFixed(e); }
  }

  // ----------------------------------- Why the children must be cleaned first

  // What cleanup_productlike must not meet: nested products that flatten to one
  // factor which carries a multiplier.
  predicate LosesFactor(e: Ex) {
    HasNamed(e.kids, Prod) && |FlatFactors(e.kids)| == 1 && FlatFactors(e.kids)[0].mult != 1.0
  }

  // Short of that it keeps the value of any product, clean or not.
  lemma ProductLikeValue<V(!new)>(M: Model<V>, e: Ex)
    requires IsAlgebra(M) && e.name.Prod? && !LosesFactor(e)
    ensures Value(M, ProductLike(e).0) == Value(M, e)
  {
    hide IsAlgebra, Value, FlatFactor, FlatFactors, Stripped, Gathered, Collapse;
    FlattenOrGatherValue(M, e);
    StrippedSize(e.kids);
    CollapseValue(M, FlattenOrGather(e).0, FlattenOrGather(e).1);
  }

  // Otherwise the value is off by exactly that multiplier.
  lemma ProductLikeLoses<V(!new)>(M: Model<V>, e: Ex)
    requires IsAlgebra(M) && e.name.Prod? && LosesFactor(e)
    ensures Value(M, e) == M.scale(FlatFactors(e.kids)[0].mult, Value(M, ProductLike(e).0))
  {
    hide IsAlgebra, Value, FlatFactor, FlatFactors, Core, HasNamed;
    var n, k := FlattenOrGather(e).0, FlatFactors(e.kids)[0];
    FlattenOrGatherValue(M, e);
    assert n.kids == [k] + [];
    ConsValues(M, k, []);
    SumCore(M, n);
    ProdOne(M, Value(M, k));
    OwnMultiplier(M, k);
    PushDownValue(M, k.(mult := n.mult));
    ValueWith(M, k, n.mult);
    ScaleTwice(M, n.mult, k.mult, n.mult * k.mult, Core(M, k));
    ScaleTwice(M, k.mult, n.mult, n.mult * k.mult, Core(M, k));
  }

  // So it is for a product of a product of 2a, when the outer product is cleaned
  // before the inner one.
  lemma UncleanChildLoses(a: Ex)
    requires !a.name.Prod?
    ensures var e := Node(Prod, 1.0, [Node(Prod, 1.0, [a])]);
            && HasNamed(e.kids, Prod) && FlatFactors(e.kids) == [a]
            && (LosesFactor(e) <==> a.mult != 1.0)
  {
    var inner := Node(Prod, 1.0, [a]);
    var e := Node(Prod, 1.0, [inner]);
    assert e.kids[0].name == Prod;
    FlatFactorsAppend([a], []);
    assert inner.kids + e.kids[1..] == [a] + [];
    assert FlatFactors([]) == [] && FlatFactor([]) == 1.0;
    assert [a][1..] == [];
  }

  lemma UncleanChildLosesFactor(a: Ex)
    requires a.name.Opaque?
    ensures ProductLike(Node(Prod, 1.0, [Node(Prod, 1.0, [a])])).0 == a.(mult := 1.0)
  {
    var inner := Node(Prod, 1.0, [a]);
    var e := Node(Prod, 1.0, [inner]);
    assert e.kids[0].name == Prod;
    FlatFactorsAppend([a], []);
    assert inner.kids + e.kids[1..] == [a] + [];
    assert FlatFactors([]) == [] && FlatFactor([]) == 1.0;
    assert [a][1..] == [];
    assert FlatFactor([a] + []) == 1.0;
  }
}
