// The clean-up code as it runs: the node under the iterator is changed in place.

module CleanupClass {
  import opened Expressions
  import opened CleanupRules
  import opened PreCleanRules
  import opened PreCleanWalk

  lemma AtFront(kids: seq<Ex>, i: nat)
    requires i < |kids|
    ensures kids[i..][0] == kids[i] && kids[i..][1..] == kids[i + 1..]
  {
  }

  // The tail from i on, after the node at i has been replaced by `open`.
  lemma Spliced(kids: seq<Ex>, i: nat, open: seq<Ex>)
    requires i < |kids|
    ensures (kids[..i] + open + kids[i + 1..])[i..] == open + kids[i + 1..]
    ensures (kids[..i] + open + kids[i + 1..])[..i] == kids[..i]
  {
    var s := kids[..i] + open + kids[i + 1..];
    assert s[i..] == open + kids[i + 1..];
  }

  // Erasing the node at i, or replacing it by one other node.
  lemma Erased(kids: seq<Ex>, i: nat)
    requires i < |kids|
    ensures (kids[..i] + kids[i + 1..])[..i] == kids[..i] && (kids[..i] + kids[i + 1..])[i..] == kids[i + 1..]
  {
  }

  lemma Replaced(kids: seq<Ex>, i: nat, k: Ex)
    requires i < |kids|
    ensures kids[i := k][..i + 1] == kids[..i] + [k] && kids[i := k][i + 1..] == kids[i + 1..]
  {
  }

  lemma Passed(kids: seq<Ex>, i: nat)
    requires i < |kids|
    ensures kids[..i + 1] == kids[..i] + [kids[i]]
  {
  }

  lemma WholeList(kids: seq<Ex>)
    ensures kids[..0] == [] && kids[0..] == kids && kids[..|kids|] == kids && kids[|kids|..] == []
  {
  }

  lemma Regroup(a: seq<Ex>, b: seq<Ex>, c: seq<Ex>)
    ensures a + (b + c) == (a + b) + c
  {
  }

  lemma Times3(x: real, y: real, z: real)
    ensures (x * y) * z == x * (y * z)
  {
  }

  lemma {:induction false} TailNodes(kids: seq<Ex>, i: nat)
    requires i <= |kids|
    ensures Nodes(kids[i..]) <= Nodes(kids)
  {
    NodesAppend(kids[..i], kids[i..]);
    assert kids == kids[..i] + kids[i..];
  }

  lemma TermSize(terms: seq<Ex>, i: nat, m: real)
    requires i < |terms|
    ensures Size(Scaled(terms[i], m)) <= Nodes(terms)
  {
    AtFront(terms, i);
    ScaledSize(terms[i..], m);
    TailNodes(terms, i);
  }

  lemma PushAllHead(kids: seq<Ex>, m: real)
    requires kids != []
    ensures PushAll(kids, m) == [PushDown(Scaled(kids[0], m))] + PushAll(kids[1..], m)
  {
    hide PushDown, Nodes;
  }

  // push_down_multiplier on a node below the iterator.
  method PushDownMultiplier(e: Ex) returns (r: Ex, ret: bool)
    ensures r == PushDown(e) && (ret ==> r != e)
    decreases Size(e), 1
  {
    if e.mult == 1.0 { return e, false; }
    if !e.name.Sum? { return e, false; }
    var kids := PushDownTerms(e.kids, e.mult);
    r, ret := Node(Sum, 1.0, kids), true;
  }

  method PushDownTerms(terms: seq<Ex>, m: real) returns (kids: seq<Ex>)
    ensures kids == PushAll(terms, m)
    decreases Nodes(terms), 2
  {
    hide PushAll, PushDown, Nodes, Size;
    kids := terms;
    var i := 0;
    WholeList(terms);
    while i < |kids|
      invariant 0 <= i <= |kids| && |kids| == |terms|
      invariant kids[i..] == terms[i..]
      invariant kids[..i] + PushAll(terms[i..], m) == PushAll(terms, m)
    {
      AtFront(terms, i);
      AtFront(kids, i);
      TermSize(terms, i, m);
      PushAllHead(terms[i..], m);
      var sib := Scaled(kids[i], m);
      var pushed, changed := PushDownMultiplier(sib);
      Replaced(kids, i, pushed);
      Regroup(kids[..i], [pushed], PushAll(terms[i + 1..], m));
      kids := kids[i := pushed];
      i := i + 1;
    }
    WholeList(kids);
    WholeList(terms);
    assert PushAll(terms[i..], m) == [];
  }

  // -------------------------------------------------- What the loops maintain

  // cleanup_numericalflat: `done` is finished, `rest` still to come.
  ghost predicate Gathering(input: seq<Ex>, done: seq<Ex>, rest: seq<Ex>, factor: real, ret: bool) {
    && done + Stripped(rest) == Stripped(input)
    && factor * Gathered(rest) == Gathered(input)
    && (ret || GatherChanges(rest) <==> GatherChanges(input))
  }

  lemma GatherStart(input: seq<Ex>)
    ensures Gathering(input, [], input, 1.0, false)
  {
  }

  lemma GatherStep(input: seq<Ex>, done: seq<Ex>, rest: seq<Ex>, factor: real, ret: bool, next: real)
    requires Gathering(input, done, rest, factor, ret) && rest != [] && next == factor * rest[0].mult
    ensures rest[0].name.One? ==> Gathering(input, done, rest[1..], next, true)
    ensures !rest[0].name.One? ==>
      Gathering(input, done + [rest[0].(mult := 1.0)], rest[1..], next, ret || rest[0].mult != 1.0)
  {
    hide GatherChanges;
    GatherTail(rest);
    Times3(factor, rest[0].mult, Gathered(rest[1..]));
    if !rest[0].name.One? {
      var u := [rest[0].(mult := 1.0)];
      assert done + (u + Stripped(rest[1..])) == (done + u) + Stripped(rest[1..]);
    }
  }

  lemma GatherEnd(input: seq<Ex>, done: seq<Ex>, factor: real, ret: bool)
    requires Gathering(input, done, [], factor, ret)
    ensures done == Stripped(input) && factor == Gathered(input) && (ret || factor != 1.0 <==> GatherChanges(input))
  {
    hide GatherChanges;
    assert !GatherChanges([]) by { NothingToGather([]); }
    StrippedSize(input);
  }

  // The loop over nested products.
  ghost predicate Opening(input: seq<Ex>, m: real, done: seq<Ex>, rest: seq<Ex>, acc: real, ret: bool) {
    && done + FlatFactors(rest) == FlatFactors(input)
    && Times(acc, FlatFactor(rest)) == Times(m, FlatFactor(input))
    && (ret || HasNamed(rest, Prod) <==> HasNamed(input, Prod))
  }

  lemma OpenStart(input: seq<Ex>, m: real)
    ensures Opening(input, m, [], input, m, false)
  {
  }

  lemma FlatHead(kids: seq<Ex>)
    requires kids != []
    ensures kids[0].name.Prod? ==> FlatFactors(kids) == FlatFactors(kids[0].kids + kids[1..])
    ensures !kids[0].name.Prod? ==> FlatFactors(kids) == [kids[0]] + FlatFactors(kids[1..])
    ensures Nodes(kids) == Size(kids[0]) + Nodes(kids[1..])
  {
    hide FlatFactor;
  }

  lemma FlatFactorHead(kids: seq<Ex>)
    requires kids != []
    ensures kids[0].name.Prod? ==> FlatFactor(kids) == Times(kids[0].mult, FlatFactor(kids[0].kids + kids[1..]))
    ensures !kids[0].name.Prod? ==> FlatFactor(kids) == FlatFactor(kids[1..])
  {
    hide FlatFactors, Nodes, Times;
    if kids[0].name.Prod? { OpenedSize(kids); }
  }

  lemma OpenStep(input: seq<Ex>, m: real, done: seq<Ex>, rest: seq<Ex>, acc: real, ret: bool, next: real)
    requires Opening(input, m, done, rest, acc, ret) && rest != [] && next == acc * rest[0].mult
    ensures rest[0].name.Prod? ==>
      Opening(input, m, done, rest[0].kids + rest[1..], next, true) && Nodes(rest[0].kids + rest[1..]) < Nodes(rest)
    ensures !rest[0].name.Prod?
      ==> Opening(input, m, done + [rest[0]], rest[1..], acc, ret) && Nodes(rest[1..]) < Nodes(rest)
  {
    hide HasNamed, FlatFactors, FlatFactor, Size, Nodes;
    OpenedSize(rest);
    HasNamedTail(rest, Prod);
    FlatHead(rest);
    FlatFactorHead(rest);
    if rest[0].name.Prod? {
      Times3(acc, rest[0].mult, FlatFactor(rest[0].kids + rest[1..]));
    } else {
      Regroup(done, [rest[0]], FlatFactors(rest[1..]));
    }
  }

  lemma OpenEnd(input: seq<Ex>, m: real, done: seq<Ex>, acc: real, ret: bool)
    requires Opening(input, m, done, [], acc, ret)
    ensures done == FlatFactors(input) && acc == Times(m, FlatFactor(input)) && ret == HasNamed(input, Prod)
  {
  }

  // The loop that erases zero terms.
  ghost predicate Dropping(input: seq<Ex>, done: seq<Ex>, rest: seq<Ex>, ret: bool) {
    && done + NonZero(rest) == NonZero(input)
    && |done| + |rest| <= |input| && (ret <==> |done| + |rest| < |input|)
  }

  lemma DropStart(input: seq<Ex>)
    ensures Dropping(input, [], input, false)
  {
  }

  lemma DropStep(input: seq<Ex>, done: seq<Ex>, rest: seq<Ex>, ret: bool)
    requires Dropping(input, done, rest, ret) && rest != []
    ensures rest[0].mult == 0.0 ==> Dropping(input, done, rest[1..], true)
    ensures rest[0].mult != 0.0 ==> Dropping(input, done + [rest[0]], rest[1..], ret)
  {
    Regroup(done, [rest[0]], NonZero(rest[1..]));
  }

  lemma DropEnd(input: seq<Ex>, done: seq<Ex>, ret: bool)
    requires Dropping(input, done, [], ret)
    ensures done == NonZero(input) && (ret <==> |done| < |input|)
  {
  }

  // The loop over nested sums.
  ghost predicate Unnesting(input: seq<Ex>, done: seq<Ex>, rest: seq<Ex>, ret: bool) {
    && done + FlatTerms(rest) == FlatTerms(input)
    && (ret || HasNamed(rest, Sum) <==> HasNamed(input, Sum))
  }

  lemma UnnestStart(input: seq<Ex>)
    ensures Unnesting(input, [], input, false)
  {
  }

  lemma FlatTermsHead(kids: seq<Ex>)
    requires kids != []
    ensures FlatTerms(kids)
      == (if kids[0].name.Sum? then ScaleAll(kids[0].kids, kids[0].mult) else [kids[0]]) + FlatTerms(kids[1..])
  {
  }

  lemma UnnestStep(input: seq<Ex>, done: seq<Ex>, rest: seq<Ex>, ret: bool)
    requires Unnesting(input, done, rest, ret) && rest != []
    ensures rest[0].name.Sum? ==> Unnesting(input, done + ScaleAll(rest[0].kids, rest[0].mult), rest[1..], true)
    ensures !rest[0].name.Sum? ==> Unnesting(input, done + [rest[0]], rest[1..], ret)
  {
    hide HasNamed, ScaleAll, FlatTerms;
    HasNamedTail(rest, Sum);
    FlatTermsHead(rest);
    Regroup(done, if rest[0].name.Sum? then ScaleAll(rest[0].kids, rest[0].mult) else [rest[0]], FlatTerms(rest[1..]));
  }

  lemma UnnestEnd(input: seq<Ex>, done: seq<Ex>, ret: bool)
    requires Unnesting(input, done, [], ret)
    ensures done == FlatTerms(input) && ret == HasNamed(input, Sum)
  {
  }

  lemma FlippedHead(kids: seq<Ex>)
    requires kids != []
    ensures kids[0].mult == 0.0 ==> Flipped(kids) == Flipped(kids[1..])
    ensures kids[0].mult != 0.0 ==> Flipped(kids) == [kids[0].(mult := -kids[0].mult)] + Flipped(kids[1..])
  {
  }

  lemma FlippedNone()
    ensures Flipped([]) == []
  {
  }

  // The loop over the denominators of a fraction.
  ghost predicate Dividing(first: real, below: seq<Ex>, done: seq<Ex>, rest: seq<Ex>, rat: real, numbers: bool) {
    && (NoZeros(below) <==> NoZeros(rest))
    && (NoZeros(rest) ==> Divided(rat, rest) == Divided(first, below))
    && done + UnitUntilZero(rest) == UnitUntilZero(below)
    && done + Units(rest) == Units(below)
    && (numbers && AllNumbers(rest) <==> AllNumbers(below))
  }

  lemma DivideStart(first: real, below: seq<Ex>)
    ensures Dividing(first, below, [], below, first, true)
  {
  }

  lemma NoZerosHead(kids: seq<Ex>)
    requires kids != []
    ensures NoZeros(kids) <==> kids[0].mult != 0.0 && NoZeros(kids[1..])
  {
    if kids[0].mult != 0.0 && NoZeros(kids[1..]) {
      forall i | 0 <= i < |kids| ensures kids[i].mult != 0.0 { if i > 0 { assert kids[i] == kids[1..][i - 1]; } }
    }
  }

  lemma UnitsHead(kids: seq<Ex>)
    requires kids != []
    ensures Units(kids) == [kids[0].(mult := 1.0)] + Units(kids[1..])
  {
  }

  lemma DivideStep(first: real, below: seq<Ex>, done: seq<Ex>, rest: seq<Ex>, rat: real, numbers: bool)
    requires Dividing(first, below, done, rest, rat, numbers) && rest != []
    ensures rest[0].mult == 0.0 ==> !NoZeros(below) && done + rest == UnitUntilZero(below)
    ensures rest[0].mult != 0.0 ==>
      Dividing(first, below, done + [rest[0].(mult := 1.0)], rest[1..], rat / rest[0].mult,
        numbers && rest[0].name.One?)
  {
    hide NoZeros, AllNumbers, Units;
    NoZerosHead(rest);
    AllNumbersHead(rest);
    UnitsHead(rest);
    var u := [rest[0].(mult := 1.0)];
    Regroup(done, u, Units(rest[1..]));
    Regroup(done, u, UnitUntilZero(rest[1..]));
  }

  lemma DivideEnd(first: real, below: seq<Ex>, done: seq<Ex>, rat: real, numbers: bool)
    requires Dividing(first, below, done, [], rat, numbers)
    ensures NoZeros(below) && rat == Divided(first, below) && done == Units(below) && numbers == AllNumbers(below)
  {
    assert Units([]) == [];
  }

  class Cursor {
    var name: Name
    var multiplier: real
    var children: seq<Ex>

    constructor (e: Ex)
      ensures Tree() == e
    {
      name, multiplier, children := e.name, e.mult, e.kids;
    }

    function Tree(): Ex
      reads this
    {
      Node(name, multiplier, children)
    }

    // flatten and erase: the node under the iterator is replaced by e.
    method Reseat(e: Ex)
      modifies this
      ensures Tree() == e
    {
      name, multiplier, children := e.name, e.mult, e.kids;
    }

    method CleanupNumericalflat() returns (ret: bool)
      modifies this
      ensures Tree() == NumericalFlat(old(Tree())).0 && ret == NumericalFlat(old(Tree())).1
    {
      hide Gathering, GatherChanges, Stripped, Gathered;
      ret := false;
      var factor := 1.0;
      ghost var input := children;
      var facs := 0;
      WholeList(children);
      GatherStart(input);
      while facs < |children|
        invariant 0 <= facs <= |children| && name == old(name) && multiplier == old(multiplier)
        invariant Gathering(input, children[..facs], children[facs..], factor, ret)
        decreases |children| - facs
      {
        AtFront(children, facs);
        var product := factor * children[facs].mult;
        GatherStep(input, children[..facs], children[facs..], factor, ret, product);
        factor := product;
        if children[facs].name.One? {
          ret := true;
          Erased(children, facs);
          children := children[..facs] + children[facs + 1..];
        } else {
          if children[facs].mult != 1.0 { ret := true; }
          Replaced(children, facs, children[facs].(mult := 1.0));
          children := children[facs := children[facs].(mult := 1.0)];
          facs := facs + 1;
        }
      }
      WholeList(children);
      GatherEnd(input, children, factor, ret);
      if factor != 1.0 { ret := true; }
      multiplier := multiplier * factor;
    }

    // The loop that opens nested products.
    method FlattenProducts() returns (ret: bool)
      modifies this
      ensures name == old(name) && children == FlatFactors(old(children)) && ret == HasNamed(old(children), Prod)
      ensures multiplier == Times(old(multiplier), FlatFactor(old(children)))
    {
      hide Opening, FlatFactors, FlatFactor, Nodes;
      ret := false;
      ghost var input, m := children, multiplier;
      var sib := 0;
      WholeList(children);
      OpenStart(input, m);
      while sib < |children|
        invariant 0 <= sib <= |children| && name == old(name)
        invariant Opening(input, m, children[..sib], children[sib..], multiplier, ret)
        decreases Nodes(children[sib..])
      {
        AtFront(children, sib);
        var product := multiplier * children[sib].mult;
        OpenStep(input, m, children[..sib], children[sib..], multiplier, ret, product);
        if children[sib].name.Prod? {
          Spliced(children, sib, children[sib].kids);
          multiplier := product;
          children := children[..sib] + children[sib].kids + children[sib + 1..];
          ret := true;
        } else {
          Passed(children, sib);
          sib := sib + 1;
        }
      }
      WholeList(children);
      OpenEnd(input, m, children, multiplier, ret);
    }

    method CleanupProductlike() returns (ret: bool)
      requires name.Prod?
      modifies this
      ensures Tree() == ProductLike(old(Tree())).0 && ret == ProductLike(old(Tree())).1
    {
      hide FlatFactors, FlatFactor, NumericalFlat, PushDown;
      ghost var input := Tree();
      ret := FlattenProducts();
      NothingNested(input, multiplier);
      if !ret {
        assert Tree() == input;
        ret := CleanupNumericalflat();
      }
      FlattenedIs(input, Tree(), ret);
      if |children| == 1 {
        ret := true;
        Reseat(children[0].(mult := multiplier));
        var pushed, changed := PushDownMultiplier(Tree());
        Reseat(pushed);
      } else if |children| == 0 {
        ret := true;
        name := One;
      }
    }

    // Remove terms that are zero.
    method DropZeros() returns (ret: bool)
      modifies `children
      ensures children == NonZero(old(children)) && (ret <==> |children| < |old(children)|)
    {
      hide Dropping, NonZero;
      ret := false;
      ghost var input := children;
      var sib := 0;
      WholeList(children);
      DropStart(input);
      while sib < |children|
        invariant 0 <= sib <= |children|
        invariant Dropping(input, children[..sib], children[sib..], ret)
        decreases |children| - sib
      {
        AtFront(children, sib);
        DropStep(input, children[..sib], children[sib..], ret);
        if children[sib].mult == 0.0 {
          ret := true;
          Erased(children, sib);
          children := children[..sib] + children[sib + 1..];
        } else {
          Passed(children, sib);
          sib := sib + 1;
        }
      }
      WholeList(children);
      DropEnd(input, children, ret);
    }

    // Open nested sums, multiplying their terms.
    method FlattenSums() returns (ret: bool)
      modifies `children
      ensures children == FlatTerms(old(children)) && ret == HasNamed(old(children), Sum)
    {
      hide Unnesting, FlatTerms, ScaleAll;
      ret := false;
      ghost var input := children;
      var facs := 0;
      WholeList(children);
      UnnestStart(input);
      while facs < |children|
        invariant 0 <= facs <= |children|
        invariant Unnesting(input, children[..facs], children[facs..], ret)
        decreases |children| - facs
      {
        AtFront(children, facs);
        UnnestStep(input, children[..facs], children[facs..], ret);
        if children[facs].name.Sum? {
          var terms := MultiplyTerms(children[facs]);
          ret := true;
          OpenedTail(children, facs, terms);
          children := children[..facs] + terms + children[facs + 1..];
          facs := facs + |terms|;
        } else {
          Passed(children, facs);
          facs := facs + 1;
        }
      }
      WholeList(children);
      UnnestEnd(input, children, ret);
    }

    method CleanupSumlike() returns (ret: bool)
      requires name.Sum?
      modifies this
      ensures Tree() == SumLike(old(Tree())).0 && ret == SumLike(old(Tree())).1
    {
      hide NonZero, FlatTerms, PushDown;
      ghost var input := Tree();
      ret := DropZeros();
      if |children| == 0 {
        ret := true;
        multiplier := 0.0;
        return;
      }
      if |children| == 1 {
        ret := true;
        Reseat(Scaled(children[0], multiplier));
        return;
      }
      ghost var kids := children;
      var nested := FlattenSums();
      ret := ret || nested;
      if !ret {
        var pushed, changed := PushDownMultiplier(Tree());
        UnitPushDown(Tree());
        ret := multiplier != 1.0;
        Reseat(pushed);
      }
    }

    // cleanup_dispatch on nodes other than derivatives, components and deltas.
    method CleanupDispatch()
      modifies this
      ensures Tree() == Dispatch(old(Tree()))
    {
      hide ProductLike, SumLike, NumericalFlat, Size, Unrest;
      var changed := true;
      ghost var input := Tree();
      while changed
        invariant if changed then Dispatch(Tree()) == Dispatch(input) else Tree() == Dispatch(input)
        decreases changed, Size(Tree()), Unrest(Tree())
      {
        ghost var before := Tree();
        if multiplier == 0.0 && (|children| != 0 || !name.One?) {
          Reseat(NOUGHT);
          return;
        }
        TurnProgress(before);
        changed := false;
        if name.Prod? {
          var res := CleanupProductlike();
          changed := changed || res;
        }
        if name.Sum? {
          var res := CleanupSumlike();
          changed := changed || res;
        }
        if name.Prod? {
          var res := CleanupNumericalflat();
          changed := changed || res;
        }
        assert (Tree(), changed) == Turn(before);
      }
    }

    // ------------------------------------------------------------- PreClean

    method CleanupFrac()
      requires name.Frac? && children != []
      modifies this
      ensures Tree() == FracRule(old(Tree()))
    {
      hide Divided, UnitUntilZero, Stripped;
      if |children| == 1 {
        children := [Node(One, 1.0, [])] + children;
      }
      ghost var kids := children;
      var first, below := children[0], children[1..];
      var zero, rat, units, numbers := DivideOut(first.mult, below);
      var top := first.(mult := 1.0);
      if zero {
        children := [top] + units;
        return;
      }
      AllNumbersHead(kids);
      if first.name.One? && numbers {
        multiplier := multiplier * rat;
        children := [];
        name := One;
        return;
      }
      var rest := DropNumbers(units, below);
      if |rest| == 0 {
        Reseat(Scaled(top, multiplier));
        multiplier := multiplier * rat;
      } else {
        children := [top] + rest;
        multiplier := multiplier * rat;
      }
    }

    method CleanupSub()
      requires name.Sub? && |children| > 1 && !AllZero(children)
      modifies this
      ensures Tree() == SubRule(old(Tree()))
    {
      hide Flipped;
      ghost var input := children;
      name := Sum;
      var sit: nat;
      if children[0].mult == 0.0 {
        children := children[1..];
        sit := 0;
      } else {
        sit := 1;
      }
      assert children[..sit] + Flipped(children[sit..]) == SubTerms(input);
      FlipFrom(sit, input);
      if |children| == 1 {
        Reseat(Scaled(children[0], multiplier));
      }
    }

    // The loop of cleanup_sub.
    method FlipFrom(from: nat, ghost input: seq<Ex>)
      requires input != [] && from <= |children| && children[..from] + Flipped(children[from..]) == SubTerms(input)
      modifies `children
      ensures children == SubTerms(input)
    {
      hide SubTerms, Flipped;
      var sit := from;
      while sit < |children|
        invariant 0 <= sit <= |children|
        invariant children[..sit] + Flipped(children[sit..]) == SubTerms(input)
        decreases |children| - sit
      {
        AtFront(children, sit);
        FlippedHead(children[sit..]);
        if children[sit].mult == 0.0 {
          Erased(children, sit);
          children := children[..sit] + children[sit + 1..];
        } else {
          var k := children[sit].(mult := -children[sit].mult);
          Replaced(children, sit, k);
          Regroup(children[..sit], [k], Flipped(children[sit + 1..]));
          children := children[sit := k];
          sit := sit + 1;
        }
      }
      WholeList(children);
      assert Flipped(children[sit..]) == [] by { FlippedNone(); }
    }

    method PreCleanDispatch()
      requires Admissible(Tree())
      modifies this
      ensures Tree() == PreRule(old(Tree()))
    {
      hide FracRule, SubRule;
      match name {
        case Number(q) =>
          name := One;
          multiplier := multiplier * q;
        case Frac => CleanupFrac();
        case Sub => CleanupSub();
        case _ =>
      }
    }
  }

  lemma GatherTail(kids: seq<Ex>)
    requires kids != []
    ensures GatherChanges(kids) <==> kids[0].name.One? || kids[0].mult != 1.0 || GatherChanges(kids[1..])
  {
    HasNamedTail(kids, One);
    AllUnitTail(kids);
  }

  lemma FlattenedIs(e: Ex, n: Ex, ret: bool)
    requires HasNamed(e.kids, Prod)
      ==> ret && n.name == e.name && n.kids == FlatFactors(e.kids) && n.mult == Times(e.mult, FlatFactor(e.kids))
    requires !HasNamed(e.kids, Prod) ==> (n, ret) == NumericalFlat(e)
    ensures FlattenOrGather(e) == (n, ret)
  {
    hide NumericalFlat, HasNamed, Times;
  }

  lemma NothingNested(e: Ex, m: real)
    requires m == Times(e.mult, FlatFactor(e.kids))
    ensures !HasNamed(e.kids, Prod) ==> FlatFactors(e.kids) == e.kids && m == e.mult
  {
    FlatFactorsSize(e.kids);
  }

  lemma OpenedTail(kids: seq<Ex>, i: nat, terms: seq<Ex>)
    requires i < |kids|
    ensures (kids[..i] + terms + kids[i + 1..])[i + |terms|..] == kids[i + 1..]
    ensures (kids[..i] + terms + kids[i + 1..])[..i + |terms|] == kids[..i] + terms
  {
  }

  method MultiplyTerms(e: Ex) returns (terms: seq<Ex>)
    ensures terms == ScaleAll(e.kids, e.mult)
  {
    terms := e.kids;
    for i := 0 to |terms|
      invariant |terms| == |e.kids|
      invariant forall k :: 0 <= k < |terms| ==> terms[k] == if k < i then Scaled(e.kids[k], e.mult) else e.kids[k]
    {
      terms := terms[i := Scaled(terms[i], e.mult)];
    }
  }

  // The loop of cleanup_frac over the denominators; it stops at a zero.
  method DivideOut(first: real, below: seq<Ex>) returns (zero: bool, rat: real, units: seq<Ex>, numbers: bool)
    ensures zero <==> !NoZeros(below)
    ensures zero ==> units == UnitUntilZero(below)
    ensures !zero ==> rat == Divided(first, below) && units == Units(below) && numbers == AllNumbers(below)
  {
    hide Dividing, NoZeros, AllNumbers, Divided, UnitUntilZero, Units;
    rat, units, numbers, zero := first, below, true, false;
    var it := 0;
    WholeList(below);
    DivideStart(first, below);
    while it < |units|
      invariant 0 <= it <= |units|
      invariant Dividing(first, below, units[..it], units[it..], rat, numbers)
    {
      AtFront(units, it);
      DivideStep(first, below, units[..it], units[it..], rat, numbers);
      if units[it].mult == 0.0 {
        assert units == units[..it] + units[it..];
        zero := true;
        return;
      }
      Replaced(units, it, units[it].(mult := 1.0));
      rat := rat / units[it].mult;
      if !units[it].name.One? { numbers := false; }
      units := units[it := units[it].(mult := 1.0)];
      it := it + 1;
    }
    WholeList(units);
    DivideEnd(first, below, units, rat, numbers);
  }

  lemma AllNumbersHead(kids: seq<Ex>)
    requires kids != []
    ensures AllNumbers(kids) <==> kids[0].name.One? && AllNumbers(kids[1..])
  {
    if kids[0].name.One? && AllNumbers(kids[1..]) {
      forall i | 0 <= i < |kids| ensures kids[i].name.One? { if i > 0 { assert kids[i] == kids[1..][i - 1]; } }
    }
  }

  // Denominators that are pure numbers are erased.
  method DropNumbers(units: seq<Ex>, ghost below: seq<Ex>) returns (rest: seq<Ex>)
    requires units == Units(below)
    ensures rest == Stripped(below)
  {
    rest := [];
    for i := 0 to |units|
      invariant rest + Stripped(below[i..]) == Stripped(below)
    {
      AtFront(below, i);
      if !units[i].name.One? { rest := rest + [units[i]]; }
    }
  }

  // ------------------------------------------------------------------ The walks

  // cleanup_dispatch_deep with cleanup_dispatch: children before parents.
  method CleanupDispatchDeep(e: Ex) returns (r: Ex)
    ensures r == DispatchDeep(e)
    decreases e, 1
  {
    hide Dispatch;
    var kids := CleanupAll(e.kids);
    var it := new Cursor(e.(kids := kids));
    it.CleanupDispatch();
    r := it.Tree();
  }

  method CleanupAll(es: seq<Ex>) returns (kids: seq<Ex>)
    ensures kids == DispatchAll(es)
    decreases es, 0
  {
    hide DispatchDeep;
    if es == [] { return []; }
    var first := CleanupDispatchDeep(es[0]);
    var rest := CleanupAll(es[1..]);
    kids := [first] + rest;
  }

  method PreCleanDispatchDeep(e: Ex) returns (r: Ex)
    requires Posed(e)
    ensures r == PreDeep(e)
    decreases e, 1
  {
    hide PreRule, Zero;
    var kids := PreCleanAll(e.kids);
    var it := new Cursor(e.(kids := kids));
    PosedAdmissible(e, it.Tree());
    it.PreCleanDispatch();
    r := it.Tree();
  }

  method PreCleanAll(es: seq<Ex>) returns (kids: seq<Ex>)
    requires AllPosed(es)
    ensures kids == PreAll(es)
    decreases es, 0
  {
    hide PreDeep, Posed, Zero;
    if es == [] { return []; }
    PosedTail(es);
    var first := PreCleanDispatchDeep(es[0]);
    var rest := PreCleanAll(es[1..]);
    kids := [first] + rest;
  }
}
