// What cleanup_productlike, cleanup_sumlike, cleanup_numericalflat and
// push_down_multiplier make of one node, and what cleanup_dispatch and the walk
// over the whole tree make of them.

module CleanupRules {
  import opened Expressions

  // -------------------------------------------------------------- The rewrites

  // The factors after nested products have been flattened, nested ones inside
  // nested ones included.
  function FlatFactors(kids: seq<Ex>): seq<Ex>
    decreases Nodes(kids)
  {
    if kids == [] then []
    else if kids[0].name.Prod? then
      OpenedSize(kids);
      FlatFactors(kids[0].kids + kids[1..])
    else [kids[0]] + FlatFactors(kids[1..])
  }

  // Opening the first node of a list makes one node less.
  lemma OpenedSize(kids: seq<Ex>)
    requires kids != []
    ensures Nodes(kids[0].kids + kids[1..]) + 1 == Nodes(kids)
  {
    NodesAppend(kids[0].kids, kids[1..]);
    assert Size(kids[0]) == 1 + Nodes(kids[0].kids);
  }

  lemma ScaledSize(kids: seq<Ex>, m: real)
    requires kids != []
    ensures Size(Scaled(kids[0], m)) == Size(kids[0]) && Nodes(kids) == Size(kids[0]) + Nodes(kids[1..])
  {
  }

  // The product of the multipliers of the nested products.
  function FlatFactor(kids: seq<Ex>): real
    decreases Nodes(kids)
  {
    if kids == [] then 1.0
    else if kids[0].name.Prod? then
      OpenedSize(kids);
      Times(kids[0].mult, FlatFactor(kids[0].kids + kids[1..]))
    else FlatFactor(kids[1..])
  }

  predicate HasNamed(kids: seq<Ex>, name: Name) {
    exists i :: 0 <= i < |kids| && kids[i].name == name
  }

  // cleanup_numericalflat: all multipliers gathered, pure numbers dropped.
  function Gathered(kids: seq<Ex>): real {
    if kids == [] then 1.0 else kids[0].mult * Gathered(kids[1..])
  }

  function Stripped(kids: seq<Ex>): (r: seq<Ex>)
    ensures |r| <= |kids|
  {
    if kids == [] then []
    else if kids[0].name.One? then Stripped(kids[1..])
    else [kids[0].(mult := 1.0)] + Stripped(kids[1..])
  }

  predicate AllUnit(kids: seq<Ex>) {
    forall i :: 0 <= i < |kids| ==> kids[i].mult == 1.0
  }

  // ... whether it changes anything.
  predicate GatherChanges(kids: seq<Ex>) {
    HasNamed(kids, One) || !AllUnit(kids)
  }

  function NumericalFlat(e: Ex): (Ex, bool) {
    (Node(e.name, e.mult * Gathered(e.kids), Stripped(e.kids)), GatherChanges(e.kids))
  }

  // push_down_multiplier: into the terms of a sum, and on into nested sums.
  function PushDown(e: Ex): (r: Ex)
    ensures Size(r) == Size(e)
    decreases Size(e), 1
  {
    if e.mult == 1.0 || !e.name.Sum? then e else Node(Sum, 1.0, PushAll(e.kids, e.mult))
  }

  function PushAll(kids: seq<Ex>, m: real): (r: seq<Ex>)
    ensures |r| == |kids| && Nodes(r) == Nodes(kids)
    decreases Nodes(kids), 2
  {
    if kids == [] then []
    else
      ScaledSize(kids, m);
      [PushDown(Scaled(kids[0], m))] + PushAll(kids[1..], m)
  }

  // Flatten nested products or, when there are none, gather the numbers.
  function FlattenOrGather(e: Ex): (Ex, bool) {
    if HasNamed(e.kids, Prod) then (Node(e.name, Times(e.mult, FlatFactor(e.kids)), FlatFactors(e.kids)), true)
    else NumericalFlat(e)
  }

  // A product of one factor is that factor, with the multiplier of the product;
  // a product of none is a number.
  function Collapse(n: Ex, changed: bool): (Ex, bool) {
    if |n.kids| == 1 then (PushDown(n.kids[0].(mult := n.mult)), true)
    else if |n.kids| == 0 then (n.(name := One), true)
    else (n, changed)
  }

  function ProductLike(e: Ex): (Ex, bool) {
    var (n, changed) := FlattenOrGather(e);
    Collapse(n, changed)
  }

  function NonZero(kids: seq<Ex>): (r: seq<Ex>)
    ensures |r| <= |kids|
  {
    if kids == [] then []
    else if kids[0].mult == 0.0 then NonZero(kids[1..])
    else [kids[0]] + NonZero(kids[1..])
  }

  function ScaleAll(kids: seq<Ex>, m: real): (r: seq<Ex>)
    ensures |r| == |kids| && forall i :: 0 <= i < |r| ==> r[i] == Scaled(kids[i], m)
  {
    seq(|kids|, i requires 0 <= i < |kids| => Scaled(kids[i], m))
  }

  // Nested sums opened, one level.
  function FlatTerms(kids: seq<Ex>): seq<Ex> {
    if kids == [] then []
    else if kids[0].name.Sum? then ScaleAll(kids[0].kids, kids[0].mult) + FlatTerms(kids[1..])
    else [kids[0]] + FlatTerms(kids[1..])
  }

  function SumLike(e: Ex): (Ex, bool) {
    var kids := NonZero(e.kids);
    if |kids| == 0 then (Node(e.name, 0.0, []), true)
    else if |kids| == 1 then (Scaled(kids[0], e.mult), true)
    else
      var flat := e.(kids := FlatTerms(kids));
      if |kids| < |e.kids| || HasNamed(kids, Sum) then (flat, true)
      else (PushDown(flat), e.mult != 1.0)
  }

  // One turn of the loop in cleanup_dispatch, after the test for zero. \prod is
  // the NumericalFlat name.
  function Turn(e: Ex): (Ex, bool) {
    var (e1, c1) := if e.name.Prod? then ProductLike(e) else (e, false);
    var (e2, c2) := if e1.name.Sum? then SumLike(e1) else (e1, false);
    var (e3, c3) := if e2.name.Prod? then NumericalFlat(e2) else (e2, false);
    (e3, c1 || c2 || c3)
  }

  predicate IsVanishing(e: Ex) {
    e.mult == 0.0 && (e.kids != [] || !e.name.One?)
  }

  const NOUGHT := Node(One, 0.0, [])

  // ------------------------------------------------------------- Termination

  function NonUnit(kids: seq<Ex>): nat {
    if kids == [] then 0 else (if kids[0].mult != 1.0 then 1 else 0) + NonUnit(kids[1..])
  }

  // Decreases with every turn that changes something without shrinking the tree.
  function Unrest(e: Ex): nat {
    if e.mult == 0.0 then 0
    else match e.name
      case Prod => 2 + NonUnit(e.kids)
      case Sum => if e.mult != 1.0 then 3 else 2
      case _ => 1
  }

  lemma {:induction false} FlatFactorsSize(kids: seq<Ex>)
    ensures Nodes(FlatFactors(kids)) <= Nodes(kids)
    ensures HasNamed(kids, Prod) ==> Nodes(FlatFactors(kids)) < Nodes(kids)
    ensures !HasNamed(kids, Prod) ==> FlatFactors(kids) == kids && FlatFactor(kids) == 1.0
    decreases Nodes(kids)
  {
    if kids != [] {
      if kids[0].name.Prod? {
        OpenedSize(kids);
        FlatFactorsSize(kids[0].kids + kids[1..]);
      } else {
        FlatFactorsSize(kids[1..]);
        NodesAppend([kids[0]], FlatFactors(kids[1..]));
        HasNamedTail(kids, Prod);
        assert kids == [kids[0]] + kids[1..];
        assert Nodes([kids[0]]) == Size(kids[0]) by { assert [kids[0]][1..] == []; }
      }
    }
  }

  lemma HasNamedTail(kids: seq<Ex>, name: Name)
    requires kids != []
    ensures HasNamed(kids, name) <==> kids[0].name == name || HasNamed(kids[1..], name)
  {
    if HasNamed(kids, name) {
      var i :| 0 <= i < |kids| && kids[i].name == name;
      if i > 0 { assert kids[1..][i - 1].name == name; }
    }
    if HasNamed(kids[1..], name) {
      var i :| 0 <= i < |kids[1..]| && kids[1..][i].name == name;
      assert kids[i + 1].name == name;
    }
  }

  lemma AllUnitTail(kids: seq<Ex>)
    requires kids != []
    ensures AllUnit(kids) <==> kids[0].mult == 1.0 && AllUnit(kids[1..])
  {
    if kids[0].mult == 1.0 && AllUnit(kids[1..]) {
      forall i | 0 <= i < |kids| ensures kids[i].mult == 1.0 { if i > 0 { assert kids[i] == kids[1..][i - 1]; } }
    }
  }

  lemma NothingNamed(kids: seq<Ex>, name: Name)
    requires kids == []
    ensures !HasNamed(kids, name) && AllUnit(kids)
  {
  }

  lemma {:induction false} StrippedSize(kids: seq<Ex>)
    ensures Nodes(Stripped(kids)) <= Nodes(kids)
    ensures HasNamed(kids, One) ==> Nodes(Stripped(kids)) < Nodes(kids)
    ensures AllUnit(Stripped(kids)) && !HasNamed(Stripped(kids), One)
    ensures !GatherChanges(kids) ==> Stripped(kids) == kids && Gathered(kids) == 1.0
    ensures AllUnit(kids) ==> Gathered(kids) == 1.0
  {
    hide HasNamed, AllUnit;
    if kids != [] {
      StrippedSize(kids[1..]);
      HasNamedTail(kids, One);
      AllUnitTail(kids);
      if !kids[0].name.One? {
        var k := kids[0].(mult := 1.0);
        NodesAppend([k], Stripped(kids[1..]));
        HasNamedTail(Stripped(kids), One);
        AllUnitTail(Stripped(kids));
        assert Nodes([k]) == Size(k) == Size(kids[0]) by { assert [k][1..] == []; }
        assert kids == [kids[0]] + kids[1..];
      }
    } else {
      NothingNamed(kids, One);
    }
  }

  lemma {:induction false} NonZeroSize(kids: seq<Ex>)
    ensures Nodes(NonZero(kids)) <= Nodes(kids)
    ensures |NonZero(kids)| < |kids| ==> Nodes(NonZero(kids)) < Nodes(kids)
    ensures |NonZero(kids)| == |kids| ==> NonZero(kids) == kids
    ensures forall i :: 0 <= i < |NonZero(kids)| ==> NonZero(kids)[i].mult != 0.0 && NonZero(kids)[i] in kids
  {
    if kids != [] {
      NonZeroSize(kids[1..]);
      assert kids == [kids[0]] + kids[1..];
      if kids[0].mult != 0.0 { ConsSize(kids[0], NonZero(kids[1..])); }
    }
  }

  lemma ConsSize(e: Ex, es: seq<Ex>)
    ensures Nodes([e] + es) == Size(e) + Nodes(es)
  {
    assert ([e] + es)[1..] == es;
  }

  lemma {:induction false} ScaleAllSize(kids: seq<Ex>, m: real)
    ensures Nodes(ScaleAll(kids, m)) == Nodes(kids)
  {
    if kids != [] {
      ScaleAllSize(kids[1..], m);
      ScaledSize(kids, m);
      assert ScaleAll(kids, m)[1..] == ScaleAll(kids[1..], m);
    }
  }

  lemma {:induction false} FlatTermsSize(kids: seq<Ex>)
    ensures Nodes(FlatTerms(kids)) <= Nodes(kids)
    ensures HasNamed(kids, Sum) ==> Nodes(FlatTerms(kids)) < Nodes(kids)
    ensures !HasNamed(kids, Sum) ==> FlatTerms(kids) == kids
  {
    if kids != [] {
      FlatTermsSize(kids[1..]);
      HasNamedTail(kids, Sum);
      if kids[0].name.Sum? {
        OpenedSize(kids);
        NodesAppend(kids[0].kids, kids[1..]);
        ScaleAllSize(kids[0].kids, kids[0].mult);
        NodesAppend(ScaleAll(kids[0].kids, kids[0].mult), FlatTerms(kids[1..]));
      } else {
        NodesAppend([kids[0]], FlatTerms(kids[1..]));
        assert Nodes([kids[0]]) == Size(kids[0]) by { assert [kids[0]][1..] == []; }
        assert kids == [kids[0]] + kids[1..];
      }
    }
  }

  // r is a changed version of e that brings the loop closer to its end.
  ghost predicate Progress(e: Ex, r: Ex) {
    Size(r) < Size(e) || (Size(r) == Size(e) && Unrest(r) < Unrest(e))
  }

  lemma {:induction false} NonUnitNone(kids: seq<Ex>)
    ensures NonUnit(kids) == 0 <==> AllUnit(kids)
  {
    if kids != [] {
      NonUnitNone(kids[1..]);
      AllUnitTail(kids);
    }
  }

  lemma NumericalFlatProgress(e: Ex)
    requires e.name.Prod? && e.mult != 0.0
    ensures var (r, c) := NumericalFlat(e);
            && (!c ==> r == e) && Size(r) <= Size(e) && (c ==> Progress(e, r)) && |r.kids| <= |e.kids| && r.name.Prod?
            && AllUnit(r.kids) && !HasNamed(r.kids, One)
  {
    StrippedSize(e.kids);
    NonUnitNone(Stripped(e.kids));
    NonUnitNone(e.kids);
  }

  lemma SizeOfOnly(e: Ex)
    requires |e.kids| == 1
    ensures Size(e.kids[0]) < Size(e)
  {
    assert e.kids[1..] == [];
    assert Nodes(e.kids) == Size(e.kids[0]) + Nodes(e.kids[1..]);
  }

  lemma FlattenOrGatherProgress(e: Ex)
    requires e.name.Prod? && e.mult != 0.0
    ensures var (n, c) := FlattenOrGather(e);
            && n.name.Prod? && (!c ==> n == e && !GatherChanges(n.kids)) && (c ==> Progress(e, n))
            && (Size(n) < Size(e) || !GatherChanges(n.kids))
  {
    hide FlatFactors, Stripped, Gathered, FlatFactor, GatherChanges;
    FlatFactorsSize(e.kids);
    StrippedSize(e.kids);
    NumericalFlatProgress(e);
    NothingToGather(Stripped(e.kids));
  }

  lemma NothingToGather(kids: seq<Ex>)
    ensures AllUnit(kids) && !HasNamed(kids, One) <==> !GatherChanges(kids)
  {
  }

  lemma CollapseProgress(n: Ex, changed: bool)
    requires n.name.Prod?
    ensures var r := Collapse(n, changed).0;
            && (|n.kids| == 1 ==> Size(r) < Size(n) && (r.name.Sum? ==> r.mult == 1.0))
            && (|n.kids| == 0 ==> Size(r) == Size(n) && r.name.One?)
  {
    if |n.kids| == 1 {
      SizeOfOnly(n);
      UnitPushDown(n.kids[0].(mult := n.mult));
      assert Size(n.kids[0].(mult := n.mult)) == Size(n.kids[0]);
    }
  }

  lemma EmptyProgress(e: Ex, n: Ex)
    requires e.name.Prod? && e.mult != 0.0 && (n == e || Progress(e, n)) && n.name.Prod? && n.kids == []
    ensures Progress(e, n.(name := One))
  {
    EmptyRests(n);
  }

  // A product that loses its last factor is a number, which rests.
  lemma EmptyRests(n: Ex)
    requires n.name.Prod? && n.kids == []
    ensures Size(n.(name := One)) == Size(n) && (n.mult != 0.0 ==> Unrest(n.(name := One)) < Unrest(n))
    ensures n.mult == 0.0 ==> Unrest(n.(name := One)) == 0
  {
  }

  lemma SumLikeProgress(e: Ex)
    requires e.name.Sum? && e.mult != 0.0
    ensures var (r, c) := SumLike(e); (!c ==> r == e) && (c ==> Progress(e, r)) && Size(r) <= Size(e)
  {
    hide PushDown, FlatTerms, NonZero;
    var kids := NonZero(e.kids);
    NonZeroSize(e.kids);
    if |kids| == 1 {
      SizeOfOnly(e.(kids := kids));
    } else if |kids| > 1 {
      FlatTermsSize(kids);
      UnitPushDown(e);
    }
  }

  lemma NumericalFlatSize(e: Ex)
    ensures Size(NumericalFlat(e).0) <= Size(e)
    ensures !GatherChanges(e.kids) ==> NumericalFlat(e).0 == e
  {
    StrippedSize(e.kids);
  }

  // The rest of a turn, after cleanup_productlike has made e1 of e.
  function Rest(e1: Ex): (Ex, bool) {
    var (e2, c2) := if e1.name.Sum? then SumLike(e1) else (e1, false);
    var (e3, c3) := if e2.name.Prod? then NumericalFlat(e2) else (e2, false);
    (e3, c2 || c3)
  }

  lemma TurnIsRest(e: Ex)
    ensures Turn(e) ==
      if e.name.Prod? then (Rest(ProductLike(e).0).0, ProductLike(e).1 || Rest(ProductLike(e).0).1) else Rest(e)
  {
  }

  lemma RestSize(e1: Ex)
    requires e1.name.Sum? ==> e1.mult != 0.0
    ensures Size(Rest(e1).0) <= Size(e1)
  {
    hide SumLike, NumericalFlat, Size;
    if e1.name.Sum? {
      SumLikeProgress(e1);
      NumericalFlatSize(SumLike(e1).0);
    } else {
      NumericalFlatSize(e1);
    }
  }

  lemma ProductTurn(e: Ex)
    requires e.name.Prod? && e.mult != 0.0
    ensures var (r, c) := Turn(e); (!c ==> r == e) && (c ==> Progress(e, r))
  {
    hide PushDown, FlattenOrGather, NumericalFlat, SumLike, Size, Unrest, Turn, GatherChanges;
    var (n, changed) := FlattenOrGather(e);
    FlattenOrGatherProgress(e);
    CollapseProgress(n, changed);
    TurnIsRest(e);
    var e1 := ProductLike(e).0;
    if |n.kids| == 0 {
      EmptyRests(n);
      EmptyProgress(e, n);
    } else if |n.kids| == 1 {
      RestSize(e1);
    } else {
      NumericalFlatSize(n);
      NumericalFlatFlag(n);
    }
  }

  lemma NumericalFlatFlag(e: Ex)
    ensures NumericalFlat(e).1 == GatherChanges(e.kids)
  {
  }

  // Every turn that changes something makes progress.
  lemma TurnProgress(e: Ex)
    requires !IsVanishing(e)
    ensures var (r, c) := Turn(e); (!c ==> r == e) && (c ==> Progress(e, r))
  {
    hide SumLike, NumericalFlat, Size, Unrest, Turn, Progress;
    TurnIsRest(e);
    if e.name.Prod? {
      ProductTurn(e);
    } else if e.name.Sum? {
      SumLikeProgress(e);
      SumTurn(e);
    }
  }

  lemma SumTurn(e: Ex)
    requires e.name.Sum? && e.mult != 0.0
    ensures var (r, c) := Rest(e); (!c ==> r == e) && (c ==> Progress(e, r))
  {
    hide PushDown, NonZero, FlatTerms;
    var (e2, c2) := SumLike(e);
    SumLikeProgress(e);
    if e2.name.Prod? {
      SumToProduct(e);
      NumericalFlatSize(e2);
    }
  }

  // cleanup_sumlike only leaves a product behind when that was the lone term.
  lemma SumToProduct(e: Ex)
    requires e.name.Sum? && SumLike(e).0.name.Prod?
    ensures SumLike(e).1 && Size(SumLike(e).0) < Size(e)
  {
    hide FlatTerms;
    var kids := NonZero(e.kids);
    NonZeroSize(e.kids);
    if |kids| == 1 { SizeOfOnly(e.(kids := kids)); }
  }

  lemma UnitPushDown(e: Ex)
    ensures e.mult == 1.0 ==> PushDown(e) == e
    ensures e.name.Sum? && e.mult != 1.0 ==> PushDown(e).mult == 1.0 && PushDown(e).name.Sum?
  {
  }

  // cleanup_dispatch: turns until nothing changes.
  function Dispatch(e: Ex): Ex
    decreases Size(e), Unrest(e)
  {
    if IsVanishing(e) then NOUGHT
    else
      var (r, changed) := Turn(e);
      TurnProgress(e);
      if changed then Dispatch(r) else r
  }

  // cleanup_dispatch_deep: children first.
  function DispatchDeep(e: Ex): Ex
    decreases e, 1
  {
    Dispatch(e.(kids := DispatchAll(e.kids)))
  }

  function DispatchAll(es: seq<Ex>): (r: seq<Ex>)
    ensures |r| == |es|
    decreases es, 0
  {
    if es == [] then [] else [DispatchDeep(es[0])] + DispatchAll(es[1..])
  }
}
