// pre_clean_dispatch_deep: which trees it can rewrite, and what they are worth then.

module PreCleanWalk {
  import opened Expressions
  import opened CleanupRules
  import opened CleanupTheorems
  import opened PreCleanRules

  // ------------------------------------------------------------- On the input tree

  // Whether the tree comes out with multiplier zero.
  predicate Zero(e: Ex)
    decreases e, 1
  {
    || e.mult == 0.0
    || e.name == Number(0.0)
    || (e.name.Frac? && |e.kids| > 1 && Zero(e.kids[0]) && NoneZero(e.kids[1..]))
  }

  predicate NoneZero(es: seq<Ex>)
    decreases es, 0
  {
    forall i :: 0 <= i < |es| ==> !Zero(es[i])
  }

  predicate EveryZero(es: seq<Ex>) {
    forall i :: 0 <= i < |es| ==> Zero(es[i])
  }

  // Every fraction has an argument, and every difference has two, not all zero.
  predicate Posed(e: Ex) {
    && (forall i :: 0 <= i < |e.kids| ==> Posed(e.kids[i]))
    && (e.name.Frac? ==> e.kids != [])
    && (e.name.Sub? ==> |e.kids| > 1 && !EveryZero(e.kids))
  }

  predicate AllPosed(es: seq<Ex>) {
    forall i :: 0 <= i < |es| ==> Posed(es[i])
  }

  // No fraction in the tree is zero over zero.
  predicate NoZeroOverZero(e: Ex) {
    && (forall i :: 0 <= i < |e.kids| ==> NoZeroOverZero(e.kids[i]))
    && !(e.name.Frac? && |e.kids| > 1 && Zero(e.kids[0]) && !NoneZero(e.kids[1..]))
  }

  predicate AllNoZeroOverZero(es: seq<Ex>) {
    forall i :: 0 <= i < |es| ==> NoZeroOverZero(es[i])
  }

  // ---------------------------------------------------------- The walk, bottom up

  function PreDeep(e: Ex): (r: Ex)
    requires Posed(e)
    ensures r.mult == 0.0 <==> Zero(e)
    decreases e, 3
  {
    assert AllPosed(e.kids);
    var n := e.(kids := PreAll(e.kids));
    PosedAdmissible(e, n);
    PreRule(n)
  }

  function PreAll(es: seq<Ex>): (r: seq<Ex>)
    requires AllPosed(es)
    ensures |r| == |es| && forall i :: 0 <= i < |es| ==> (r[i].mult == 0.0 <==> Zero(es[i]))
    decreases es, 2
  {
    if es == [] then []
    else
      assert AllPosed(es[1..]);
      [PreDeep(es[0])] + PreAll(es[1..])
  }

  // n is e with children rewritten, of which only the zeros matter here.
  lemma PosedAdmissible(e: Ex, n: Ex)
    requires Posed(e) && n == e.(kids := n.kids) && |n.kids| == |e.kids|
    requires forall i :: 0 <= i < |e.kids| ==> (n.kids[i].mult == 0.0 <==> Zero(e.kids[i]))
    ensures Admissible(n) && (PreRule(n).mult == 0.0 <==> Zero(e))
    ensures NoZeroOverZero(e) ==> !ZeroOverZero(n)
  {
    hide PreRule, Zero;
    assert EveryZero(e.kids) <==> AllZero(n.kids);
    if e.kids != [] { ZeroTails(e.kids[1..], n.kids[1..]); }
    PreRuleZero(n);
    ZeroIs(e);
  }

  lemma ZeroIs(e: Ex)
    ensures Zero(e) <==>
      || e.mult == 0.0
      || e.name == Number(0.0)
      || (e.name.Frac? && |e.kids| > 1 && Zero(e.kids[0]) && NoneZero(e.kids[1..]))
  {
  }

  lemma ZeroTails(es: seq<Ex>, ns: seq<Ex>)
    requires |ns| == |es| && forall i :: 0 <= i < |es| ==> (ns[i].mult == 0.0 <==> Zero(es[i]))
    ensures NoneZero(es) <==> NoZeros(ns)
  {
    hide Zero;
  }

  // ------------------------------------------------------------ With the assertions

  datatype Outcome<A> = Done(value: A) | Failed

  // The same walk, stopping where an assertion of cleanup_frac or cleanup_sub fails.
  function Walk(e: Ex): Outcome<Ex>
    decreases e, 1
  {
    match WalkAll(e.kids)
    case Failed => Failed
    case Done(kids) => if Admissible(e.(kids := kids)) then Done(PreRule(e.(kids := kids))) else Failed
  }

  function WalkAll(es: seq<Ex>): Outcome<seq<Ex>>
    decreases es, 0
  {
    if es == [] then Done([])
    else
      match Walk(es[0])
      case Failed => Failed
      case Done(first) =>
        match WalkAll(es[1..])
        case Failed => Failed
        case Done(rest) => Done([first] + rest)
  }

  // They all hold exactly on the well posed trees.
  lemma {:induction false} WalkSucceeds(e: Ex)
    ensures Walk(e) == if Posed(e) then Done(PreDeep(e)) else Failed
    decreases e, 1
  {
    hide PreRule, Zero;
    WalkAllSucceeds(e.kids);
    if AllPosed(e.kids) {
      var n := e.(kids := PreAll(e.kids));
      assert EveryZero(e.kids) <==> AllZero(n.kids);
    }
  }

  lemma {:induction false} WalkAllSucceeds(es: seq<Ex>)
    ensures WalkAll(es) == if AllPosed(es) then Done(PreAll(es)) else Failed
    decreases es, 0
  {
    hide Posed, Walk, PreDeep, Zero;
    if es != [] {
      WalkSucceeds(es[0]);
      WalkAllSucceeds(es[1..]);
      assert AllPosed(es) <==> Posed(es[0]) && AllPosed(es[1..]) by { PosedTail(es); }
    }
  }

  lemma PosedTail(es: seq<Ex>)
    requires es != []
    ensures AllPosed(es) <==> Posed(es[0]) && AllPosed(es[1..])
  {
    hide Posed;
    if Posed(es[0]) && AllPosed(es[1..]) {
      forall i | 0 <= i < |es| ensures Posed(es[i]) { if i > 0 { assert es[i] == es[1..][i - 1]; } }
    }
  }

  // ------------------------------------------------------------------- Values

  // pre_clean_dispatch_deep keeps the value.
  lemma {:induction false} PreDeepValue<V(!new)>(M: Model<V>, e: Ex)
    requires IsAlgebra(M) && Posed(e) && (NoZeroOverZero(e) || AddsUp(M))
    ensures Value(M, PreDeep(e)) == Value(M, e)
    decreases e, 1
  {
    hide IsAlgebra, AddsUp, PreRule, Zero;
    assert AllPosed(e.kids) && (NoZeroOverZero(e) ==> AllNoZeroOverZero(e.kids));
    PreAllValue(M, e.kids);
    var n := e.(kids := PreAll(e.kids));
    PosedAdmissible(e, n);
    PreRuleValue(M, n);
  }

  lemma {:induction false} PreAllValue<V(!new)>(M: Model<V>, es: seq<Ex>)
    requires IsAlgebra(M) && AllPosed(es) && (AllNoZeroOverZero(es) || AddsUp(M))
    ensures Values(M, PreAll(es)) == Values(M, es)
    decreases es, 0
  {
    hide IsAlgebra, AddsUp, Value, PreDeep, Posed, NoZeroOverZero, Zero;
    if es != [] {
      PosedTail(es);
      assert AllNoZeroOverZero(es) ==> AllNoZeroOverZero(es[1..]);
      PreDeepValue(M, es[0]);
      PreAllValue(M, es[1..]);
      ConsValues(M, PreDeep(es[0]), PreAll(es[1..]));
    }
  }

  // pre_clean_dispatch_deep followed by cleanup_dispatch_deep: a tree in normal
  // form with the value of the original, in every algebra and under every
  // interpretation of the opaque nodes.
  lemma CleanedValue<V(!new)>(M: Model<V>, e: Ex)
    requires IsAlgebra(M) && Posed(e) && (NoZeroOverZero(e) || AddsUp(M))
    ensures Value(M, DispatchDeep(PreDeep(e))) == Value(M, e)
    ensures Clean(DispatchDeep(PreDeep(e)))
  {
    hide IsAlgebra, AddsUp, Value, PreDeep, DispatchDeep, Clean, Posed, NoZeroOverZero, Zero;
    PreDeepValue(M, e);
    DeepValue(M, PreDeep(e));
    DeepClean(PreDeep(e));
  }
}
