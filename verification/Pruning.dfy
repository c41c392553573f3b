// Weights: the search prunes on the way down.

module Pruning {
  import opened Signs
  import opened Generator

  // ------------------------------------------------------------------ Weights

  ghost function Unweighted(P: Problem): Problem {
    P.(weights := [], maxWeights := [], conditions := [])
  }

  // The weight conditions on the finished vector.
  ghost predicate Meets(P: Problem, w: seq<nat>)
    requires P.WellFormed() && InRange(P.n, w)
  {
    && FinalWeights(P, w)
    && LightUpTo(P, w, |w|)
  }

  // The pruning conditions: every nonempty prefix stays below the bound.
  ghost predicate LightThroughout(P: Problem, w: seq<nat>)
    requires P.WellFormed() && InRange(P.n, w)
  {
    forall k :: 0 < k <= |w| ==> LightUpTo(P, w, k)
  }

  ghost predicate LightUpTo(P: Problem, w: seq<nat>, k: nat)
    requires P.WellFormed() && InRange(P.n, w) && k <= |w|
  {
    forall cn :: 0 <= cn < |P.weights| && P.conditions[cn].WeightLess? ==> P.Total(cn, w[..k]) < P.maxWeights[cn]
  }

  ghost predicate NonNegativeLess(P: Problem) {
    forall cn, i :: 0 <= cn < |P.weights| && cn < |P.conditions| && P.conditions[cn].WeightLess?
      && 0 <= i < |P.weights[cn]|
      ==> P.weights[cn][i] >= 0
  }

  lemma UnweightedWellFormed(P: Problem)
    requires P.WellFormed()
    ensures Unweighted(P).WellFormed() && Unweighted(P).Length() == P.Length()
  {
  }

  // Weights have no say in what is forgotten.
  lemma ForgetsUnweighted(P: Problem)
    ensures Forgets(Unweighted(P)) <==> Forgets(P)
  {
    forall b: nat ensures Waits(Unweighted(P), b) <==> Waits(P, b) {
      assert forall a: nat :: Preceding(Unweighted(P), a) == Preceding(P, a);
    }
  }

  lemma AdmissibleUnweighted(P: Problem, w: seq<nat>, k: nat)
    requires P.WellFormed() && InRange(P.n, w) && k < |w|
    ensures Admissible(P, w[..k], Elems(w[..k]), w[k]) <==>
      && Unweighted(P).WellFormed()
      && Admissible(Unweighted(P), w[..k], Elems(w[..k]), w[k])
      && LightUpTo(P, w, k + 1)
  {
    UnweightedWellFormed(P);
    assert w[..k + 1][..k] == w[..k] && w[..k + 1][k] == w[k];
    forall cn | 0 <= cn < |P.weights|
      ensures P.Total(cn, w[..k + 1]) == P.Total(cn, w[..k]) + P.weights[cn][w[k]] {}
    assert Lowest(P, w[..k]) == Lowest(Unweighted(P), w[..k]);
  }

  // Exactly what the search with weights keeps of the search without them.
  lemma WeightedMembers(P: Problem, w: seq<nat>)
    requires P.WellFormed() && !Forgets(P)
    ensures Unweighted(P).WellFormed()
    ensures w in Generated(P) <==>
      w in Generated(Unweighted(P)) && InRange(P.n, w) && FinalWeights(P, w) && LightThroughout(P, w)
  {
    UnweightedWellFormed(P);
    ForgetsUnweighted(P);
    SearchMembers(P, [], {}, w);
    SearchMembers(Unweighted(P), [], {}, w);
    if |w| == P.Length() && InRange(P.n, w) {
      forall k | 0 <= k < |w|
        ensures Admissible(P, w[..k], Elems(w[..k]), w[k]) <==>
          Admissible(Unweighted(P), w[..k], Elems(w[..k]), w[k]) && LightUpTo(P, w, k + 1)
      {
        AdmissibleUnweighted(P, w, k);
      }
    }
  }

  lemma {:induction false} TotalMonotone(P: Problem, cn: nat, w: seq<nat>, k: nat)
    requires P.WellFormed() && InRange(P.n, w) && NonNegativeLess(P)
    requires cn < |P.weights| && P.conditions[cn].WeightLess? && k <= |w|
    ensures P.Total(cn, w[..k]) <= P.Total(cn, w)
    decreases |w|
  {
    if k < |w| {
      var u := w[..|w| - 1];
      TotalMonotone(P, cn, u, k);
      assert u[..k] == w[..k];
    } else {
      assert w[..k] == w;
    }
  }

  ghost function Filter(P: Problem, vs: seq<seq<nat>>): seq<seq<nat>>
    requires P.WellFormed()
  {
    if vs == [] then [] else
      var us, x := vs[..|vs| - 1], vs[|vs| - 1];
      if InRange(P.n, x) && Meets(P, x) then Filter(P, us) + [x] else Filter(P, us)
  }

  lemma {:induction false} FilterMembers(P: Problem, vs: seq<seq<nat>>)
    requires P.WellFormed() && LexSorted(vs)
    ensures forall w :: w in Filter(P, vs) <==> w in vs && InRange(P.n, w) && Meets(P, w)
    ensures LexSorted(Filter(P, vs))
  {
    if vs != [] {
      var us, x := vs[..|vs| - 1], vs[|vs| - 1];
      FilterMembers(P, us);
      assert vs == us + [x];
      var F := Filter(P, us);
      forall a | 0 <= a < |F| ensures LexLess(F[a], x) {
        assert F[a] in us;
        var b :| 0 <= b < |us| && us[b] == F[a];
        assert LexLess(vs[b], vs[|vs| - 1]);
      }
    }
  }

  // Pruning on the way down is generate-then-filter, in the same order, as long
  // as the weights it prunes on cannot go down.
  lemma WeightedIsFiltered(P: Problem)
    requires P.WellFormed() && !Forgets(P) && NonNegativeLess(P)
    ensures Unweighted(P).WellFormed()
    ensures Generated(P) == Filter(P, Generated(Unweighted(P)))
  {
    UnweightedWellFormed(P);
    SearchSorted(P, [], {});
    SearchSorted(Unweighted(P), [], {});
    FilterMembers(P, Generated(Unweighted(P)));
    forall w ensures w in Generated(P) <==> w in Filter(P, Generated(Unweighted(P))) {
      WeightedMembers(P, w);
      if InRange(P.n, w) && w in Generated(Unweighted(P)) { NonNegativeLight(P, w); }
    }
    SortedUnique(Generated(P), Filter(P, Generated(Unweighted(P))));
  }

  lemma NonNegativeLight(P: Problem, w: seq<nat>)
    requires P.WellFormed() && Unweighted(P).WellFormed() && !Forgets(P) && NonNegativeLess(P)
    requires InRange(P.n, w) && w in Generated(Unweighted(P))
    ensures Meets(P, w) <==> FinalWeights(P, w) && LightThroughout(P, w)
  {
    ForgetsUnweighted(P);
    SearchMembers(Unweighted(P), [], {}, w);
    LengthPositive(P);
    if Meets(P, w) {
      forall k | 0 < k <= |w| ensures LightUpTo(P, w, k) {
        forall cn | 0 <= cn < |P.weights| && P.conditions[cn].WeightLess?
          ensures P.Total(cn, w[..k]) < P.maxWeights[cn]
        {
          TotalMonotone(P, cn, w, k);
          assert w[..|w|] == w;
        }
      }
    }
  }

  lemma LengthPositive(P: Problem)
    requires P.WellFormed()
    ensures P.Length() > 0
  {
    GroupEndMonotone(P.sublengths, 1, |P.sublengths|);
    assert GroupEnd(P.sublengths, 1) == P.sublengths[0];
  }

  // A negative weight breaks it: a vector whose total is fine is lost because a
  // prefix of it was too heavy.
  lemma NegativeWeightLosesVector(P: Problem)
    requires P == Problem(2, [1, 1], [], false, [[5, -5]], [1], [WeightLess])
    ensures P.WellFormed() && Unweighted(P).WellFormed() && InRange(2, [0, 1])
    ensures [0, 1] in Generated(Unweighted(P)) && Meets(P, [0, 1]) && [0, 1] !in Generated(P)
  {
    hide Generated;
    assert GroupEnd(P.sublengths, 1) == 1 && GroupEnd(P.sublengths, 2) == 2;
    var w: seq<nat> := [0, 1];
    NegativeTotals(P, w);
    WeightedMembers(P, w);
    TooHeavy(P, w);
    PlainGenerated(Unweighted(P));
    assert GroupBoundary(P.sublengths, 1);
    assert IsArrangement(Unweighted(P), w);
  }

  lemma TooHeavy(P: Problem, w: seq<nat>)
    requires P == Problem(2, [1, 1], [], false, [[5, -5]], [1], [WeightLess]) && w == [0, 1]
    requires P.WellFormed() && P.Total(0, w[..1]) == 5 && P.Total(0, w[..2]) == 0
    ensures !LightThroughout(P, w) && Meets(P, w)
  {
    assert P.conditions[0].WeightLess?;
    assert !LightUpTo(P, w, 1);
    assert FinalWeights(P, w);
  }

  lemma NegativeTotals(P: Problem, w: seq<nat>)
    requires P == Problem(2, [1, 1], [], false, [[5, -5]], [1], [WeightLess]) && w == [0, 1]
    ensures P.Total(0, w[..1]) == 5 && P.Total(0, w[..2]) == 0
  {
    assert w[..2] == w && w[..2][..1] == w[..1] && w[..1] == [0] && w[..1][..0] == [];
    assert P.weights[0] == [5, -5];
  }

  // Whatever else the request says, the totals of every vector produced are as the
  // conditions ask.
  lemma TotalsAsAsked(P: Problem, w: seq<nat>, cn: nat)
    requires P.WellFormed() && w in Generated(P) && cn < |P.weights|
    ensures InRange(P.n, w)
    ensures P.conditions[cn] == WeightEquals ==> P.Total(cn, w) == P.maxWeights[cn]
    ensures P.conditions[cn] == WeightGreater ==> P.Total(cn, w) > P.maxWeights[cn]
    ensures P.conditions[cn] == WeightLess ==> P.Total(cn, w) < P.maxWeights[cn]
  {
    SearchTraced(P, [], {}, w);
    LengthPositive(P);
    TracedTotals(P, w, 0, {}, cn);
  }

  lemma {:induction false} TracedTotals(P: Problem, w: seq<nat>, k: nat, had: set<nat>, cn: nat)
    requires P.WellFormed() && InRange(P.n, w) && k < |w| && Traced(P, w, k, had) && cn < |P.weights|
    ensures FinalWeights(P, w)
    ensures P.conditions[cn] == WeightLess ==> P.Total(cn, w) < P.maxWeights[cn]
    decreases |w| - k
  {
    hide FinalWeights;
    var h := HadBefore(P, w[..k], had, w[k]);
    if k + 1 < |w| {
      TracedTotals(P, w, k + 1, h + {w[k]}, cn);
    } else {
      assert w[..|w| - 1] == w[..k];
    }
  }

  // ------------------------------------------------- When pruning is filtering

  // What permute leaves of the ranges.
  ghost predicate RangesAscend(P: Problem) {
    forall r, i, j :: 0 <= r < |P.inputAsym| && 0 <= i < j < |P.inputAsym[r]|
      ==> P.inputAsym[r][i] <= P.inputAsym[r][j]
  }

  // Q asks for what P asks for, with weights of its own that cannot go down.
  ghost predicate Reweighs(P: Problem, Q: Problem) {
    Q.WellFormed() && Unweighted(Q) == Unweighted(P) && NonNegativeLess(Q)
  }

  ghost predicate PruningFilters(P: Problem) {
    forall Q :: Reweighs(P, Q) ==> Filters(Q)
  }

  ghost predicate Filters(Q: Problem)
    requires Q.WellFormed()
  {
    UnweightedWellFormed(Q);
    Generated(Q) == Filter(Q, Generated(Unweighted(Q)))
  }

  // Whatever the weights, as long as they cannot go down: pruning is filtering
  // exactly for the requests on which nothing is forgotten.
  lemma PruningIsFiltering(P: Problem)
    requires P.WellFormed() && RangesAscend(P)
    ensures PruningFilters(P) <==> !Forgets(P)
  {
    if Forgets(P) {
      var Q, w := ForgettingAddsVector(P);
      SearchSorted(Unweighted(Q), [], {});
      FilterMembers(Q, Generated(Unweighted(Q)));
      assert Reweighs(P, Q) && !Filters(Q);
    } else {
      forall Q | Reweighs(P, Q) ensures Filters(Q) {
        ForgetsUnweighted(P);
        ForgetsUnweighted(Q);
        WeightedIsFiltered(Q);
      }
    }
  }

  ghost predicate StrictlyAscends(s: seq<nat>) {
    forall i, j :: 0 <= i < j < |s| ==> s[i] < s[j]
  }

  ghost predicate Ascends(s: seq<nat>) {
    forall i, j :: 0 <= i < j < |s| ==> s[i] <= s[j]
  }

  lemma InOrder(S: set<nat>) returns (s: seq<nat>)
    ensures StrictlyAscends(s) && Elems(s) == S && |s| == |S|
  {
    if S == {} {
      s := [];
    } else {
      var m := Greatest(S);
      var t := InOrder(S - {m});
      s := t + [m];
      forall i | 0 <= i < |t| ensures t[i] < m { assert t[i] in Elems(t); }
      assert Elems(s) == Elems(t) + {m};
    }
  }

  lemma Greatest(S: set<nat>) returns (m: nat)
    requires S != {}
    ensures m in S && forall x: nat :: x in S ==> x <= m
  {
    var k: nat :| k in S;
    if S == {k} {
      m := k;
    } else {
      var n := Greatest(S - {k});
      m := if n < k then k else n;
      forall x: nat | x in S ensures x <= m { assert x == k || x in S - {k}; }
    }
  }

  // The elements b waits for, and then b.
  ghost predicate Waiting(P: Problem, b: nat, p: nat, w: seq<nat>)
    requires P.WellFormed()
  {
    && P.multiplePick && RangesAscend(P)
    && |w| == P.Length() && InRange(P.n, w) && Ascends(w)
    && 0 < p < |w|
    && Elems(w[..p]) == Preceding(P, b)
    && (forall k :: 0 <= k < p ==> w[k] < b && Preceding(P, w[k]) == {})
    && (forall k :: p <= k < |w| ==> w[k] == b)
  }

  lemma WaitingVector(P: Problem, b: nat) returns (p: nat, w: seq<nat>)
    requires P.WellFormed() && RangesAscend(P) && P.multiplePick && Waits(P, b)
    ensures Waiting(P, b, p, w)
  {
    var s := InOrder(Preceding(P, b));
    p := |s|;
    w := s + seq(P.Length() - p, i => b);
    assert w[..p] == s;
    forall k | 0 <= k < p ensures w[k] < b && w[k] < P.n && Preceding(P, w[k]) == {} {
      assert w[k] in Elems(s);
      BelowWaiting(P, b, w[k]);
    }
    WaitingInRange(P, b);
  }

  lemma BelowWaiting(P: Problem, b: nat, a: nat)
    requires P.WellFormed() && RangesAscend(P) && Waits(P, b) && a in Preceding(P, b)
    ensures a < b && a < P.n
  {
    var k, kk, k2 :| 0 <= k < |P.inputAsym| && 0 <= k2 < kk < |P.inputAsym[k]| && P.inputAsym[k][kk] == b
      && P.inputAsym[k][k2] == a;
    assert InRange(P.n, P.inputAsym[k]);
  }

  lemma WaitingInRange(P: Problem, b: nat)
    requires P.WellFormed() && Waits(P, b)
    ensures b < P.n
  {
    var a :| a in Preceding(P, b);
    var k, kk, k2 :| 0 <= k < |P.inputAsym| && 0 <= k2 < kk < |P.inputAsym[k]| && P.inputAsym[k][kk] == b
      && P.inputAsym[k][k2] == a;
    assert InRange(P.n, P.inputAsym[k]);
  }

  // Without weights the last element waited for is tried again just before b, and
  // so forgotten.
  lemma WaitingMissed(P: Problem, b: nat, p: nat, w: seq<nat>)
    requires P.WellFormed() && P.weights == [] && Waiting(P, b, p, w)
    ensures w !in Generated(P)
  {
    SearchTraced(P, [], {}, w);
    forall had ensures !Traced(P, w, p, had) {
      var a := w[p - 1];
      assert a in w[..p] && w[..p][p - 1] == a;
      InTurnIs(P, HadBefore(P, w[..p], had, a), a);
      HadShrinks(P, w[..p], had, a + 1, b);
      InTurnIs(P, HadBefore(P, w[..p], had, b), b);
    }
    if Traced(P, w, 0, {}) { TracedLater(P, w, {}, p); }
  }

  lemma {:induction false} TracedLater(P: Problem, w: seq<nat>, had: set<nat>, p: nat)
    requires P.WellFormed() && InRange(P.n, w) && p <= |w| && Traced(P, w, 0, had)
    ensures exists h :: Traced(P, w, p, h)
  {
    if p > 0 {
      TracedLater(P, w, had, p - 1);
      var h :| Traced(P, w, p - 1, h);
      assert Traced(P, w, p, HadBefore(P, w[..p - 1], h, w[p - 1]) + {w[p - 1]});
    }
  }

  lemma {:induction false} HadShrinks(P: Problem, v: seq<nat>, had: set<nat>, i: nat, j: nat)
    requires P.WellFormed() && InRange(P.n, v) && i <= j
    ensures HadBefore(P, v, had, j) <= HadBefore(P, v, had, i)
  {
    hide Admissible;
    if i < j { HadShrinks(P, v, had, i, j - 1); }
  }

  // Weights that allow every element just as often as w has it.
  ghost function Rationed(P: Problem, w: seq<nat>): Problem {
    P.(weights := seq(P.n, x => Indicator(P.n, x)),
       maxWeights := seq(P.n, x => multiset(w)[x] + 1),
       conditions := seq(P.n, x => WeightLess))
  }

  ghost function Indicator(n: nat, x: int): seq<int> {
    seq(n, i => if i == x then 1 else 0)
  }

  lemma RationedIsFine(P: Problem, w: seq<nat>)
    requires P.WellFormed()
    ensures Reweighs(P, Rationed(P, w))
  {
    var Q := Rationed(P, w);
    forall cn | 0 <= cn < |Q.weights| ensures |Q.weights[cn]| == Q.n && Q.weights[cn] == Indicator(P.n, cn) {}
  }

  lemma {:induction false} RationedTotal(P: Problem, w: seq<nat>, x: nat, v: seq<nat>)
    requires P.WellFormed() && Rationed(P, w).WellFormed() && x < P.n && InRange(P.n, v)
    ensures Rationed(P, w).Total(x, v) == multiset(v)[x]
  {
    var Q := Rationed(P, w);
    assert Q.weights[x] == Indicator(P.n, x);
    if v != [] {
      RationedTotal(P, w, x, v[..|v| - 1]);
      assert v == v[..|v| - 1] + [v[|v| - 1]];
    }
  }

  // So the next element is light enough exactly when w has more of it than v.
  lemma RationedLight(P: Problem, w: seq<nat>, v: seq<nat>, i: nat)
    requires P.WellFormed() && Rationed(P, w).WellFormed() && InRange(P.n, v) && i < P.n
    requires forall x :: x < P.n ==> multiset(v)[x] <= multiset(w)[x]
    ensures Light(Rationed(P, w), v, i) <==> multiset(v)[i] < multiset(w)[i]
  {
    var Q := Rationed(P, w);
    assert |Q.weights| == P.n;
    forall cn | 0 <= cn < P.n
      ensures Q.conditions[cn].WeightLess?
      ensures Q.Total(cn, v) + Q.weights[cn][i] < Q.maxWeights[cn]
         <==> (cn == i ==> multiset(v)[i] < multiset(w)[i])
    {
      RationedTotal(P, w, cn, v);
      assert Q.weights[cn] == Indicator(P.n, cn);
    }
    if Light(Q, v, i) {
      assert Q.conditions[i].WeightLess?;
    }
  }

  // Nothing below w[k] can be picked there any more: nothing is forgotten.
  lemma {:induction false} RationedKeeps(P: Problem, w: seq<nat>, k: nat, i: nat)
    requires P.WellFormed() && Rationed(P, w).WellFormed() && InRange(P.n, w) && Ascends(w) && k < |w| && i <= w[k]
    ensures HadBefore(Rationed(P, w), w[..k], Elems(w[..k]), i) == Elems(w[..k])
  {
    hide Rationed, Ascends, InTurn, Lowest, Light;
    if i > 0 {
      RationedKeeps(P, w, k, i - 1);
      PrefixCounts(w, k);
      RationedLight(P, w, w[..k], i - 1);
      AllBefore(w, k, i - 1);
    }
  }

  lemma PrefixCounts(w: seq<nat>, k: nat)
    requires k < |w|
    ensures forall x :: multiset(w[..k])[x] <= multiset(w)[x]
    ensures multiset(w[..k])[w[k]] < multiset(w)[w[k]]
  {
    assert w == w[..k] + [w[k]] + w[k + 1..];
  }

  lemma AllBefore(w: seq<nat>, k: nat, j: nat)
    requires Ascends(w) && k < |w| && j < w[k]
    ensures multiset(w[..k])[j] == multiset(w)[j]
  {
    assert w == w[..k] + w[k..];
    assert j !in multiset(w[k..]) by {
      assert forall i :: 0 <= i < |w[k..]| ==> w[k..][i] == w[k + i] >= w[k];
    }
  }

  lemma WaitingPick(P: Problem, b: nat, p: nat, w: seq<nat>, k: nat)
    requires P.WellFormed() && Rationed(P, w).WellFormed() && Waiting(P, b, p, w) && k < |w|
    ensures Admissible(Rationed(P, w), w[..k], Elems(w[..k]), w[k])
  {
    var Q := Rationed(P, w);
    PrefixCounts(w, k);
    RationedLight(P, w, w[..k], w[k]);
    InTurnIs(Q, Elems(w[..k]), w[k]);
    assert Preceding(Q, w[k]) == Preceding(P, w[k]);
    if k >= p {
      assert forall a :: a in w[..p] ==> a in w[..k];
    }
    if k > 0 { assert w[..k][k - 1] == w[k - 1] <= w[k]; }
  }

  lemma {:induction false} WaitingTraced(P: Problem, b: nat, p: nat, w: seq<nat>, k: nat)
    requires P.WellFormed() && Rationed(P, w).WellFormed() && Waiting(P, b, p, w) && k <= |w|
    ensures Traced(Rationed(P, w), w, k, Elems(w[..k]))
    decreases |w| - k
  {
    hide Admissible;
    if k < |w| {
      RationedKeeps(P, w, k, w[k]);
      WaitingPick(P, b, p, w, k);
      WaitingTraced(P, b, p, w, k + 1);
      assert Elems(w[..k + 1]) == Elems(w[..k]) + {w[k]} by { assert w[..k + 1] == w[..k] + [w[k]]; }
    }
  }

  // Pruning can then add a vector.
  lemma ForgettingAddsVector(P: Problem) returns (Q: Problem, w: seq<nat>)
    requires P.WellFormed() && RangesAscend(P) && Forgets(P)
    ensures Reweighs(P, Q) && Unweighted(Q).WellFormed()
    ensures w in Generated(Q) && w !in Generated(Unweighted(Q))
  {
    var b: nat :| Waits(P, b);
    var p;
    p, w := WaitingVector(P, b);
    Q := Rationed(P, w);
    RationedIsFine(P, w);
    WaitingFound(P, b, p, w);
    WaitingLost(P, b, p, w);
  }

  lemma WaitingFound(P: Problem, b: nat, p: nat, w: seq<nat>)
    requires P.WellFormed() && Rationed(P, w).WellFormed() && Waiting(P, b, p, w)
    ensures w in Generated(Rationed(P, w))
  {
    hide Rationed, Traced;
    WaitingTraced(P, b, p, w, 0);
    assert w[..0] == [] && Elems<nat>([]) == {};
    SearchTraced(Rationed(P, w), [], {}, w);
    RationedShape(P, w);
  }

  lemma RationedShape(P: Problem, w: seq<nat>)
    ensures Rationed(P, w).Length() == P.Length() && Rationed(P, w).n == P.n
    ensures Unweighted(Rationed(P, w)) == Unweighted(P)
  {
  }

  lemma WaitingLost(P: Problem, b: nat, p: nat, w: seq<nat>)
    requires P.WellFormed() && Rationed(P, w).WellFormed() && Waiting(P, b, p, w)
    ensures Unweighted(Rationed(P, w)).WellFormed() && w !in Generated(Unweighted(Rationed(P, w)))
  {
    hide Generated;
    RationedShape(P, w);
    var U := Unweighted(P);
    assert forall a: nat :: Preceding(U, a) == Preceding(P, a);
    assert U.Length() == P.Length();
    WaitingMissed(U, b, p, w);
  }

  // The smallest example: element 1 waits for element 0, both may be picked again.
  lemma PruningAddsVector(P: Problem)
    requires P == Problem(2, [1, 1], [[0, 1]], true, [[2, 1]], [4], [WeightLess])
    ensures P.WellFormed() && Unweighted(P).WellFormed() && NonNegativeLess(P) && RangesAscend(P)
    ensures [0, 1] in Generated(P) && [0, 1] !in Generated(Unweighted(P))
  {
    hide Generated, Waiting;
    var w: seq<nat> := [0, 1];
    SmallestWaits(P);
    SmallestFine(P);
    SmallestWaiting(P, w);
    WaitingMissed(Unweighted(P), 1, 1, w);
    SmallestFound(P, w);
  }

  lemma SmallestFine(P: Problem)
    requires P == Problem(2, [1, 1], [[0, 1]], true, [[2, 1]], [4], [WeightLess])
    ensures P.WellFormed() && P.Length() == 2 && NonNegativeLess(P) && RangesAscend(P) && Unweighted(P).WellFormed()
  {
    assert GroupEnd(P.sublengths, 1) == 1 && GroupEnd(P.sublengths, 2) == 2;
  }

  lemma SmallestFound(P: Problem, w: seq<nat>)
    requires P == Problem(2, [1, 1], [[0, 1]], true, [[2, 1]], [4], [WeightLess]) && w == [0, 1]
    requires P.WellFormed() && P.Length() == 2 && Preceding(P, 0) == {} && Preceding(P, 1) == {0}
    ensures w in Generated(P)
  {
    hide Search, Traced;
    SmallestTraced(P, w);
    SearchTraced(P, [], {}, w);
  }

  lemma SmallestWaits(P: Problem)
    requires P.inputAsym == [[0, 1]]
    ensures Preceding(P, 0) == {} && Preceding(P, 1) == {0}
  {
    assert P.inputAsym[0][1] == 1 && P.inputAsym[0][0] == 0;
    var range := P.inputAsym[0];
    assert |range| == 2 && |P.inputAsym| == 1;
  }

  lemma SmallestWaiting(P: Problem, w: seq<nat>)
    requires P == Problem(2, [1, 1], [[0, 1]], true, [[2, 1]], [4], [WeightLess]) && w == [0, 1]
    requires P.WellFormed() && P.Length() == 2 && Preceding(P, 0) == {} && Preceding(P, 1) == {0}
    ensures Unweighted(P).WellFormed() && Waiting(Unweighted(P), 1, 1, w)
  {
    hide Preceding;
    var U := Unweighted(P);
    SamePreceding(P, 0);
    SamePreceding(P, 1);
    assert U.multiplePick && |w| == U.Length() && InRange(U.n, w);
    assert w[..1] == [0] && Elems(w[..1]) == {0};
  }

  lemma SamePreceding(P: Problem, a: nat)
    ensures Preceding(Unweighted(P), a) == Preceding(P, a)
  {
  }

  lemma SmallestTraced(P: Problem, w: seq<nat>)
    requires P == Problem(2, [1, 1], [[0, 1]], true, [[2, 1]], [4], [WeightLess]) && w == [0, 1]
    requires P.WellFormed() && P.Length() == 2 && Preceding(P, 0) == {} && Preceding(P, 1) == {0}
    ensures Traced(P, w, 0, {})
  {
    InTurnIs(P, {}, 0);
    InTurnIs(P, {0}, 1);
    assert w[..0] == [] && w[..1] == [0] && w[..1][..0] == [];
    assert P.Total(0, w[..0]) == 0 && P.Total(0, w[..1]) == 2;
    assert P.conditions[0].WeightLess?;
    assert Admissible(P, w[..0], {}, 0);
    assert HadBefore(P, w[..1], {0}, 0) == {0};
    assert !Light(P, w[..1], 0) && Admissible(P, w[..1], {0}, 1);
    assert HadBefore(P, w[..1], {0}, 1) == {0};
    assert Traced(P, w, 2, {0, 1}) && {0} + {1} == {0, 1};
    assert Traced(P, w, 1, {0});
    assert {} + {0} == {0};
  }
}
