// What input_asym does to the permutations: one representative per class of
// permutations that differ by rearranging the values inside the ranges.

module Cosets {
  import opened Signs
  import opened Generator

  // permute() has sorted every range; no element is in two ranges.
  ghost predicate Ranges(P: Problem) {
    && (forall r, i, j :: 0 <= r < |P.inputAsym| && 0 <= i < j < |P.inputAsym[r]|
          ==> P.inputAsym[r][i] < P.inputAsym[r][j])
    && (forall r, s, x :: 0 <= r < s < |P.inputAsym| && x in P.inputAsym[r] ==> x !in P.inputAsym[s])
  }

  // Permutations of all elements.
  ghost predicate Permuting(P: Problem) {
    && P.WellFormed() && !P.multiplePick && P.weights == []
    && |P.sublengths| == P.n && (forall k :: 0 <= k < P.n ==> P.sublengths[k] == 1)
  }

  ghost predicate SameRange(P: Problem, x: nat, y: nat) {
    x == y || exists r :: 0 <= r < |P.inputAsym| && x in P.inputAsym[r] && y in P.inputAsym[r]
  }

  // w comes from p by rearranging the values inside the ranges.
  ghost predicate Rearranges(P: Problem, p: seq<nat>, w: seq<nat>) {
    |w| == |p| && forall k :: 0 <= k < |p| ==> SameRange(P, p[k], w[k])
  }

  // Members of a range turn up in increasing order.
  ghost predicate RangesInOrder(P: Problem, w: seq<nat>) {
    forall k :: 0 <= k < |w| ==> InTurn(P, Elems(w[..k]), w[k])
  }

  lemma {:induction false} UnitGroups(P: Problem, g: nat)
    requires Permuting(P) && g <= P.n
    ensures GroupEnd(P.sublengths, g) == g
  {
    if g > 0 { UnitGroups(P, g - 1); }
  }

  lemma UnitLowest(P: Problem, v: seq<nat>)
    requires Permuting(P) && |v| <= P.n
    ensures Lowest(P, v) == 0
  {
    UnitGroups(P, |v|);
  }

  // The permutations generated are those that keep every range in order.
  lemma PermutationsGenerated(P: Problem, w: seq<nat>)
    requires Permuting(P)
    ensures w in Generated(P) <==> |w| == P.n && IsPermutation(w) && RangesInOrder(P, w)
  {
    SearchMembers(P, [], {}, w);
    UnitGroups(P, P.n);
    if |w| == P.n && InRange(P.n, w) {
      forall k | 0 <= k < |w|
        ensures Admissible(P, w[..k], Elems(w[..k]), w[k]) <==> w[k] !in w[..k] && InTurn(P, Elems(w[..k]), w[k])
      {
        UnitLowest(P, w[..k]);
      }
      FreshIsDistinct(w);
    }
  }

  lemma FreshIsDistinct(w: seq<nat>)
    ensures Distinct(w) <==> forall k :: 0 <= k < |w| ==> w[k] !in w[..k]
  {
    if forall k :: 0 <= k < |w| ==> w[k] !in w[..k] {
      forall i, j | 0 <= i < j < |w| ensures w[i] != w[j] { assert w[j] !in w[..j] && w[..j][i] == w[i]; }
    }
  }

  // ------------------------------------------------------- At most one per class

  lemma {:induction false} RepresentativeUnique(P: Problem, p: seq<nat>, u: seq<nat>, w: seq<nat>, k: nat)
    requires Permuting(P) && Ranges(P) && |p| == P.n && k <= P.n
    requires u in Generated(P) && Rearranges(P, p, u)
    requires w in Generated(P) && Rearranges(P, p, w)
    ensures |u| == |w| == P.n && u[..k] == w[..k]
  {
    hide Generated, SameRange, RangesInOrder;
    PermutationsGenerated(P, u);
    PermutationsGenerated(P, w);
    if k > 0 {
      RepresentativeUnique(P, p, u, w, k - 1);
      var i := k - 1;
      SameRangeTransitive(P, u[i], p[i], w[i]);
      NotEarlier(P, u, w, i);
      NotEarlier(P, w, u, i);
      assert u[..k] == u[..i] + [u[i]] && w[..k] == w[..i] + [w[i]];
    }
  }

  lemma SameRangeTransitive(P: Problem, x: nat, y: nat, z: nat)
    requires Ranges(P) && SameRange(P, y, x) && SameRange(P, y, z)
    ensures SameRange(P, x, z)
  {
    if x != y && y != z {
      var r :| 0 <= r < |P.inputAsym| && y in P.inputAsym[r] && x in P.inputAsym[r];
      var s :| 0 <= s < |P.inputAsym| && y in P.inputAsym[s] && z in P.inputAsym[s];
      assert r == s;
    }
  }

  // Of two members of one range the smaller cannot be skipped.
  lemma NotEarlier(P: Problem, u: seq<nat>, w: seq<nat>, i: nat)
    requires Ranges(P) && i < |u| && i < |w| && u[..i] == w[..i] && Distinct(u)
    requires RangesInOrder(P, w) && SameRange(P, u[i], w[i])
    ensures u[i] >= w[i]
  {
    if u[i] != w[i] {
      var r :| 0 <= r < |P.inputAsym| && u[i] in P.inputAsym[r] && w[i] in P.inputAsym[r];
      var c :| 0 <= c < |P.inputAsym[r]| && P.inputAsym[r][c] == u[i];
      var d :| 0 <= d < |P.inputAsym[r]| && P.inputAsym[r][d] == w[i];
      assert InTurn(P, Elems(w[..i]), w[i]);
      assert u[i] !in u[..i] by { FreshIsDistinct(u); }
      assert !(c < d);
    }
  }

  // ------------------------------------------------------- At least one per class

  predicate IsIn(P: Problem, r: nat, x: nat) {
    r < |P.inputAsym| && x in P.inputAsym[r]
  }

  // Index of the range that holds x, or |inputAsym|.
  function RangeOf(P: Problem, x: nat, from: nat): (r: nat)
    requires from <= |P.inputAsym|
    ensures from <= r <= |P.inputAsym|
    ensures r < |P.inputAsym| ==> x in P.inputAsym[r]
    ensures r == |P.inputAsym| ==> forall s :: from <= s < |P.inputAsym| ==> x !in P.inputAsym[s]
    decreases |P.inputAsym| - from
  {
    if from == |P.inputAsym| || x in P.inputAsym[from] then from else RangeOf(P, x, from + 1)
  }

  // How many of the first k entries of p lie in range r.
  function Seen(P: Problem, p: seq<nat>, r: nat, k: nat): nat
    requires k <= |p|
  {
    if k == 0 then 0 else Seen(P, p, r, k - 1) + (if IsIn(P, r, p[k - 1]) then 1 else 0)
  }

  lemma {:induction false} SeenBound(P: Problem, p: seq<nat>, r: nat, k: nat) returns (had: set<nat>)
    requires r < |P.inputAsym| && Distinct(p) && k <= |p|
    ensures |had| == Seen(P, p, r, k)
    ensures forall x :: x in had <==> x in p[..k] && x in P.inputAsym[r]
  {
    if k == 0 {
      had := {};
    } else {
      var before := SeenBound(P, p, r, k - 1);
      FreshIsDistinct(p);
      had := if IsIn(P, r, p[k - 1]) then before + {p[k - 1]} else before;
      assert p[..k] == p[..k - 1] + [p[k - 1]];
    }
  }

  lemma SeenLess(P: Problem, p: seq<nat>, r: nat, k: nat)
    requires r < |P.inputAsym| && Distinct(p) && k < |p| && p[k] in P.inputAsym[r]
    ensures Seen(P, p, r, k) < |P.inputAsym[r]|
  {
    var had := SeenBound(P, p, r, k);
    FreshIsDistinct(p);
    var all := Elems(P.inputAsym[r]);
    ElemsSize(P.inputAsym[r]);
    assert had + {p[k]} <= all;
    SubsetSize(had + {p[k]}, all);
  }

  // The c-th member of a range goes where p has its c-th member of that range.
  ghost function Representative(P: Problem, p: seq<nat>): (w: seq<nat>)
    requires Distinct(p)
    ensures |w| == |p|
    ensures forall k :: 0 <= k < |p| ==> w[k] == Placed(P, p, k)
  {
    seq(|p|, k requires 0 <= k < |p| => Placed(P, p, k))
  }

  ghost function Placed(P: Problem, p: seq<nat>, k: nat): nat
    requires Distinct(p) && k < |p|
  {
    var r := RangeOf(P, p[k], 0);
    if r < |P.inputAsym| then (SeenLess(P, p, r, k); P.inputAsym[r][Seen(P, p, r, k)]) else p[k]
  }

  lemma {:induction false} SeenMonotone(P: Problem, p: seq<nat>, r: nat, j: nat, k: nat)
    requires j <= k <= |p|
    ensures Seen(P, p, r, j) <= Seen(P, p, r, k)
    decreases k
  {
    if j < k { SeenMonotone(P, p, r, j, k - 1); }
  }

  // Every smaller count was reached at an earlier slot of the same range.
  lemma {:induction false} SeenReached(P: Problem, p: seq<nat>, r: nat, c: nat, k: nat) returns (q: nat)
    requires k <= |p| && c < Seen(P, p, r, k)
    ensures q < k && IsIn(P, r, p[q]) && Seen(P, p, r, q) == c
  {
    if c < Seen(P, p, r, k - 1) {
      q := SeenReached(P, p, r, c, k - 1);
    } else {
      q := k - 1;
    }
  }

  lemma RangeOfIs(P: Problem, r: nat, x: nat)
    requires Ranges(P) && IsIn(P, r, x)
    ensures RangeOf(P, x, 0) == r
  {
  }

  lemma RepresentativeClass(P: Problem, p: seq<nat>)
    requires Ranges(P) && Distinct(p)
    ensures Rearranges(P, p, Representative(P, p))
  {
    var w := Representative(P, p);
    forall k | 0 <= k < |p| ensures SameRange(P, p[k], w[k]) {
      var r := RangeOf(P, p[k], 0);
      if r < |P.inputAsym| { SeenLess(P, p, r, k); }
    }
  }

  lemma RepresentativeDistinct(P: Problem, p: seq<nat>)
    requires Ranges(P) && Distinct(p)
    ensures Distinct(Representative(P, p))
  {
    var w := Representative(P, p);
    forall i, j | 0 <= i < j < |p| ensures w[i] != w[j] {
      PlacedDifferent(P, p, i, j);
    }
  }

  lemma PlacedIn(P: Problem, p: seq<nat>, k: nat)
    requires Ranges(P) && Distinct(p) && k < |p|
    ensures RangeOf(P, Placed(P, p, k), 0) == RangeOf(P, p[k], 0)
  {
    var r := RangeOf(P, p[k], 0);
    if r < |P.inputAsym| {
      SeenLess(P, p, r, k);
      RangeOfIs(P, r, Placed(P, p, k));
    }
  }

  lemma PlacedDifferent(P: Problem, p: seq<nat>, i: nat, j: nat)
    requires Ranges(P) && Distinct(p) && i < j < |p|
    ensures Placed(P, p, i) != Placed(P, p, j)
  {
    var r, s := RangeOf(P, p[i], 0), RangeOf(P, p[j], 0);
    PlacedIn(P, p, i);
    PlacedIn(P, p, j);
    if r < |P.inputAsym| { SeenLess(P, p, r, i); }
    if s < |P.inputAsym| { SeenLess(P, p, s, j); }
    if r == s < |P.inputAsym| {
      SeenMonotone(P, p, r, i + 1, j);
      var c, d := Seen(P, p, r, i), Seen(P, p, r, j);
      assert c < d;
    }
  }

  lemma RepresentativeInOrder(P: Problem, p: seq<nat>)
    requires Ranges(P) && Distinct(p)
    ensures RangesInOrder(P, Representative(P, p))
  {
    var w := Representative(P, p);
    forall k | 0 <= k < |w| ensures InTurn(P, Elems(w[..k]), w[k]) {
      forall s, kk, k2 | 0 <= s < |P.inputAsym| && 0 <= k2 < kk < |P.inputAsym[s]| && P.inputAsym[s][kk] == w[k]
        ensures P.inputAsym[s][k2] in Elems(w[..k])
      {
        PlacedBefore(P, p, k, s, kk, k2);
      }
    }
  }

  lemma PlacedBefore(P: Problem, p: seq<nat>, k: nat, s: nat, kk: nat, k2: nat)
    requires Ranges(P) && Distinct(p) && k < |p|
    requires s < |P.inputAsym| && k2 < kk < |P.inputAsym[s]| && P.inputAsym[s][kk] == Placed(P, p, k)
    ensures P.inputAsym[s][k2] in Representative(P, p)[..k]
  {
    var w := Representative(P, p);
    var r := RangeOf(P, p[k], 0);
    if r < |P.inputAsym| {
      SeenLess(P, p, r, k);
      assert P.inputAsym[r][Seen(P, p, r, k)] in P.inputAsym[r];
    }
    assert r == s && Seen(P, p, s, k) == kk;
    var q := SeenReached(P, p, s, k2, k);
    RangeOfIs(P, s, p[q]);
    assert w[..k][q] == w[q];
  }

  // Every permutation comes from exactly one generated permutation by
  // rearranging values inside the ranges.
  lemma CosetRepresentatives(P: Problem, p: seq<nat>)
    requires Permuting(P) && Ranges(P) && |p| == P.n && IsPermutation(p)
    ensures exists w :: w in Generated(P) && Rearranges(P, p, w)
    ensures forall u, w :: u in Generated(P) && Rearranges(P, p, u) && w in Generated(P) && Rearranges(P, p, w) ==>
      u == w
    ensures LexSorted(Generated(P))
  {
    var w := Representative(P, p);
    RepresentativeClass(P, p);
    RepresentativeDistinct(P, p);
    RepresentativeInOrder(P, p);
    forall k | 0 <= k < |w| ensures w[k] < |w| { PlacedInRange(P, p, k); }
    PermutationsGenerated(P, w);
    forall u, w | u in Generated(P) && Rearranges(P, p, u) && w in Generated(P) && Rearranges(P, p, w) ensures u == w {
      RepresentativeUnique(P, p, u, w, P.n);
      assert u[..P.n] == u && w[..P.n] == w;
    }
    SearchSorted(P, [], {});
  }

  lemma PlacedInRange(P: Problem, p: seq<nat>, k: nat)
    requires P.WellFormed() && |p| == P.n && IsPermutation(p) && k < |p|
    ensures Placed(P, p, k) < P.n
  {
    var r := RangeOf(P, p[k], 0);
    if r < |P.inputAsym| { SeenLess(P, p, r, k); }
  }
}
