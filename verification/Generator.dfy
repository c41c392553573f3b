// The backtracking generator combinations_base::permute / nextstep, and the
// storage of its results by combinations.

module Generator {
  import opened Signs

  datatype WeightCondition = WeightEquals | WeightLess | WeightGreater

  // What permute is asked for; n is the number of elements of `original`.
  datatype Problem = Problem(
    n: nat,
    sublengths: seq<nat>,
    inputAsym: seq<seq<nat>>,
    multiplePick: bool,
    weights: seq<seq<int>>,
    maxWeights: seq<int>,
    conditions: seq<WeightCondition>)
  {
    // The assertions at the head of permute; sublengths are positive.
    ghost predicate WellFormed() {
      && sublengths != []
      && (forall k :: 0 <= k < |sublengths| ==> sublengths[k] > 0)
      && (!multiplePick ==> Length() <= n)
      && |weights| == |maxWeights| == |conditions|
      && (forall cn :: 0 <= cn < |weights| ==> |weights[cn]| == n)
      && (forall k :: 0 <= k < |inputAsym| ==> InRange(n, inputAsym[k]))
    }

    function Length(): nat {
      GroupEnd(sublengths, |sublengths|)
    }

    // Weight of kind cn carried by the picks v.
    ghost function Total(cn: nat, v: seq<nat>): int
      requires cn < |weights| && InRange(|weights[cn]|, v)
    {
      if v == [] then 0 else Total(cn, v[..|v| - 1]) + weights[cn][v[|v| - 1]]
    }
  }

  // Number of slots in the first g groups.
  function GroupEnd(sublengths: seq<nat>, g: nat): nat
    requires g <= |sublengths|
  {
    if g == 0 then 0 else GroupEnd(sublengths, g - 1) + sublengths[g - 1]
  }

  ghost predicate GroupBoundary(sublengths: seq<nat>, m: nat) {
    exists g: nat :: g <= |sublengths| && GroupEnd(sublengths, g) == m
  }

  ghost predicate InRange(n: nat, v: seq<nat>) {
    forall k :: 0 <= k < |v| ==> v[k] < n
  }

  // ------------------------------------------------------------- One choice

  // Smallest element that may be picked next: groups are filled in order.
  ghost function Lowest(P: Problem, v: seq<nat>): nat {
    if v == [] || GroupBoundary(P.sublengths, |v|) then 0 else v[|v| - 1]
  }

  // The elements that precede i in a range of input_asym have been had.
  predicate InTurn(P: Problem, had: set<nat>, i: nat) {
    forall k, kk, k2 :: 0 <= k < |P.inputAsym| && 0 <= k2 < kk < |P.inputAsym[k]| && P.inputAsym[k][kk] == i
      ==> P.inputAsym[k][k2] in had
  }

  ghost predicate Light(P: Problem, v: seq<nat>, i: nat)
    requires P.WellFormed() && InRange(P.n, v) && i < P.n
  {
    forall cn :: 0 <= cn < |P.weights| && P.conditions[cn].WeightLess?
      ==> P.Total(cn, v) + P.weights[cn][i] < P.maxWeights[cn]
  }

  predicate MeetsAtEnd(condition: WeightCondition, total: int, bound: int) {
    match condition
    case WeightEquals => total == bound
    case WeightLess => true
    case WeightGreater => total > bound
  }

  ghost predicate FinalWeights(P: Problem, v: seq<nat>)
    requires P.WellFormed() && InRange(P.n, v)
  {
    forall cn :: 0 <= cn < |P.weights| ==> MeetsAtEnd(P.conditions[cn], P.Total(cn, v), P.maxWeights[cn])
  }

  ghost predicate Admissible(P: Problem, v: seq<nat>, had: set<nat>, i: nat)
    requires P.WellFormed() && InRange(P.n, v)
  {
    && i < P.n
    && (i in had ==> P.multiplePick)
    && Light(P, v, i)
    && InTurn(P, had, i)
    && i >= Lowest(P, v)
  }

  // ------------------------------------------------------------- The search

  // Every vector produced after the picks v, in order of production.
  ghost function Search(P: Problem, v: seq<nat>, had: set<nat>): seq<seq<nat>>
    requires P.WellFormed() && InRange(P.n, v) && |v| <= P.Length()
    decreases P.Length() - |v|, P.n + 1
  {
    if |v| == P.Length() then (if FinalWeights(P, v) then [v] else [])
    else SearchFrom(P, v, had, 0)
  }

  // ... with a next pick that is at least i.
  ghost function SearchFrom(P: Problem, v: seq<nat>, had: set<nat>, i: nat): seq<seq<nat>>
    requires P.WellFormed() && InRange(P.n, v) && |v| < P.Length() && i <= P.n
    decreases P.Length() - |v|, P.n - i
  {
    if i == P.n then []
    else if Admissible(P, v, had, i) then
      Search(P, v + [i], had + {i}) + SearchFrom(P, v, had - {i}, i + 1)
    else
      SearchFrom(P, v, had, i + 1)
  }

  ghost function Generated(P: Problem): seq<seq<nat>>
    requires P.WellFormed()
  {
    Search(P, [], {})
  }

  // ------------------------------------------------------------- Groups

  lemma {:induction false} GroupEndMonotone(sub: seq<nat>, g: nat, h: nat)
    requires g <= h <= |sub|
    ensures GroupEnd(sub, g) <= GroupEnd(sub, h)
  {
    if g < h { GroupEndMonotone(sub, g, h - 1); }
  }

  lemma BoundaryIn(sub: seq<nat>, g: nat, m: nat)
    requires g < |sub| && GroupEnd(sub, g) <= m < GroupEnd(sub, g + 1)
    ensures GroupBoundary(sub, m) <==> m == GroupEnd(sub, g)
  {
    if GroupBoundary(sub, m) {
      var j: nat :| j <= |sub| && GroupEnd(sub, j) == m;
      if j <= g { GroupEndMonotone(sub, j, g); } else { GroupEndMonotone(sub, g + 1, j); }
    }
  }

  // ------------------------------------------------------------- Slices

  // The calls whose number lies in [start, end), where -1 stands for no bound.
  function Slice<A>(s: seq<A>, start: int, end: int): seq<A> {
    if Lo(|s|, start) <= Hi(|s|, end) then s[Lo(|s|, start)..Hi(|s|, end)] else []
  }

  function Lo(n: nat, start: int): (lo: nat)
    ensures lo <= n
  {
    if start < 0 then 0 else if start < n then start else n
  }

  function Hi(n: nat, end: int): (hi: nat)
    ensures hi <= n
  {
    if end == -1 || end > n then n else if end < 0 then 0 else end
  }

  ghost predicate InSlice(start: int, end: int, k: int) {
    (start == -1 || k >= start) && (end == -1 || k < end)
  }

  // Call number k is stored when it is not before start and before end, in order.
  lemma SliceSelects<A>(s: seq<A>, start: int, end: int) returns (lo: nat)
    requires start >= -1 && end >= -1
    ensures lo + |Slice(s, start, end)| <= |s| && Slice(s, start, end) == s[lo..lo + |Slice(s, start, end)|]
    ensures forall k :: 0 <= k < |s| ==>
      (InSlice(start, end, k) <==> lo <= k < lo + |Slice(s, start, end)|)
  {
    lo := if Slice(s, start, end) == [] then 0 else Lo(|s|, start);
    assert Slice(s, start, end) != [] ==> Lo(|s|, start) < Hi(|s|, end);
  }

  lemma SliceStep<A>(s: seq<A>, x: A, start: int, end: int)
    ensures Slice(s + [x], start, end) == Slice(s, start, end) +
      (if (start == -1 || |s| >= start) && (end == -1 || |s| < end) then [x] else [])
  {
    var lo, hi := Lo(|s|, start), Hi(|s|, end);
    if start <= |s| && (end == -1 || |s| < end) {
      TakeAppended(s, x, lo);
    } else if lo <= hi && start <= |s| {
      TakeOld(s, x, lo, hi);
    }
  }

  lemma TakeAppended<A>(s: seq<A>, x: A, lo: nat)
    requires lo <= |s|
    ensures (s + [x])[lo..|s| + 1] == s[lo..|s|] + [x]
  {
  }

  lemma TakeOld<A>(s: seq<A>, x: A, lo: nat, hi: nat)
    requires lo <= hi <= |s|
    ensures (s + [x])[lo..hi] == s[lo..hi]
  {
  }

  function Pick<T>(original: seq<T>, v: seq<nat>): seq<T>
    requires InRange(|original|, v)
  {
    seq(|v|, i requires 0 <= i < |v| => original[v[i]])
  }

  ghost predicate AllInRange(n: nat, vs: seq<seq<nat>>) {
    forall k :: 0 <= k < |vs| ==> InRange(n, vs[k])
  }

  function PickAll<T>(original: seq<T>, vs: seq<seq<nat>>): seq<seq<T>>
    requires AllInRange(|original|, vs)
  {
    seq(|vs|, k requires 0 <= k < |vs| => Pick(original, vs[k]))
  }

  // ------------------------------------------------------------- What is generated

  // What i must wait for: the elements listed before it in some range.
  ghost function Preceding(P: Problem, i: nat): set<nat> {
    set k, kk, k2 | 0 <= k < |P.inputAsym| && 0 <= k2 < kk < |P.inputAsym[k]| && P.inputAsym[k][kk] == i
      :: P.inputAsym[k][k2]
  }

  lemma InTurnIs(P: Problem, had: set<nat>, i: nat)
    ensures InTurn(P, had, i) <==> Preceding(P, i) <= had
  {
    if Preceding(P, i) <= had {
      forall k, kk, k2 | 0 <= k < |P.inputAsym| && 0 <= k2 < kk < |P.inputAsym[k]| && P.inputAsym[k][kk] == i
        ensures P.inputAsym[k][k2] in had
      {
        assert P.inputAsym[k][k2] in Preceding(P, i);
      }
    }
  }

  // ------------------------------------------- What the loop still has at element i

  // algehad when the loop of one slot comes to element i: whatever has been tried
  // in this slot is forgotten, even if it was picked for an earlier slot.
  ghost function HadBefore(P: Problem, v: seq<nat>, had: set<nat>, i: nat): set<nat>
    requires P.WellFormed() && InRange(P.n, v)
  {
    if i == 0 then had
    else
      var h := HadBefore(P, v, had, i - 1);
      if Admissible(P, v, h, i - 1) then h - {i - 1} else h
  }

  // Every pick from slot k on was admissible when the loop came to it, and the
  // weights are met in the end.
  ghost predicate Traced(P: Problem, w: seq<nat>, k: nat, had: set<nat>)
    requires P.WellFormed() && InRange(P.n, w) && k <= |w|
    decreases |w| - k
  {
    if k == |w| then FinalWeights(P, w)
    else
      var h := HadBefore(P, w[..k], had, w[k]);
      Admissible(P, w[..k], h, w[k]) && Traced(P, w, k + 1, h + {w[k]})
  }

  ghost predicate Produced(P: Problem, v: seq<nat>, had: set<nat>, w: seq<nat>)
    requires P.WellFormed()
  {
    v <= w && |w| == P.Length() && InRange(P.n, w) && Traced(P, w, |v|, had)
  }

  // The vectors produced from any state are exactly those, multiple picks within
  // ranges and all.
  lemma {:induction false} SearchTraced(P: Problem, v: seq<nat>, had: set<nat>, w: seq<nat>)
    requires P.WellFormed() && InRange(P.n, v) && |v| <= P.Length()
    ensures w in Search(P, v, had) <==> Produced(P, v, had, w)
    decreases P.Length() - |v|, P.n + 1
  {
    hide Admissible;
    if |v| < P.Length() {
      SearchFromTraced(P, v, had, 0, w);
    } else if v <= w && |w| == |v| {
      assert w == v;
    }
  }

  lemma {:induction false} SearchFromTraced(P: Problem, v: seq<nat>, had: set<nat>, i: nat, w: seq<nat>)
    requires P.WellFormed() && InRange(P.n, v) && |v| < P.Length() && i <= P.n
    ensures w in SearchFrom(P, v, HadBefore(P, v, had, i), i) <==> Produced(P, v, had, w) && w[|v|] >= i
    decreases P.Length() - |v|, P.n - i
  {
    hide Admissible, InRange;
    var h := HadBefore(P, v, had, i);
    InRangeAt(P.n, w, |v|);
    if i < P.n {
      InRangeMore(P.n, v, i);
      SearchFromTraced(P, v, had, i + 1, w);
      if Admissible(P, v, h, i) { SearchTraced(P, v + [i], h + {i}, w); }
      TracedSplit(P, v, had, i, w);
    }
  }

  lemma InRangeAt(n: nat, w: seq<nat>, k: nat)
    ensures InRange(n, w) && k < |w| ==> w[k] < n
  {
  }

  lemma InRangeMore(n: nat, v: seq<nat>, i: nat)
    requires InRange(n, v) && i < n
    ensures InRange(n, v + [i])
  {
  }

  lemma TracedSplit(P: Problem, v: seq<nat>, had: set<nat>, i: nat, w: seq<nat>)
    requires P.WellFormed() && InRange(P.n, v) && |v| < P.Length() && i < P.n && InRange(P.n, v + [i])
    ensures var h := HadBefore(P, v, had, i);
            Admissible(P, v, h, i) && Produced(P, v + [i], h + {i}, w) <==> Produced(P, v, had, w) && w[|v|] == i
  {
    hide Admissible;
    if v <= w && |w| > |v| {
      assert w[..|v|] == v;
      assert v + [i] <= w <==> w[|v|] == i by { assert w[..|v| + 1] == v + [w[|v|]]; }
    }
  }

  // ------------------------------------------------- When it keeps all the picks

  // With multiple_pick, trying an element again can make the loop forget it while
  // another one waits for it. That takes an element all of whose predecessors are
  // free, and fewer of them than there are slots.
  ghost predicate Forgets(P: Problem) {
    P.multiplePick && exists b: nat :: Waits(P, b)
  }

  ghost predicate Waits(P: Problem, b: nat) {
    0 < |Preceding(P, b)| < P.Length() && forall a :: a in Preceding(P, b) ==> Preceding(P, a) == {}
  }

  // One slot, or ranges without two different elements: nothing is forgotten.
  lemma NothingForgotten(P: Problem)
    requires P.Length() <= 1
      || forall r, i, j :: 0 <= r < |P.inputAsym| && 0 <= i < j < |P.inputAsym[r]| ==>
        P.inputAsym[r][i] == P.inputAsym[r][j]
    ensures !Forgets(P)
  {
    forall b: nat ensures !Waits(P, b) {
      if P.Length() > 1 && Preceding(P, b) != {} {
        var a :| a in Preceding(P, b);
        assert a == b;
      }
    }
  }

  // had agrees with the picks, as far as anyone can tell.
  ghost predicate HadPicks(P: Problem, v: seq<nat>, had: set<nat>) {
    if P.multiplePick then !Forgets(P) && had <= Elems(v) && forall x :: x in v ==> Preceding(P, x) == {}
    else had == Elems(v)
  }

  // Every slot from `from` on holds an admissible pick, and the weights are met.
  ghost predicate Chosen(P: Problem, w: seq<nat>, from: nat)
    requires P.WellFormed()
  {
    && |w| == P.Length()
    && InRange(P.n, w)
    && (forall k :: from <= k < |w| ==> Admissible(P, w[..k], Elems(w[..k]), w[k]))
    && FinalWeights(P, w)
  }

  // Nothing that waits for free elements only is ever in turn.
  lemma OnlyFree(P: Problem, v: seq<nat>, had: set<nat>, i: nat)
    requires P.multiplePick && HadPicks(P, v, had) && |v| < P.Length() && InTurn(P, Elems(v), i)
    ensures Preceding(P, i) == {}
  {
    InTurnIs(P, Elems(v), i);
    ElemsSize(v);
    SubsetSize(Preceding(P, i), Elems(v));
    assert forall a :: a in Preceding(P, i) ==> a in v;
    assert !Waits(P, i);
  }

  lemma HadIrrelevant(P: Problem, v: seq<nat>, had: set<nat>, i: nat)
    requires P.WellFormed() && InRange(P.n, v) && |v| < P.Length() && HadPicks(P, v, had)
    ensures Admissible(P, v, had, i) <==> Admissible(P, v, Elems(v), i)
    ensures Admissible(P, v, had, i) && P.multiplePick ==> Preceding(P, i) == {}
  {
    InTurnIs(P, had, i);
    InTurnIs(P, Elems(v), i);
    if P.multiplePick && InTurn(P, Elems(v), i) { OnlyFree(P, v, had, i); }
  }

  lemma HadNext(P: Problem, v: seq<nat>, had: set<nat>, i: nat)
    requires P.WellFormed() && InRange(P.n, v) && |v| < P.Length() && HadPicks(P, v, had) && Admissible(P, v, had, i)
    ensures HadPicks(P, v + [i], had + {i}) && HadPicks(P, v, had - {i})
  {
    HadIrrelevant(P, v, had, i);
    assert forall x :: x in v + [i] <==> x in v || x == i;
  }

  // Then the vectors produced are exactly the chosen ones.
  lemma {:induction false} SearchMembers(P: Problem, v: seq<nat>, had: set<nat>, w: seq<nat>)
    requires P.WellFormed() && InRange(P.n, v) && |v| <= P.Length() && HadPicks(P, v, had)
    ensures w in Search(P, v, had) <==> v <= w && Chosen(P, w, |v|)
    decreases P.Length() - |v|, P.n + 1
  {
    hide HadPicks, Admissible;
    if |v| < P.Length() {
      SearchFromMembers(P, v, had, 0, w);
    } else if v <= w && |w| == |v| {
      assert w == v;
    }
  }

  lemma {:induction false} SearchFromMembers(P: Problem, v: seq<nat>, had: set<nat>, i: nat, w: seq<nat>)
    requires P.WellFormed() && InRange(P.n, v) && |v| < P.Length() && i <= P.n && HadPicks(P, v, had)
    ensures w in SearchFrom(P, v, had, i) <==> v <= w && Chosen(P, w, |v|) && w[|v|] >= i
    decreases P.Length() - |v|, P.n - i
  {
    hide HadPicks, Admissible;
    if i < P.n {
      HadIrrelevant(P, v, had, i);
      if Admissible(P, v, had, i) {
        HadNext(P, v, had, i);
        SearchMembers(P, v + [i], had + {i}, w);
        SearchFromMembers(P, v, had - {i}, i + 1, w);
      } else {
        SearchFromMembers(P, v, had, i + 1, w);
      }
      PickSplit(P, v, i, w);
    }
  }

  lemma PickSplit(P: Problem, v: seq<nat>, i: nat, w: seq<nat>)
    requires P.WellFormed() && InRange(P.n, v) && |v| < P.Length() && i < P.n
    ensures v + [i] <= w && Chosen(P, w, |v| + 1) && Admissible(P, v, Elems(v), i)
       <==> v <= w && Chosen(P, w, |v|) && w[|v|] == i
  {
    hide Admissible;
    if v <= w && |w| > |v| {
      assert w[..|v|] == v;
      assert v + [i] <= w <==> w[|v|] == i by { assert w[..|v| + 1] == v + [w[|v|]]; }
    }
  }

  ghost predicate LexLess(u: seq<nat>, w: seq<nat>) {
    exists k :: 0 <= k < |u| && k < |w| && u[..k] == w[..k] && u[k] < w[k]
  }

  ghost predicate LexSorted(vs: seq<seq<nat>>) {
    forall a, b :: 0 <= a < b < |vs| ==> LexLess(vs[a], vs[b])
  }

  // Whatever has been had, the vectors found extend the picks.
  lemma {:induction false} SearchExtends(P: Problem, v: seq<nat>, had: set<nat>, w: seq<nat>)
    requires P.WellFormed() && InRange(P.n, v) && |v| <= P.Length() && w in Search(P, v, had)
    ensures v <= w
    decreases P.Length() - |v|, P.n + 1
  {
    hide Admissible;
    if |v| < P.Length() { SearchFromExtends(P, v, had, 0, w); }
  }

  lemma {:induction false} SearchFromExtends(P: Problem, v: seq<nat>, had: set<nat>, i: nat, w: seq<nat>)
    requires P.WellFormed() && InRange(P.n, v) && |v| < P.Length() && i <= P.n && w in SearchFrom(P, v, had, i)
    ensures v <= w && |w| > |v| && w[|v|] >= i
    decreases P.Length() - |v|, P.n - i
  {
    hide Admissible;
    if Admissible(P, v, had, i) && w in Search(P, v + [i], had + {i}) {
      SearchExtends(P, v + [i], had + {i}, w);
    } else if Admissible(P, v, had, i) {
      SearchFromExtends(P, v, had - {i}, i + 1, w);
    } else {
      SearchFromExtends(P, v, had, i + 1, w);
    }
  }

  // Vectors come out in strictly increasing lexicographic order, so each once.
  lemma {:induction false} SearchSorted(P: Problem, v: seq<nat>, had: set<nat>)
    requires P.WellFormed() && InRange(P.n, v) && |v| <= P.Length()
    ensures LexSorted(Search(P, v, had))
    decreases P.Length() - |v|, P.n + 1
  {
    hide Admissible;
    if |v| < P.Length() { SearchFromSorted(P, v, had, 0); }
  }

  lemma {:induction false} SearchFromSorted(P: Problem, v: seq<nat>, had: set<nat>, i: nat)
    requires P.WellFormed() && InRange(P.n, v) && |v| < P.Length() && i <= P.n
    ensures LexSorted(SearchFrom(P, v, had, i))
    decreases P.Length() - |v|, P.n - i
  {
    hide Admissible;
    if i < P.n {
      if Admissible(P, v, had, i) {
        InRangeMore(P.n, v, i);
        SearchSorted(P, v + [i], had + {i});
        SearchFromSorted(P, v, had - {i}, i + 1);
        var A, B := Search(P, v + [i], had + {i}), SearchFrom(P, v, had - {i}, i + 1);
        forall a, b | 0 <= a < |A| && 0 <= b < |B| ensures LexLess(A[a], B[b]) {
          SearchExtends(P, v + [i], had + {i}, A[a]);
          SearchFromExtends(P, v, had - {i}, i + 1, B[b]);
          LexAt(v, i, A[a], B[b]);
        }
        SortedConcat(A, B);
      } else {
        SearchFromSorted(P, v, had, i + 1);
      }
    }
  }

  lemma LexAt(v: seq<nat>, i: nat, u: seq<nat>, w: seq<nat>)
    requires v + [i] <= u && v <= w && |w| > |v| && w[|v|] > i
    ensures LexLess(u, w)
  {
    assert u[..|v|] == v == w[..|v|] && u[|v|] == i;
  }

  lemma SortedConcat(A: seq<seq<nat>>, B: seq<seq<nat>>)
    requires LexSorted(A) && LexSorted(B)
    requires forall a, b :: 0 <= a < |A| && 0 <= b < |B| ==> LexLess(A[a], B[b])
    ensures LexSorted(A + B)
  {
  }

  // Same members in strictly increasing order: same list.
  lemma {:induction false} SortedUnique(A: seq<seq<nat>>, B: seq<seq<nat>>)
    requires LexSorted(A) && LexSorted(B)
    requires forall w :: w in A <==> w in B
    ensures A == B
  {
    if A == [] {
      FirstMember(B);
    } else {
      assert A[0] in B;
      var j :| 0 <= j < |B| && B[j] == A[0];
      assert B[0] in A;
      var i :| 0 <= i < |A| && A[i] == B[0];
      LexAsymmetric(A[0], B[0]);
      SortedAt(A, 0, i);
      SortedAt(B, 0, j);
      assert j == 0;
      TailMembers(A, B);
      TailMembers(B, A);
      SortedUnique(A[1..], B[1..]);
      assert A == [A[0]] + A[1..] && B == [B[0]] + B[1..];
    }
  }

  lemma TailMembers(A: seq<seq<nat>>, B: seq<seq<nat>>)
    requires LexSorted(A) && A != [] && B != [] && A[0] == B[0]
    requires forall w :: w in A ==> w in B
    ensures forall w :: w in A[1..] ==> w in B[1..]
    ensures LexSorted(A[1..])
  {
    forall w | w in A[1..] ensures w in B[1..] {
      var k :| 0 <= k < |A[1..]| && A[1..][k] == w;
      LexAsymmetric(A[0], A[k + 1]);
      assert w in B;
    }
  }

  lemma LexAsymmetric(u: seq<nat>, w: seq<nat>)
    ensures LexLess(u, w) ==> u != w && !LexLess(w, u)
  {
    forall k, l | 0 <= k < |u| && k < |w| && u[..k] == w[..k] && u[k] < w[k] &&
                  0 <= l < |w| && l < |u| && w[..l] == u[..l]
      ensures w[l] >= u[l]
    {
      SamePrefix(u, w, k, l);
      SamePrefix(u, w, l, k);
    }
  }

  lemma SamePrefix(u: seq<nat>, w: seq<nat>, k: nat, j: nat)
    ensures k <= |u| && k <= |w| && u[..k] == w[..k] && j < k ==> u[j] == w[j]
  {
    if k <= |u| && k <= |w| && j < k { assert u[..k][j] == u[j] && w[..k][j] == w[j]; }
  }

  lemma SortedAt(A: seq<seq<nat>>, a: nat, b: nat)
    requires LexSorted(A)
    ensures a < b < |A| ==> LexLess(A[a], A[b])
  {
  }

  lemma FirstMember(A: seq<seq<nat>>)
    ensures A != [] ==> A[0] in A
  {
  }

  // ------------------------------------------------------- Plain combinations

  ghost predicate Plain(P: Problem) {
    P.WellFormed() && P.inputAsym == [] && P.weights == [] && !P.multiplePick
  }

  // Different elements, increasing inside every group.
  ghost predicate IsArrangement(P: Problem, w: seq<nat>) {
    && |w| == P.Length()
    && InRange(P.n, w)
    && Distinct(w)
    && forall k :: 0 < k < |w| && !GroupBoundary(P.sublengths, k) ==> w[k - 1] < w[k]
  }

  lemma PlainAdmissible(P: Problem, w: seq<nat>, k: nat)
    requires Plain(P) && InRange(P.n, w) && k < |w|
    ensures Admissible(P, w[..k], Elems(w[..k]), w[k]) <==>
      w[k] !in w[..k] && (k > 0 && !GroupBoundary(P.sublengths, k) ==> w[k - 1] < w[k])
  {
    if k > 0 && !GroupBoundary(P.sublengths, k) { assert w[..k][k - 1] == w[k - 1] && w[k - 1] in w[..k]; }
  }

  // The generator hands out exactly the arrangements, each once, in
  // lexicographic order.
  lemma PlainGenerated(P: Problem)
    requires Plain(P)
    ensures forall w :: w in Generated(P) <==> IsArrangement(P, w)
    ensures LexSorted(Generated(P))
  {
    forall w ensures w in Generated(P) <==> IsArrangement(P, w) {
      SearchMembers(P, [], {}, w);
      ChosenIsArrangement(P, w);
    }
    SearchSorted(P, [], {});
  }

  lemma ChosenIsArrangement(P: Problem, w: seq<nat>)
    requires Plain(P)
    ensures Chosen(P, w, 0) <==> IsArrangement(P, w)
  {
    if Chosen(P, w, 0) {
      forall k | 0 <= k < |w|
        ensures w[k] !in w[..k] && (k > 0 && !GroupBoundary(P.sublengths, k) ==> w[k - 1] < w[k])
      {
        PlainAdmissible(P, w, k);
      }
      forall i, j | 0 <= i < j < |w| ensures w[i] != w[j] { assert w[j] !in w[..j]; }
    }
    if IsArrangement(P, w) {
      forall k | 0 <= k < |w| ensures Admissible(P, w[..k], Elems(w[..k]), w[k]) {
        PlainAdmissible(P, w, k);
      }
    }
  }

  // The vector generated first leaves everything in place.
  lemma PlainFirst(P: Problem)
    requires Plain(P)
    ensures Generated(P) != [] && Generated(P)[0] == Identity(P.Length())
  {
    PlainGenerated(P);
    var id := Identity(P.Length());
    assert IsArrangement(P, id);
    var i :| 0 <= i < |Generated(P)| && Generated(P)[i] == id;
    var w := Generated(P)[0];
    assert w in Generated(P);
    IdentityLeast(w);
    SortedAt(Generated(P), 0, i);
  }

  lemma IdentityLeast(w: seq<nat>)
    requires Distinct(w)
    ensures !LexLess(w, Identity(|w|))
  {
    var id := Identity(|w|);
    forall k | 0 <= k < |w| && w[..k] == id[..k] ensures w[k] >= id[k] {
      var j := w[k];
      SamePrefix(w, id, k, j);
    }
  }
}
