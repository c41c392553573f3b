// The class combinations: permute() runs the backtracking nextstep() and hands
// every vector to vector_generated(), which stores the requested slice.

module CombinationsClass {
  import opened Signs
  import opened Generator

  function HadSet(algehad: seq<bool>): set<nat> {
    set i: nat | i < |algehad| && algehad[i]
  }

  lemma HadSetUpdate(algehad: seq<bool>, i: nat)
    requires i < |algehad|
    ensures HadSet(algehad[i := true]) == HadSet(algehad) + {i}
    ensures HadSet(algehad[i := true][i := false]) == HadSet(algehad) - {i}
  {
  }

  function SortRange(range: seq<nat>): (r: seq<nat>)
    ensures Sorted(r) && multiset(r) == multiset(range)
    ensures forall n :: InRange(n, range) ==> InRange(n, r)
  {
    var s := SortAscending(range);
    assert forall x :: x in s ==> x in range by {
      forall x | x in s ensures x in range { assert x in multiset(s); }
    }
    assert forall k :: 0 <= k < |s| ==> s[k] in range;
    s
  }

  lemma PickAllStep<T>(original: seq<T>, kept: seq<seq<nat>>, v: seq<nat>)
    requires AllInRange(|original|, kept) && InRange(|original|, v)
    ensures AllInRange(|original|, kept + [v])
      && PickAll(original, kept + [v]) == PickAll(original, kept) + [Pick(original, v)]
  {
  }

  class Combinations<T> {
    var original: seq<T>
    var sublengths: seq<nat>
    var inputAsym: seq<seq<nat>>
    var multiplePick: bool
    var weights: seq<seq<int>>
    var maxWeights: seq<int>
    var conditions: seq<WeightCondition>

    var temparr: seq<nat>
    var currentWeight: seq<int>
    var start: int
    var end: int
    var called: int
    // Arguments of the calls to vector_generated since permute() began.
    var calls: seq<seq<nat>>
    var storage: seq<seq<T>>

    constructor ()
      ensures original == [] && sublengths == [] && inputAsym == [] && !multiplePick
      ensures weights == [] && maxWeights == [] && conditions == [] && storage == [] && calls == []
    {
      original, sublengths, inputAsym, multiplePick := [], [], [], false;
      weights, maxWeights, conditions := [], [], [];
      temparr, currentWeight, start, end, called, calls, storage := [], [], -1, -1, -1, [], [];
    }

    function Config(): Problem
      reads this
    {
      Problem(|original|, sublengths, inputAsym, multiplePick, weights, maxWeights, conditions)
    }

    // The weight conditions, all of them WeightEquals when none are given.
    function Conditions(): seq<WeightCondition>
      reads this
    {
      if conditions == [] then seq(|weights|, _ => WeightEquals) else conditions
    }

    // set_unit_sublengths
    method SetUnitSublengths()
      modifies `sublengths
      ensures |sublengths| == |original| && forall k :: 0 <= k < |original| ==> sublengths[k] == 1
    {
      sublengths := [];
      for i := 0 to |original|
        invariant |sublengths| == i && forall k :: 0 <= k < i ==> sublengths[k] == 1
      {
        sublengths := sublengths + [1];
      }
    }

    // ----------------------------------------------------------- Recording

    // The calls so far have been counted, and those in the slice stored.
    ghost predicate Recorded(base: seq<seq<T>>)
      reads this
    {
      && called == |calls| - 1
      && AllInRange(|original|, calls)
      && AllInRange(|original|, Slice(calls, start, end))
      && storage == base + PickAll(original, Slice(calls, start, end))
    }

    method VectorGenerated(toadd: seq<nat>, ghost base: seq<seq<T>>)
      requires Recorded(base) && InRange(|original|, toadd)
      modifies `called, `calls, `storage
      ensures Recorded(base) && calls == old(calls) + [toadd]
    {
      SliceStep(calls, toadd, start, end);
      ghost var kept := Slice(calls, start, end);
      PickAllStep(original, kept, toadd);
      called := called + 1;
      if (start == -1 || called >= start) && (end == -1 || called < end) {
        var newone := NewOne(toadd);
        storage := storage + [newone];
      }
      calls := calls + [toadd];
    }

    // The picked elements of `original`, one by one.
    method NewOne(toadd: seq<nat>) returns (newone: seq<T>)
      requires InRange(|original|, toadd)
      ensures newone == Pick(original, toadd)
    {
      newone := [];
      for i := 0 to |toadd|
        invariant |newone| == i && forall k :: 0 <= k < i ==> newone[k] == original[toadd[k]]
      {
        newone := newone + [original[toadd[i]]];
      }
    }

    // ------------------------------------------------------------- Weights

    ghost predicate Weighed(v: seq<nat>)
      reads this
      requires Config().WellFormed() && InRange(|original|, v)
    {
      |currentWeight| == |weights| && forall cn :: 0 <= cn < |weights| ==> currentWeight[cn] == Config().Total(cn, v)
    }

    method IsAllowedByWeightConstraints(i: nat, ghost v: seq<nat>) returns (allowed: bool)
      requires Config().WellFormed() && InRange(|original|, v) && Weighed(v) && i < |original|
      ensures allowed <==> Light(Config(), v, i)
    {
      if |weights| == 0 { return true; }
      for cn := 0 to |currentWeight|
        invariant forall c :: 0 <= c < cn && conditions[c].WeightLess? ==>
          currentWeight[c] + weights[c][i] < maxWeights[c]
      {
        if conditions[cn].WeightLess? && currentWeight[cn] + weights[cn][i] >= maxWeights[cn] {
          return false;
        }
      }
      return true;
    }

    method FinalWeightConstraintsCheck(ghost v: seq<nat>) returns (ok: bool)
      requires Config().WellFormed() && InRange(|original|, v) && Weighed(v)
      ensures ok <==> FinalWeights(Config(), v)
    {
      for cn := 0 to |currentWeight|
        invariant forall c :: 0 <= c < cn ==> MeetsAtEnd(conditions[c], currentWeight[c], maxWeights[c])
      {
        match conditions[cn] {
          case WeightEquals => if currentWeight[cn] != maxWeights[cn] { return false; }
          case WeightLess =>
          case WeightGreater => if currentWeight[cn] <= maxWeights[cn] { return false; }
        }
      }
      return true;
    }

    method UpdateWeights(i: nat, ghost v: seq<nat>)
      requires Config().WellFormed() && InRange(|original|, v) && Weighed(v) && i < |original|
      modifies `currentWeight
      ensures InRange(|original|, v + [i]) && Weighed(v + [i])
    {
      if |weights| == 0 { return; }
      assert (v + [i])[..|v|] == v;
      for cn := 0 to |currentWeight|
        invariant |currentWeight| == |weights|
        invariant forall c :: cn <= c < |weights| ==> currentWeight[c] == Config().Total(c, v)
        invariant forall c :: 0 <= c < cn ==> currentWeight[c] == Config().Total(c, v + [i])
      {
        currentWeight := currentWeight[cn := currentWeight[cn] + weights[cn][i]];
      }
    }

    method RestoreWeights(i: nat, ghost v: seq<nat>)
      requires Config().WellFormed() && InRange(|original|, v) && i < |original|
      requires InRange(|original|, v + [i]) && Weighed(v + [i])
      modifies `currentWeight
      ensures Weighed(v)
    {
      if |weights| == 0 { return; }
      assert (v + [i])[..|v|] == v;
      for cn := 0 to |currentWeight|
        invariant |currentWeight| == |weights|
        invariant forall c :: 0 <= c < cn ==> currentWeight[c] == Config().Total(c, v)
        invariant forall c :: cn <= c < |weights| ==> currentWeight[c] == Config().Total(c, v + [i])
      {
        currentWeight := currentWeight[cn := currentWeight[cn] - weights[cn][i]];
      }
    }

    // ---------------------------------------------------------- input_asym

    // The scan over input_asym: some element due before i has not been had.
    method DiscardedByAsym(i: nat, algehad: seq<bool>) returns (discard: bool)
      requires Config().WellFormed() && |algehad| == |original|
      ensures discard <==> !InTurn(Config(), HadSet(algehad), i)
    {
      for k := 0 to |inputAsym|
        invariant forall r :: 0 <= r < k ==> RangeInTurn(inputAsym[r], HadSet(algehad), i)
      {
        discard := DiscardedByRange(inputAsym[k], i, algehad);
        if discard { return; }
      }
      discard := false;
    }

    method NextStep(current: nat, lowestInGroup: nat, groupIndex: nat, algehadIn: seq<bool>, ghost base: seq<seq<T>>)
      requires Config().WellFormed() && |algehadIn| == |original|
      requires current <= |temparr| == Config().Length()
      requires InRange(|original|, temparr[..current]) && Weighed(temparr[..current])
      requires Positioned(sublengths, current, groupIndex)
      requires lowestInGroup == if current == GroupEnd(sublengths, groupIndex) then 0 else temparr[current - 1]
      requires Recorded(base)
      modifies `temparr, `currentWeight, `called, `calls, `storage
      ensures Recorded(base)
      ensures calls == old(calls) + Search(Config(), old(temparr[..current]), HadSet(algehadIn))
      ensures |temparr| == |old(temparr)| && temparr[..current] == old(temparr[..current])
      ensures currentWeight == old(currentWeight)
      decreases Config().Length() - current, 3
    {
      ghost var P, v := Config(), temparr[..current];
      var group, lowest := groupIndex, lowestInGroup;
      var groupLen := SumTo(sublengths, groupIndex);
      if current == groupLen {
        group := group + 1;
        if group == |sublengths| {
          var ok := FinalWeightConstraintsCheck(v);
          assert temparr == v;
          if ok { VectorGenerated(temparr, base); }
          return;
        }
        lowest := 0;
      }
      GroupMiddle(P, current, groupIndex, group);
      assert lowest == Lowest(P, v);
      TryAll(current, lowest, group, algehadIn, base);
    }

    // The loop of nextstep over all elements; algehad is this call's own copy.
    method TryAll(current: nat, lowest: nat, group: nat, algehadIn: seq<bool>, ghost base: seq<seq<T>>)
      requires Config().WellFormed() && |algehadIn| == |original|
      requires current < |temparr| == Config().Length()
      requires InRange(|original|, temparr[..current]) && Weighed(temparr[..current])
      requires group < |sublengths| && GroupEnd(sublengths, group) <= current < GroupEnd(sublengths, group + 1)
      requires lowest == Lowest(Config(), temparr[..current])
      requires Recorded(base)
      modifies `temparr, `currentWeight, `called, `calls, `storage
      ensures Recorded(base)
      ensures calls == old(calls) + SearchFrom(Config(), old(temparr[..current]), HadSet(algehadIn), 0)
      ensures |temparr| == |old(temparr)| && temparr[..current] == old(temparr[..current])
      ensures currentWeight == old(currentWeight)
      decreases Config().Length() - current, 2
    {
      hide Admissible;
      ghost var P, v, had0 := Config(), temparr[..current], HadSet(algehadIn);
      var algehad := algehadIn;
      for i := 0 to |original|
        invariant |temparr| == P.Length() && temparr[..current] == v && |algehad| == |original|
        invariant currentWeight == old(currentWeight) && Recorded(base)
        invariant calls + SearchFrom(P, v, HadSet(algehad), i) == old(calls) + SearchFrom(P, v, had0, 0)
      {
        ghost var calls0, had := calls, HadSet(algehad);
        algehad := TryElement(current, lowest, group, algehad, i, base);
        TriedElement(P, v, had, i, calls0, calls, HadSet(algehad));
      }
    }

    // The body of nextstep's loop: element i in slot `current`, if admissible.
    method TryElement(current: nat, lowest: nat, group: nat, algehad: seq<bool>, i: nat, ghost base: seq<seq<T>>)
      returns (algehadOut: seq<bool>)
      requires Config().WellFormed() && |algehad| == |original|
      requires current < |temparr| == Config().Length() && i < |original|
      requires InRange(|original|, temparr[..current]) && Weighed(temparr[..current])
      requires group < |sublengths| && GroupEnd(sublengths, group) <= current < GroupEnd(sublengths, group + 1)
      requires lowest == Lowest(Config(), temparr[..current])
      requires Recorded(base)
      modifies `temparr, `currentWeight, `called, `calls, `storage
      ensures Recorded(base) && |algehadOut| == |algehad|
      ensures |temparr| == |old(temparr)| && temparr[..current] == old(temparr[..current])
      ensures currentWeight == old(currentWeight)
      ensures var P, v := Config(), old(temparr[..current]);
              if Admissible(P, v, HadSet(algehad), i)
              then calls == old(calls) + Search(P, v + [i], HadSet(algehad) + {i})
                && HadSet(algehadOut) == HadSet(algehad) - {i}
              else calls == old(calls) && algehadOut == algehad
      decreases Config().Length() - current, 1
    {
      ghost var v := temparr[..current];
      algehadOut := algehad;
      if algehad[i] && !multiplePick { return; }
      var allowed := IsAllowedByWeightConstraints(i, v);
      if !allowed { return; }
      var discard := DiscardedByAsym(i, algehad);
      if discard || i + 1 <= lowest { return; }
      PlaceElement(current, group, algehad[i := true], i, base);
      HadSetUpdate(algehad, i);
      algehadOut := algehad[i := true][i := false];
    }

    // Put i in slot `current`, search on, and undo the bookkeeping.
    method PlaceElement(current: nat, group: nat, algehad: seq<bool>, i: nat, ghost base: seq<seq<T>>)
      requires Config().WellFormed() && |algehad| == |original|
      requires current < |temparr| == Config().Length() && i < |original|
      requires InRange(|original|, temparr[..current]) && Weighed(temparr[..current])
      requires group < |sublengths| && GroupEnd(sublengths, group) <= current < GroupEnd(sublengths, group + 1)
      requires Recorded(base)
      modifies `temparr, `currentWeight, `called, `calls, `storage
      ensures Recorded(base)
      ensures |temparr| == |old(temparr)| && temparr[..current] == old(temparr[..current])
      ensures currentWeight == old(currentWeight)
      ensures calls == old(calls) + Search(Config(), old(temparr[..current]) + [i], HadSet(algehad))
      decreases Config().Length() - current, 0
    {
      ghost var v, weight0 := temparr[..current], currentWeight;
      UpdateWeights(i, v);
      temparr := temparr[current := i];
      assert temparr[..current + 1] == v + [i];
      NextStep(current + 1, i, group, algehad, base);
      assert temparr[..current] == temparr[..current + 1][..current];
      RestoreWeights(i, v);
      assert currentWeight == weight0;
    }

    // Vectors are handed out in the order of Generated, and the calls numbered
    // start up to end are stored.
    method Permute(start': int, end': int)
      requires |conditions| == |weights| || (|weights| > 0 && conditions == [])
      requires Config().(conditions := Conditions()).WellFormed()
      modifies this
      ensures original == old(original) && sublengths == old(sublengths) && multiplePick == old(multiplePick)
      ensures weights == old(weights) && maxWeights == old(maxWeights)
      ensures conditions == if old(conditions) == [] then seq(|weights|, _ => WeightEquals) else old(conditions)
      ensures inputAsym == SortRanges(old(inputAsym))
      ensures Config().WellFormed() && calls == Generated(Config())
      ensures called + 1 == |Generated(Config())|
      ensures AllInRange(|original|, Slice(calls, start', end'))
      ensures storage == old(storage) + PickAll(original, Slice(calls, start', end'))
      ensures forall cn :: 0 <= cn < |currentWeight| ==> currentWeight[cn] == 0
    {
      Prepare(start', end');
      var algehad := seq(|original|, _ => false);
      assert HadSet(algehad) == {} && temparr[..0] == [];
      NextStep(0, 0, 0, algehad, storage);
      assert currentWeight == seq(|weights|, _ => 0);
    }

    // The head of permute: weights, input_asym and the vector under construction.
    method Prepare(start': int, end': int)
      requires |conditions| == |weights| || (|weights| > 0 && conditions == [])
      requires Config().(conditions := Conditions()).WellFormed()
      modifies this
      ensures original == old(original) && sublengths == old(sublengths) && multiplePick == old(multiplePick)
      ensures weights == old(weights) && maxWeights == old(maxWeights) && storage == old(storage)
      ensures conditions == if old(conditions) == [] then seq(|weights|, _ => WeightEquals) else old(conditions)
      ensures inputAsym == SortRanges(old(inputAsym)) && Config().WellFormed()
      ensures start == start' && end == end' && calls == [] && |temparr| == Config().Length()
      ensures currentWeight == seq(|weights|, _ => 0) && Weighed([]) && Recorded(storage)
    {
      ghost var P := Config().(conditions := Conditions());
      SortedWellFormed(P);
      if |weights| > 0 && conditions == [] {
        conditions := seq(|weights|, _ => WeightEquals);
      }
      inputAsym := SortRanges(inputAsym);
      assert Config() == P.(inputAsym := SortRanges(P.inputAsym));
      currentWeight, temparr := seq(|weights|, _ => 0), seq(Config().Length(), _ => 0);
      StartRecording(start', end');
    }

    method StartRecording(start': int, end': int)
      modifies `start, `end, `called, `calls
      ensures start == start' && end == end' && calls == [] && Recorded(storage)
    {
      start, end, called, calls := start', end', -1, [];
      assert Slice(calls, start, end) == [];
      assert PickAll(original, []) == [];
    }
  }

  function SortRanges(ranges: seq<seq<nat>>): (r: seq<seq<nat>>)
    ensures |r| == |ranges| && forall k :: 0 <= k < |r| ==> r[k] == SortRange(ranges[k])
  {
    seq(|ranges|, k requires 0 <= k < |ranges| => SortRange(ranges[k]))
  }

  lemma SortedWellFormed(P: Problem)
    requires P.WellFormed()
    ensures P.(inputAsym := SortRanges(P.inputAsym)).WellFormed()
  {
    forall k | 0 <= k < |P.inputAsym| ensures InRange(P.n, SortRange(P.inputAsym[k])) {
      assert InRange(P.n, P.inputAsym[k]);
    }
  }

  lemma TriedElement(P: Problem, v: seq<nat>, had: set<nat>, i: nat,
                     before: seq<seq<nat>>, after: seq<seq<nat>>, hadAfter: set<nat>)
    requires P.WellFormed() && InRange(P.n, v) && |v| < P.Length() && i < P.n
    requires if Admissible(P, v, had, i)
             then after == before + Search(P, v + [i], had + {i}) && hadAfter == had - {i}
             else after == before && hadAfter == had
    ensures after + SearchFrom(P, v, hadAfter, i + 1) == before + SearchFrom(P, v, had, i)
  {
  }

  // Every element listed before i in the range has been had.
  ghost predicate RangeInTurn(range: seq<nat>, had: set<nat>, i: nat) {
    forall kk, k2 :: 0 <= k2 < kk < |range| && range[kk] == i ==> range[k2] in had
  }

  method DiscardedByRange(range: seq<nat>, i: nat, algehad: seq<bool>) returns (discard: bool)
    requires InRange(|algehad|, range)
    ensures discard <==> !RangeInTurn(range, HadSet(algehad), i)
  {
    for kk := 0 to |range|
      invariant forall l, k2 :: 0 <= k2 < l < kk && range[l] == i ==> range[k2] in HadSet(algehad)
    {
      if i == range[kk] {
        var k2 := kk;
        while k2 != 0
          invariant 0 <= k2 <= kk
          invariant forall l :: k2 <= l < kk ==> range[l] in HadSet(algehad)
        {
          k2 := k2 - 1;
          if !algehad[range[k2]] { return true; }
        }
      }
    }
    return false;
  }

  ghost predicate Positioned(sub: seq<nat>, current: nat, group: nat) {
    group < |sub| && GroupEnd(sub, group) <= current <= GroupEnd(sub, group + 1)
  }

  lemma GroupMiddle(P: Problem, current: nat, before: nat, group: nat)
    requires P.WellFormed() && Positioned(P.sublengths, current, before)
    requires group == if current == GroupEnd(P.sublengths, before + 1) then before + 1 else before
    requires group < |P.sublengths|
    ensures GroupEnd(P.sublengths, group) <= current < GroupEnd(P.sublengths, group + 1) <= P.Length()
    ensures GroupBoundary(P.sublengths, current) <==> current == GroupEnd(P.sublengths, group)
  {
    BoundaryIn(P.sublengths, group, current);
    GroupEndMonotone(P.sublengths, group + 1, |P.sublengths|);
  }

  // grouplen: the slots of the groups up to and including groupIndex.
  method SumTo(sub: seq<nat>, groupIndex: nat) returns (len: nat)
    requires groupIndex < |sub|
    ensures len == GroupEnd(sub, groupIndex + 1)
  {
    len := 0;
    for i := 0 to groupIndex + 1
      invariant len == GroupEnd(sub, i)
    {
      len := len + sub[i];
    }
  }
}
