// match_subproduct: the factors of a pattern are found among the factors of a
// product, with backtracking.

module Matching {
  import opened Signs
  import opened Moving

  // P are the factors of the pattern, E those of the product, B the bindings made
  // so far. equal says whether a pattern factor matches a factor, and what the
  // bindings are afterwards; when it does not match they may be anything.
  datatype Task<!P, !E(==), !B> = Task(
    lhs: seq<P>, prod: seq<E>, equal: (B, P, E) -> (bool, B), swap: (E, E) -> int, conditions: B -> bool)

  // -------------------------------------------------------------- What is found

  // The bindings after the first k pattern factors have been matched at ls.
  ghost predicate Chained<P, E, B>(T: Task<P, E, B>, bindings: B, ls: seq<nat>, chain: seq<B>) {
    && |chain| == |ls| + 1 && chain[0] == bindings && |ls| <= |T.lhs|
    && (forall k :: 0 <= k < |ls| ==> ls[k] < |T.prod|)
    && (forall k :: 0 <= k < |ls| ==> T.equal(chain[k], T.lhs[k], T.prod[ls[k]]) == (true, chain[k + 1]))
  }

  // Two matched factors in a row can be made neighbours in the order of the pattern.
  ghost predicate CanFollow<P, E, B>(T: Task<P, E, B>, ls: seq<nat>, k: nat)
    requires 0 < k < |ls|
  {
    && ls[k - 1] < |T.prod| && ls[k] < |T.prod| && ls[k - 1] != ls[k]
    && MovingSign(T.swap, T.prod, ls[k - 1], ls[k], false) != 0
  }

  // An injective assignment of all pattern factors to factors of the product that
  // matches consistently, can be moved together and meets the conditions.
  ghost predicate IsMatch<P, E, B>(T: Task<P, E, B>, bindings: B, ls: seq<nat>, chain: seq<B>) {
    && Chained(T, bindings, ls, chain) && |ls| == |T.lhs| && Distinct(ls)
    && (forall k :: 0 < k < |ls| ==> CanFollow(T, ls, k))
    && T.conditions(chain[|ls|])
  }

  // --------------------------------------------------------------- Step by step

  function SignTo<P, E, B>(T: Task<P, E, B>, locs: seq<nat>, start: nat): int
    requires start < |T.prod| && start !in locs && forall i :: 0 <= i < |locs| ==> locs[i] < |T.prod|
  {
    if locs == [] then 1 else MovingSign(T.swap, T.prod, locs[|locs| - 1], start, false)
  }

  ghost predicate InProduct<P, E, B>(T: Task<P, E, B>, locs: seq<nat>) {
    forall i :: 0 <= i < |locs| ==> locs[i] < |T.prod|
  }

  // The next pattern factor may be matched at position start.
  ghost predicate Usable<P, E, B>(T: Task<P, E, B>, bindings: B, locs: seq<nat>, t: nat, start: nat) {
    && t < |T.lhs| && start < |T.prod| && start !in locs && InProduct(T, locs)
    && T.equal(bindings, T.lhs[t], T.prod[start]).0 && SignTo(T, locs, start) != 0
  }

  // ls matches the pattern factors from t on, given what has been matched before.
  ghost predicate Fits<P, E, B>(T: Task<P, E, B>, bindings: B, locs: seq<nat>, t: nat, ls: seq<nat>)
    decreases ls
  {
    if ls == [] then t == |T.lhs| && T.conditions(bindings)
    else
      && Usable(T, bindings, locs, t, ls[0])
      && Fits(T, T.equal(bindings, T.lhs[t], T.prod[ls[0]]).1, locs + [ls[0]], t + 1, ls[1..])
  }

  ghost predicate Reaches<P, E, B>(T: Task<P, E, B>, bindings: B, locs: seq<nat>, t: nat) {
    exists ls :: Fits(T, bindings, locs, t, ls)
  }

  // No assignment in ls comes before it in lexicographic order.
  ghost predicate Least<P, E, B>(T: Task<P, E, B>, bindings: B, locs: seq<nat>, t: nat, ls: seq<nat>) {
    forall other :: Fits(T, bindings, locs, t, other) ==> NotAfter(ls, other)
  }

  predicate NotAfter(a: seq<nat>, b: seq<nat>) {
    a == [] || (b != [] && (a[0] < b[0] || (a[0] == b[0] && NotAfter(a[1..], b[1..]))))
  }

  // The bindings and signs that a fitting assignment leaves behind.
  ghost function BindingsAfter<P, E, B>(T: Task<P, E, B>, bindings: B, t: nat, ls: seq<nat>): B
    decreases ls
  {
    if ls == [] || t >= |T.lhs| || ls[0] >= |T.prod| then bindings
    else BindingsAfter(T, T.equal(bindings, T.lhs[t], T.prod[ls[0]]).1, t + 1, ls[1..])
  }

  ghost function SignsAfter<P, E, B>(T: Task<P, E, B>, locs: seq<nat>, ls: seq<nat>): seq<int>
    decreases ls
  {
    if ls == [] || ls[0] >= |T.prod| || ls[0] in locs || !InProduct(T, locs) then []
    else [SignTo(T, locs, ls[0])] + SignsAfter(T, locs + [ls[0]], ls[1..])
  }

  // The first usable position whose continuation fits.
  lemma FirstFit<P, E, B>(T: Task<P, E, B>, bindings: B, locs: seq<nat>, signs: seq<int>, t: nat, start: nat,
      rest: seq<nat>)
    requires Usable(T, bindings, locs, t, start)
    requires forall ls :: Fits(T, bindings, locs, t, ls) ==> ls != [] && ls[0] >= start
    requires var more := T.equal(bindings, T.lhs[t], T.prod[start]).1;
             Fits(T, more, locs + [start], t + 1, rest) && Least(T, more, locs + [start], t + 1, rest)
    ensures Fits(T, bindings, locs, t, [start] + rest) && Least(T, bindings, locs, t, [start] + rest)
    ensures BindingsAfter(T, bindings, t, [start] + rest)
      == BindingsAfter(T, T.equal(bindings, T.lhs[t], T.prod[start]).1, t + 1, rest)
    ensures signs + SignsAfter(T, locs, [start] + rest)
      == signs + [SignTo(T, locs, start)] + SignsAfter(T, locs + [start], rest)
  {
    assert ([start] + rest)[1..] == rest;
    forall other | Fits(T, bindings, locs, t, other) ensures NotAfter([start] + rest, other) {
      if other[0] == start { assert NotAfter(rest, other[1..]); }
    }
  }

  // ------------------------------------------------------------ What is recorded

  // The signs recorded for the locations from number n on: 1 for the first pattern
  // factor, and for each later one that of making it a neighbour of the one before.
  ghost predicate Recorded<P, E, B>(T: Task<P, E, B>, locs: seq<nat>, n: nat, signs: seq<int>) {
    && n + |signs| == |locs|
    && forall k :: 0 <= k < |signs| ==> RecordedAt(T, locs, n + k, signs[k])
  }

  ghost predicate RecordedAt<P, E, B>(T: Task<P, E, B>, locs: seq<nat>, j: nat, sign: int)
    requires j < |locs|
  {
    if j == 0 then sign == 1
    else CanFollow(T, locs, j) && sign == MovingSign(T.swap, T.prod, locs[j - 1], locs[j], false)
  }

  // ls is a match that leaves the bindings `after`, and no match comes before it.
  ghost predicate FirstMatch<P, E, B(!new)>(T: Task<P, E, B>, was: B, ls: seq<nat>, after: B) {
    && (exists chain :: IsMatch(T, was, ls, chain) && after == chain[|ls|])
    && forall other, chain :: IsMatch(T, was, other, chain) ==> other == ls || Precedes(ls, other)
  }

  ghost predicate Precedes(a: seq<nat>, b: seq<nat>) {
    exists k :: 0 <= k < |a| && k < |b| && a[..k] == b[..k] && a[k] < b[k]
  }

  // ----------------------------------------------------------------- The search

  class Comparator<P, E(==), B(!new)> {
    const task: Task<P, E, B>
    // replacement_map and subtree_replacement_map
    var bindings: B
    var factorLocations: seq<nat>
    var factorMovingSigns: seq<int>

    constructor (task: Task<P, E, B>, bindings: B)
      ensures this.task == task && this.bindings == bindings && factorLocations == [] && factorMovingSigns == []
    {
      this.task, this.bindings, factorLocations, factorMovingSigns := task, bindings, [], [];
    }

    // The locations have been extended by the first assignment that fits.
    ghost predicate Found(was: B, locs: seq<nat>, signs: seq<int>, t: nat)
      reads this
    {
      && locs <= factorLocations
      && var ls := factorLocations[|locs|..];
      && Fits(task, was, locs, t, ls) && Least(task, was, locs, t, ls)
      && bindings == BindingsAfter(task, was, t, ls)
      && factorMovingSigns == signs + SignsAfter(task, locs, ls)
    }

    // Nothing has changed, and no fitting assignment starts before `from`.
    ghost predicate NotFound(was: B, locs: seq<nat>, signs: seq<int>, t: nat, from: nat)
      reads this
    {
      && bindings == was && factorLocations == locs && factorMovingSigns == signs
      && forall ls :: Fits(task, was, locs, t, ls) ==> ls != [] && ls[0] >= from
    }

    method MatchSubproduct(tofind: nat) returns (found: bool)
      requires tofind < |task.lhs| && InProduct(task, factorLocations)
      modifies this
      ensures found <==> Reaches(task, old(bindings), old(factorLocations), tofind)
      ensures !found ==>
        bindings == old(bindings) && factorLocations == old(factorLocations)
        && factorMovingSigns == old(factorMovingSigns)
      ensures found ==> Found(old(bindings), old(factorLocations), old(factorMovingSigns), tofind)
      ensures found ==>
        old(factorLocations) <= factorLocations && old(factorMovingSigns) <= factorMovingSigns
        && Recorded(task, factorLocations, |old(factorLocations)|, factorMovingSigns[|old(factorMovingSigns)|..])
      ensures found && tofind == 0 && old(factorLocations) == [] ==>
        FirstMatch(task, old(bindings), factorLocations, bindings)
      decreases |task.lhs| - tofind, 2
    {
      hide Found, Least, Usable, Recorded, FirstMatch, Fits;
      found := false;
      ghost var was, locs, signs := bindings, factorLocations, factorMovingSigns;
      var start := 0;
      FitsNeeds(task, was, locs, tofind);
      while start < |task.prod|
        invariant start <= |task.prod| && NotFound(was, locs, signs, tofind, start)
        decreases |task.prod| - start
      {
        if start !in factorLocations {
          found := TryFactor(tofind, start);
          if found {
            FoundReaches(was, locs, signs, tofind);
            FoundRecorded(was, locs, signs, tofind);
            if tofind == 0 && locs == [] { FoundFirst(was, signs); }
            return;
          }
        } else {
          UsedIsUnusable(task, was, locs, tofind, start);
        }
        start := start + 1;
      }
      FitsBounded(task, was, locs, tofind);
    }

    lemma FoundReaches(was: B, locs: seq<nat>, signs: seq<int>, t: nat)
      requires Found(was, locs, signs, t)
      ensures Reaches(task, was, locs, t)
    {
    }

    lemma FoundRecorded(was: B, locs: seq<nat>, signs: seq<int>, t: nat)
      requires Found(was, locs, signs, t)
      ensures locs <= factorLocations && signs <= factorMovingSigns
      ensures Recorded(task, factorLocations, |locs|, factorMovingSigns[|signs|..])
    {
      var ls := factorLocations[|locs|..];
      assert factorLocations == locs + ls;
      SignsRecorded(task, was, locs, t, ls);
      assert factorMovingSigns[|signs|..] == SignsAfter(task, locs, ls);
    }

    lemma FoundFirst(was: B, signs: seq<int>)
      requires Found(was, [], signs, 0)
      ensures FirstMatch(task, was, factorLocations, bindings)
    {
      assert factorLocations[0..] == factorLocations;
      LeastIsFirst(task, was, factorLocations, bindings);
    }

    // The body of its loop, for a factor that has not been used yet.
    method TryFactor(tofind: nat, start: nat) returns (found: bool)
      requires tofind < |task.lhs| && InProduct(task, factorLocations) && start < |task.prod|
        && start !in factorLocations
      requires NotFound(bindings, factorLocations, factorMovingSigns, tofind, start)
      modifies this
      ensures found ==> Found(old(bindings), old(factorLocations), old(factorMovingSigns), tofind)
      ensures !found ==> NotFound(old(bindings), old(factorLocations), old(factorMovingSigns), tofind, start + 1)
      decreases |task.lhs| - tofind, 1
    {
      hide Least, Usable, MovingSign, Fits, BindingsAfter, SignsAfter;
      found := false;
      ghost var locs, signs := factorLocations, factorMovingSigns;
      var backup := bindings;
      FirstUsable(task, backup, locs, tofind, start);
      var (equal, more) := task.equal(bindings, task.lhs[tofind], task.prod[start]);
      bindings := more;
      if !equal {
        bindings := backup;
        return;
      }
      var sign := 1;
      if |factorLocations| > 0 {
        sign := CanMoveAdjacent(task.swap, task.prod, factorLocations[|factorLocations| - 1], start, false);
      }
      if sign == 0 {
        bindings := backup;
        return;
      }
      found := UseFactor(tofind, start, sign, backup);
    }

    // ... that is equal and can be moved: go on with the next one, undo when that fails.
    method UseFactor(tofind: nat, start: nat, sign: int, backup: B) returns (found: bool)
      requires start < |task.prod| && Usable(task, backup, factorLocations, tofind, start)
      requires bindings == task.equal(backup, task.lhs[tofind], task.prod[start]).1
      requires sign == SignTo(task, factorLocations, start)
      requires forall ls :: Fits(task, backup, factorLocations, tofind, ls) ==> ls != [] && ls[0] >= start
      modifies this
      ensures found ==> Found(backup, old(factorLocations), old(factorMovingSigns), tofind)
      ensures !found ==> NotFound(backup, old(factorLocations), old(factorMovingSigns), tofind, start + 1)
      decreases |task.lhs| - tofind, 0
    {
      hide Least, MovingSign, Fits, BindingsAfter, SignsAfter, SignTo;
      ghost var locs, signs, more := factorLocations, factorMovingSigns, bindings;
      FirstUsable(task, backup, locs, tofind, start);
      factorLocations := factorLocations + [start];
      factorMovingSigns := factorMovingSigns + [sign];
      if tofind + 1 < |task.lhs| {
        found := MatchSubproduct(tofind + 1);
      } else {
        LastFactor(task, more, locs + [start], tofind + 1);
        found := task.conditions(bindings);
      }
      if found {
        ghost var rest := factorLocations[|locs| + 1..];
        FirstFit(task, backup, locs, signs, tofind, start, rest);
        assert factorLocations[|locs|..] == [start] + rest;
      } else {
        factorLocations := factorLocations[..|factorLocations| - 1];
        factorMovingSigns := factorMovingSigns[..|factorMovingSigns| - 1];
        bindings := backup;
      }
    }
  }

  lemma FitsNeeds<P, E, B>(T: Task<P, E, B>, bindings: B, locs: seq<nat>, t: nat)
    requires t < |T.lhs|
    ensures forall ls :: Fits(T, bindings, locs, t, ls) ==> ls != []
  {
  }

  lemma FitsBounded<P, E, B>(T: Task<P, E, B>, bindings: B, locs: seq<nat>, t: nat)
    requires t < |T.lhs|
    ensures forall ls :: Fits(T, bindings, locs, t, ls) ==> ls != [] && ls[0] < |T.prod|
  {
  }

  lemma UsedIsUnusable<P, E, B>(T: Task<P, E, B>, bindings: B, locs: seq<nat>, t: nat, start: nat)
    requires t < |T.lhs| && start in locs
    ensures forall ls :: Fits(T, bindings, locs, t, ls) ==> ls != [] && ls[0] != start
  {
  }

  // An assignment that starts at a position needs that to be usable and the rest
  // to fit.
  lemma FirstUsable<P, E, B>(T: Task<P, E, B>, bindings: B, locs: seq<nat>, t: nat, start: nat)
    requires t < |T.lhs| && start < |T.prod| && start !in locs && InProduct(T, locs)
    ensures Usable(T, bindings, locs, t, start) <==>
      T.equal(bindings, T.lhs[t], T.prod[start]).0 && SignTo(T, locs, start) != 0
    ensures (Usable(T, bindings, locs, t, start)
      && Reaches(T, T.equal(bindings, T.lhs[t], T.prod[start]).1, locs + [start], t + 1))
      || forall ls :: Fits(T, bindings, locs, t, ls) ==> ls != [] && ls[0] != start
  {
    hide Usable;
    UsableIs(T, bindings, locs, t, start);
  }

  lemma UsableIs<P, E, B>(T: Task<P, E, B>, bindings: B, locs: seq<nat>, t: nat, start: nat)
    requires t < |T.lhs| && start < |T.prod| && start !in locs && InProduct(T, locs)
    ensures Usable(T, bindings, locs, t, start) <==>
      T.equal(bindings, T.lhs[t], T.prod[start]).0 && SignTo(T, locs, start) != 0
  {
  }

  // After the last pattern factor only the conditions remain.
  lemma LastFactor<P, E, B>(T: Task<P, E, B>, bindings: B, locs: seq<nat>, t: nat)
    requires t == |T.lhs|
    ensures forall ls :: Fits(T, bindings, locs, t, ls) ==> ls == []
    ensures Fits(T, bindings, locs, t, []) <==> T.conditions(bindings)
    ensures Reaches(T, bindings, locs, t) <==> T.conditions(bindings)
    ensures Least(T, bindings, locs, t, [])
    ensures BindingsAfter(T, bindings, t, []) == bindings && SignsAfter(T, locs, []) == []
  {
    assert T.conditions(bindings) ==> Fits(T, bindings, locs, t, []);
  }

  // ------------------------------------------------- What fitting amounts to

  // Step number j of an assignment, which matches pattern factor t.
  ghost predicate StepFits<P, E, B>(T: Task<P, E, B>, all: seq<nat>, j: nat, t: nat, before: B, after: B) {
    && j < |all| && t < |T.lhs| && all[j] < |T.prod| && all[j] !in all[..j] && InProduct(T, all[..j])
    && T.equal(before, T.lhs[t], T.prod[all[j]]) == (true, after)
    && SignTo(T, all[..j], all[j]) != 0
  }

  ghost predicate AllFit<P, E, B>(T: Task<P, E, B>, locs: seq<nat>, t: nat, ls: seq<nat>, chain: seq<B>) {
    && |chain| == |ls| + 1 && t + |ls| == |T.lhs| && T.conditions(chain[|ls|])
    && forall k :: 0 <= k < |ls| ==> StepFits(T, locs + ls, |locs| + k, t + k, chain[k], chain[k + 1])
  }

  lemma FitsHead<P, E, B>(T: Task<P, E, B>, bindings: B, locs: seq<nat>, t: nat, ls: seq<nat>)
    requires ls != [] && Fits(T, bindings, locs, t, ls)
    ensures t < |T.lhs| && ls[0] < |T.prod| && Usable(T, bindings, locs, t, ls[0])
    ensures Fits(T, T.equal(bindings, T.lhs[t], T.prod[ls[0]]).1, locs + [ls[0]], t + 1, ls[1..])
  {
  }

  lemma FirstStep<P, E, B>(T: Task<P, E, B>, bindings: B, locs: seq<nat>, t: nat, ls: seq<nat>, more: B)
    requires ls != []
    ensures locs + ls == (locs + [ls[0]]) + ls[1..]
    ensures StepFits(T, locs + ls, |locs|, t, bindings, more) <==>
      Usable(T, bindings, locs, t, ls[0]) && T.equal(bindings, T.lhs[t], T.prod[ls[0]]).1 == more
  {
    assert (locs + ls)[..|locs|] == locs;
  }

  lemma {:induction false} FitsToChain<P, E, B>(T: Task<P, E, B>, bindings: B, locs: seq<nat>, t: nat, ls: seq<nat>)
      returns (chain: seq<B>)
    requires Fits(T, bindings, locs, t, ls)
    ensures AllFit(T, locs, t, ls, chain) && chain[0] == bindings
    ensures chain[|ls|] == BindingsAfter(T, bindings, t, ls)
    decreases ls
  {
    hide StepFits, Usable;
    if ls == [] {
      chain := [bindings];
    } else {
      FitsHead(T, bindings, locs, t, ls);
      var more := T.equal(bindings, T.lhs[t], T.prod[ls[0]]).1;
      var rest := FitsToChain(T, more, locs + [ls[0]], t + 1, ls[1..]);
      chain := [bindings] + rest;
      FirstStep(T, bindings, locs, t, ls, more);
      forall k | 0 <= k < |ls| ensures StepFits(T, locs + ls, |locs| + k, t + k, chain[k], chain[k + 1]) {
        if k > 0 { assert StepFits(T, locs + ls, |locs| + 1 + (k - 1), t + 1 + (k - 1), rest[k - 1], rest[k]); }
      }
    }
  }

  lemma {:induction false} ChainToFits<P, E, B>(T: Task<P, E, B>, locs: seq<nat>, t: nat, ls: seq<nat>, chain: seq<B>)
    requires AllFit(T, locs, t, ls, chain)
    ensures Fits(T, chain[0], locs, t, ls)
    decreases ls
  {
    hide StepFits, Usable;
    if ls != [] {
      assert StepFits(T, locs + ls, |locs| + 0, t + 0, chain[0], chain[0 + 1]);
      FirstStep(T, chain[0], locs, t, ls, chain[1]);
      forall k | 0 <= k < |ls| - 1
        ensures StepFits(T, locs + ls, |locs| + 1 + k, t + 1 + k, chain[1..][k], chain[1..][k + 1]) {
        assert StepFits(T, locs + ls, |locs| + (k + 1), t + (k + 1), chain[k + 1], chain[k + 1 + 1]);
      }
      ChainToFits(T, locs + [ls[0]], t + 1, ls[1..], chain[1..]);
    }
  }

  lemma MatchToStep<P, E, B>(T: Task<P, E, B>, bindings: B, ls: seq<nat>, chain: seq<B>, k: nat)
    requires IsMatch(T, bindings, ls, chain) && k < |ls|
    ensures StepFits(T, ls, k, k, chain[k], chain[k + 1])
  {
    hide MovingSign;
    assert k > 0 ==> CanFollow(T, ls, k);
    forall i | 0 <= i < k ensures ls[i] != ls[k] {}
  }

  ghost predicate StepsFit<P, E, B>(T: Task<P, E, B>, bindings: B, ls: seq<nat>, chain: seq<B>) {
    && |chain| == |ls| + 1 && chain[0] == bindings && |ls| == |T.lhs| && T.conditions(chain[|ls|])
    && forall k :: 0 <= k < |ls| ==> StepFits(T, ls, k, k, chain[k], chain[k + 1])
  }

  lemma StepsToMatch<P, E, B>(T: Task<P, E, B>, bindings: B, ls: seq<nat>, chain: seq<B>)
    requires StepsFit(T, bindings, ls, chain)
    ensures IsMatch(T, bindings, ls, chain)
  {
    hide MovingSign;
    forall i, j | 0 <= i < j < |ls| ensures ls[i] != ls[j] {
      assert StepFits(T, ls, j, j, chain[j], chain[j + 1]);
      assert ls[..j][i] == ls[i];
    }
    forall k | 0 < k < |ls| ensures CanFollow(T, ls, k) {
      assert StepFits(T, ls, k, k, chain[k], chain[k + 1]) && StepFits(T, ls, k - 1, k - 1, chain[k - 1], chain[k]);
      assert ls[..k][k - 1] == ls[k - 1];
    }
    forall k | 0 <= k < |ls| ensures ls[k] < |T.prod|
      && T.equal(chain[k], T.lhs[k], T.prod[ls[k]]) == (true, chain[k + 1]) {
      assert StepFits(T, ls, k, k, chain[k], chain[k + 1]);
    }
  }

  lemma AllFitIsSteps<P, E, B>(T: Task<P, E, B>, bindings: B, ls: seq<nat>, chain: seq<B>)
    ensures StepsFit(T, bindings, ls, chain) <==> |chain| > 0 && chain[0] == bindings && AllFit(T, [], 0, ls, chain)
  {
    hide StepFits;
    var none: seq<nat> := [];
    assert none + ls == ls;
    if StepsFit(T, bindings, ls, chain) {
      forall k | 0 <= k < |ls| ensures StepFits(T, none + ls, |none| + k, 0 + k, chain[k], chain[k + 1]) {}
    }
    if |chain| > 0 && chain[0] == bindings && AllFit(T, [], 0, ls, chain) {
      forall k | 0 <= k < |ls| ensures StepFits(T, ls, k, k, chain[k], chain[k + 1]) {
        assert StepFits(T, none + ls, |none| + k, 0 + k, chain[k], chain[k + 1]);
      }
    }
  }

  // With no factor matched before, the assignments that fit are exactly the
  // matches of the whole pattern.
  lemma FitsIsMatch<P, E, B(!new)>(T: Task<P, E, B>, bindings: B, ls: seq<nat>)
    ensures Fits(T, bindings, [], 0, ls) <==> exists chain :: IsMatch(T, bindings, ls, chain)
  {
    hide IsMatch, AllFit, StepsFit, Fits;
    if Fits(T, bindings, [], 0, ls) {
      var chain := FitsToChain(T, bindings, [], 0, ls);
      assert |chain| > 0 by { ChainNotEmpty(T, [], 0, ls, chain); }
      AllFitIsSteps(T, bindings, ls, chain);
      StepsToMatch(T, bindings, ls, chain);
    }
    if exists chain :: IsMatch(T, bindings, ls, chain) {
      var chain :| IsMatch(T, bindings, ls, chain);
      MatchToSteps(T, bindings, ls, chain);
      AllFitIsSteps(T, bindings, ls, chain);
      ChainToFits(T, [], 0, ls, chain);
    }
  }

  lemma ChainNotEmpty<P, E, B>(T: Task<P, E, B>, locs: seq<nat>, t: nat, ls: seq<nat>, chain: seq<B>)
    requires AllFit(T, locs, t, ls, chain)
    ensures |chain| > 0
  {
  }

  lemma MatchToSteps<P, E, B>(T: Task<P, E, B>, bindings: B, ls: seq<nat>, chain: seq<B>)
    requires IsMatch(T, bindings, ls, chain)
    ensures StepsFit(T, bindings, ls, chain)
  {
    forall k | 0 <= k < |ls| ensures StepFits(T, ls, k, k, chain[k], chain[k + 1]) {
      MatchToStep(T, bindings, ls, chain, k);
    }
  }

  // ------------------------------------------------------- Signs and first matches

  lemma {:induction false} SignsRecorded<P, E, B>(T: Task<P, E, B>, bindings: B, locs: seq<nat>, t: nat, ls: seq<nat>)
    requires Fits(T, bindings, locs, t, ls)
    ensures Recorded(T, locs + ls, |locs|, SignsAfter(T, locs, ls))
    decreases ls
  {
    hide MovingSign, RecordedAt;
    if ls != [] {
      FitsHead(T, bindings, locs, t, ls);
      var more := T.equal(bindings, T.lhs[t], T.prod[ls[0]]).1;
      SignsRecorded(T, more, locs + [ls[0]], t + 1, ls[1..]);
      var r, signs := SignsAfter(T, locs + [ls[0]], ls[1..]), SignsAfter(T, locs, ls);
      assert locs + ls == (locs + [ls[0]]) + ls[1..];
      assert signs == [SignTo(T, locs, ls[0])] + r;
      FirstRecorded(T, bindings, locs, t, ls);
      forall k | 0 <= k < |signs| ensures RecordedAt(T, locs + ls, |locs| + k, signs[k]) {
        if k > 0 { assert RecordedAt(T, locs + ls, |locs + [ls[0]]| + (k - 1), r[k - 1]); }
      }
    }
  }

  lemma FirstRecorded<P, E, B>(T: Task<P, E, B>, bindings: B, locs: seq<nat>, t: nat, ls: seq<nat>)
    requires ls != [] && Usable(T, bindings, locs, t, ls[0])
    ensures RecordedAt(T, locs + ls, |locs|, SignTo(T, locs, ls[0]))
  {
    hide MovingSign;
    if locs != [] {
      var all, j := locs + ls, |locs|;
      assert all[j - 1] == locs[j - 1] && all[j] == ls[0] && locs[j - 1] in locs;
      assert CanFollow(T, all, j);
    }
  }

  lemma {:induction false} NotAfterIs(a: seq<nat>, b: seq<nat>)
    requires |a| == |b|
    ensures NotAfter(a, b) <==> a == b || Precedes(a, b)
  {
    if a != [] {
      NotAfterIs(a[1..], b[1..]);
      assert a == [a[0]] + a[1..] && b == [b[0]] + b[1..];
      PrecedesTail(a, b);
    }
  }

  lemma PrecedesTail(a: seq<nat>, b: seq<nat>)
    requires a != [] && |a| == |b|
    ensures Precedes(a, b) <==> a[0] < b[0] || (a[0] == b[0] && Precedes(a[1..], b[1..]))
  {
    if a[0] < b[0] { assert a[..0] == b[..0]; }
    if a[0] == b[0] && Precedes(a[1..], b[1..]) {
      var k :| 0 <= k < |a[1..]| && a[1..][..k] == b[1..][..k] && a[1..][k] < b[1..][k];
      assert a[..k + 1] == [a[0]] + a[1..][..k] && b[..k + 1] == [b[0]] + b[1..][..k];
    }
    if Precedes(a, b) && a[0] >= b[0] {
      var k :| 0 <= k < |a| && a[..k] == b[..k] && a[k] < b[k];
      assert a[..k][0] == b[..k][0];
      assert a[1..][..k - 1] == a[..k][1..] && b[1..][..k - 1] == b[..k][1..];
    }
  }

  lemma LeastIsFirst<P, E, B(!new)>(T: Task<P, E, B>, was: B, ls: seq<nat>, after: B)
    requires Fits(T, was, [], 0, ls) && Least(T, was, [], 0, ls) && after == BindingsAfter(T, was, 0, ls)
    ensures FirstMatch(T, was, ls, after)
  {
    hide IsMatch, AllFit, StepsFit, Fits, BindingsAfter, NotAfter;
    var chain := FitsToChain(T, was, [], 0, ls);
    ChainNotEmpty(T, [], 0, ls, chain);
    AllFitIsSteps(T, was, ls, chain);
    StepsToMatch(T, was, ls, chain);
    forall other, steps | IsMatch(T, was, other, steps) ensures other == ls || Precedes(ls, other) {
      MatchSize(T, was, other, steps);
      MatchSize(T, was, ls, chain);
      FitsIsMatch(T, was, other);
      NotAfterIs(ls, other);
    }
  }

  lemma MatchSize<P, E, B>(T: Task<P, E, B>, was: B, ls: seq<nat>, chain: seq<B>)
    requires IsMatch(T, was, ls, chain)
    ensures |ls| == |T.lhs| && |chain| == |ls| + 1
  {
  }
}
