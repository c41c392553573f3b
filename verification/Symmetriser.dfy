// The class symmetriser: apply_symmetry by location and by value.

module SymmetriserClass {
  import opened Signs
  import opened Generator
  import opened Symmetry
  import Cosets
  import opened CombinationsClass

  // ------------------------------------------------------- The permutations

  // The request apply_symmetry hands to the generator: unit sublengths.
  function UnitProblem(n: nat): Problem {
    Problem(n, seq(n, _ => 1), [], false, [], [], [])
  }

  lemma UnitProblemIs(n: nat)
    requires n > 0
    ensures Plain(UnitProblem(n)) && Cosets.Permuting(UnitProblem(n)) && UnitProblem(n).Length() == n
  {
    var P := UnitProblem(n);
    OnesSum(P.sublengths, n);
  }

  lemma {:induction false} OnesSum(sub: seq<nat>, g: nat)
    requires g <= |sub| && forall k :: 0 <= k < |sub| ==> sub[k] == 1
    ensures GroupEnd(sub, g) == g
  {
    if g > 0 { OnesSum(sub, g - 1); }
  }

  ghost function PermutationList(n: nat): seq<seq<nat>>
    requires n > 0
  {
    UnitProblemIs(n);
    Generated(UnitProblem(n))
  }

  lemma {:induction false} DistinctMultiset<A>(s: seq<A>)
    requires Distinct(s)
    ensures forall x :: multiset(s)[x] == if x in s then 1 else 0
  {
    if s != [] {
      var n := |s| - 1;
      DistinctMultiset(s[..n]);
      assert s == s[..n] + [s[n]];
      assert s[n] !in s[..n];
    }
  }

  lemma SortedDistinct(vs: seq<seq<nat>>)
    requires LexSorted(vs)
    ensures Distinct(vs)
  {
    forall i, j | 0 <= i < j < |vs| ensures vs[i] != vs[j] { LexAsymmetric(vs[i], vs[j]); }
  }

  // Every permutation once; the one generated first, and skipped by the
  // helpers, is the identity.
  lemma PermutationListIs(n: nat)
    requires n > 0
    ensures AllPermutations(n, PermutationList(n))
    ensures PermutationList(n) != [] && PermutationList(n)[0] == Identity(n)
  {
    var P := UnitProblem(n);
    UnitProblemIs(n);
    PlainFirst(P);
    PlainGenerated(P);
    SortedDistinct(Generated(P));
    DistinctMultiset(Generated(P));
    forall p ensures multiset(Generated(P))[p] == if Permutes(n, p) then 1 else 0 {
      Cosets.PermutationsGenerated(P, p);
    }
  }

  // The permutations the helpers act on: all but the first.
  ghost function NotFirst(n: nat): seq<seq<nat>>
    requires n > 0
  {
    PermutationListIs(n);
    PermutationList(n)[1..]
  }

  // --------------------------------------------------- What the helpers append

  // By location: for one stored term, one new term per permutation.
  function NewFrom<T(==)>(a: Action<T>, sign: int, ps: seq<seq<nat>>, t: Term<T>): (R: seq<Term<T>>)
    ensures |R| == |ps|
    ensures forall j :: 0 <= j < |ps| ==> R[j] == Term(Act(a, ps[j], t.entries), Signed(SignOf(sign, ps[j]), t.factor))
  {
    seq(|ps|, j requires 0 <= j < |ps| => Term(Act(a, ps[j], t.entries), Signed(SignOf(sign, ps[j]), t.factor)))
  }

  function SlotTerms<T(==)>(a: Action<T>, sign: int, ps: seq<seq<nat>>, S: seq<Term<T>>): seq<Term<T>> {
    if S == [] then [] else SlotTerms(a, sign, ps, S[..|S| - 1]) + NewFrom(a, sign, ps, S[|S| - 1])
  }

  // By value, the helper replaces the first occurrence of each value: w after the
  // first n of the values x.
  function Replaced<T(==)>(x: seq<T>, p: seq<nat>, w: seq<T>, n: nat): (u: seq<T>)
    requires Permutes(|x|, p) && n <= |x|
    ensures |u| == |w|
  {
    if n == 0 then w
    else
      var u, k := Replaced(x, p, w, n - 1), IndexOf(w, x[n - 1]);
      if k < |w| then u[k := x[p[n - 1]]] else u
  }

  lemma FoundFirst<T>(w: seq<T>, y: T, k: nat)
    requires k <= |w| && (k < |w| ==> w[k] == y) && forall i :: 0 <= i < k ==> w[i] != y
    ensures IndexOf(w, y) == k
  {
    assert k < |w| ==> w[k] in w;
  }

  function ReplacedTerm<T(==)>(x: seq<T>, p: seq<nat>, s: int, t: Term<T>): Term<T>
    requires Permutes(|x|, p)
  {
    Term(Replaced(x, p, t.entries, |x|), Signed(s, t.factor))
  }

  function ReplacedTerms<T(==)>(x: seq<T>, p: seq<nat>, s: int, S: seq<Term<T>>): (R: seq<Term<T>>)
    requires Permutes(|x|, p)
    ensures |R| == |S| && forall i :: 0 <= i < |S| ==> R[i] == ReplacedTerm(x, p, s, S[i])
  {
    seq(|S|, i requires 0 <= i < |S| => ReplacedTerm(x, p, s, S[i]))
  }

  lemma TermReplaced<T>(x: seq<T>, p: seq<nat>, s: int, S: seq<Term<T>>, i: nat)
    requires Permutes(|x|, p) && i < |S|
    ensures ReplacedTerms(x, p, s, S[..i + 1]) == ReplacedTerms(x, p, s, S[..i]) + [ReplacedTerm(x, p, s, S[i])]
  {
  }

  ghost function ReplacedByAll<T>(x: seq<T>, sign: int, ps: seq<seq<nat>>, S: seq<Term<T>>): seq<Term<T>>
    requires Perms(|x|, ps)
  {
    if ps == [] then []
    else
      ReplacedByAll(x, sign, ps[..|ps| - 1], S)
        + ReplacedTerms(x, ps[|ps| - 1], SignOf(sign, ps[|ps| - 1]), S)
  }

  // No value of x stands twice in w.
  ghost predicate OnceEach<T>(x: seq<T>, w: seq<T>) {
    forall i, j :: 0 <= i < j < |w| && w[i] == w[j] ==> w[i] !in x
  }

  ghost predicate AllOnceEach<T>(x: seq<T>, S: seq<Term<T>>) {
    forall i :: 0 <= i < |S| ==> OnceEach(x, S[i].entries)
  }

  lemma {:induction false} ReplacedAt<T>(x: seq<T>, p: seq<nat>, w: seq<T>, n: nat, k: nat)
    requires Distinct(x) && Permutes(|x|, p) && n <= |x| && k < |w|
    ensures Replaced(x, p, w, n)[k] ==
      if IndexOf(x, w[k]) < n && IndexOf(w, w[k]) == k then x[p[IndexOf(x, w[k])]] else w[k]
  {
    if n > 0 {
      ReplacedAt(x, p, w, n - 1, k);
      IndexOfOwn(x, n - 1);
    }
  }

  // Replacing first occurrences is replacing all of them when there are no others.
  lemma ReplacedIsAct<T>(x: seq<T>, p: seq<nat>, w: seq<T>)
    requires Distinct(x) && Permutes(|x|, p) && OnceEach(x, w)
    ensures Replaced(x, p, w, |x|) == Act(ByValue(x), p, w)
  {
    forall k | 0 <= k < |w| ensures Replaced(x, p, w, |x|)[k] == Act(ByValue(x), p, w)[k] {
      ReplacedAt(x, p, w, |x|, k);
      assert w[k] in w;
      assert w[k] in x ==> IndexOf(w, w[k]) == k;
    }
  }

  // By value: for one permutation, one new term per stored term.
  function ValueTerms<T(==)>(a: Action<T>, sign: int, ps: seq<seq<nat>>, S: seq<Term<T>>): seq<Term<T>> {
    if ps == [] then []
    else ValueTerms(a, sign, ps[..|ps| - 1], S) + Map(a, ps[|ps| - 1], SignOf(sign, ps[|ps| - 1]), S)
  }

  lemma {:induction false} CoefValueTerms<T>(a: Action<T>, sign: int, ps: seq<seq<nat>>, S: seq<Term<T>>, v: seq<T>)
    ensures Coef(ValueTerms(a, sign, ps, S), v) == SumOver(ps, a, sign, S, v)
  {
    if ps != [] {
      var n := |ps| - 1;
      CoefValueTerms(a, sign, ps[..n], S, v);
      CoefAppend(ValueTerms(a, sign, ps[..n], S), Map(a, ps[n], SignOf(sign, ps[n]), S), v);
    }
  }

  lemma {:induction false} CoefNewFrom<T>(a: Action<T>, sign: int, ps: seq<seq<nat>>, t: Term<T>, v: seq<T>)
    ensures Coef(NewFrom(a, sign, ps, t), v) == SumOver(ps, a, sign, [t], v)
  {
    if ps != [] {
      var n := |ps| - 1;
      CoefNewFrom(a, sign, ps[..n], t, v);
      var last := Map(a, ps[n], SignOf(sign, ps[n]), [t]);
      assert NewFrom(a, sign, ps, t) == NewFrom(a, sign, ps[..n], t) + last;
      CoefAppend(NewFrom(a, sign, ps[..n], t), last, v);
    }
  }

  lemma {:induction false} SumOverSplit<T>(ps: seq<seq<nat>>, a: Action<T>, sign: int, S: seq<Term<T>>,
      R: seq<Term<T>>, v: seq<T>)
    ensures SumOver(ps, a, sign, S + R, v) == SumOver(ps, a, sign, S, v) + SumOver(ps, a, sign, R, v)
  {
    if ps != [] {
      var n := |ps| - 1;
      SumOverSplit(ps[..n], a, sign, S, R, v);
      var s := SignOf(sign, ps[n]);
      assert Map(a, ps[n], s, S + R) == Map(a, ps[n], s, S) + Map(a, ps[n], s, R);
      CoefAppend(Map(a, ps[n], s, S), Map(a, ps[n], s, R), v);
    }
  }

  lemma {:induction false} SumOverEmpty<T>(ps: seq<seq<nat>>, a: Action<T>, sign: int, v: seq<T>)
    ensures SumOver(ps, a, sign, [], v) == 0
  {
    if ps != [] {
      SumOverEmpty(ps[..|ps| - 1], a, sign, v);
      assert Map(a, ps[|ps| - 1], SignOf(sign, ps[|ps| - 1]), []) == [];
    }
  }

  lemma {:induction false} CoefSlotTerms<T>(a: Action<T>, sign: int, ps: seq<seq<nat>>, S: seq<Term<T>>, v: seq<T>)
    ensures Coef(SlotTerms(a, sign, ps, S), v) == SumOver(ps, a, sign, S, v)
  {
    if S == [] {
      SumOverEmpty(ps, a, sign, v);
    } else {
      var n := |S| - 1;
      CoefSlotTerms(a, sign, ps, S[..n], v);
      assert S == S[..n] + [S[n]];
      SumOverSplit(ps, a, sign, S[..n], [S[n]], v);
      CoefNewFrom(a, sign, ps, S[n], v);
      CoefAppend(SlotTerms(a, sign, ps, S[..n]), NewFrom(a, sign, ps, S[n]), v);
    }
  }

  // ------------------------------------------------------- One apply_symmetry

  // The stored terms after one call; `a` is what is permuted.
  ghost function Symmetrised<T>(a: Action<T>, sign: int, S: seq<Term<T>>): seq<Term<T>>
    requires a.Size() > 0
  {
    S + match a
        case BySlot(_) => SlotTerms(a, sign, NotFirst(a.Size()), S)
        case ByValue(_) => ValueTerms(a, sign, NotFirst(a.Size()), S)
  }

  // What apply_symmetry leaves, repeated entries and all.
  ghost function Applied<T>(a: Action<T>, sign: int, S: seq<Term<T>>): seq<Term<T>>
    requires a.Size() > 0
  {
    NotFirstPerms(a.Size());
    S + match a
        case BySlot(_) => SlotTerms(a, sign, NotFirst(a.Size()), S)
        case ByValue(x) => ReplacedByAll(x, sign, NotFirst(a.Size()), S)
  }

  lemma {:induction false} ReplacedByAllIs<T>(x: seq<T>, sign: int, ps: seq<seq<nat>>, S: seq<Term<T>>)
    requires Distinct(x) && Perms(|x|, ps) && AllOnceEach(x, S)
    ensures ReplacedByAll(x, sign, ps, S) == ValueTerms(ByValue(x), sign, ps, S)
  {
    if ps != [] {
      var n := |ps| - 1;
      ReplacedByAllIs(x, sign, ps[..n], S);
      var s := SignOf(sign, ps[n]);
      forall i | 0 <= i < |S| ensures ReplacedTerms(x, ps[n], s, S)[i] == Map(ByValue(x), ps[n], s, S)[i] {
        ReplacedIsAct(x, ps[n], S[i].entries);
      }
    }
  }

  // Where no permuted value is repeated, that is the action of the permutations.
  lemma AppliedIsSymmetrised<T>(a: Action<T>, sign: int, S: seq<Term<T>>)
    requires a.Size() > 0 && (a.ByValue? ==> Distinct(a.values) && AllOnceEach(a.values, S))
    ensures Applied(a, sign, S) == Symmetrised(a, sign, S)
  {
    NotFirstPerms(a.Size());
    match a
    case BySlot(_) =>
    case ByValue(x) => ReplacedByAllIs(x, sign, NotFirst(|x|), S);
  }

  // As a formal sum, the result is the signed sum over all permutations.
  lemma SymmetrisedIsSum<T>(a: Action<T>, sign: int, length: nat, S: seq<Term<T>>, v: seq<T>)
    requires a.Size() > 0 && ProperOn(a, length, S)
    ensures Coef(Symmetrised(a, sign, S), v) == SumOver(PermutationList(a.Size()), a, sign, S, v)
  {
    var ps := PermutationList(a.Size());
    PermutationListIs(a.Size());
    CoefSlotTerms(a, sign, ps[1..], S, v);
    CoefValueTerms(a, sign, ps[1..], S, v);
    CoefAppend(S, if a.BySlot? then SlotTerms(a, sign, ps[1..], S) else ValueTerms(a, sign, ps[1..], S), v);
    assert ps == [Identity(a.Size())] + ps[1..];
    SumOverAppend([Identity(a.Size())], ps[1..], a, sign, S, v);
    IdentityTerm(a, sign, length, S, v);
  }

  lemma IdentityTerm<T>(a: Action<T>, sign: int, length: nat, S: seq<Term<T>>, v: seq<T>)
    requires ProperOn(a, length, S)
    ensures SumOver([Identity(a.Size())], a, sign, S, v) == Coef(S, v)
  {
    var id := Identity(a.Size());
    assert Sorted(id);
    SortedInversions(id);
    forall i | 0 <= i < |S| ensures Map(a, id, 1, S)[i] == S[i] { ActIdentity(a, S[i].entries); }
    assert Map(a, id, 1, S) == S;
    SumOverLast([], id, a, sign, S, v);
    assert [] + [id] == [id];
  }

  // The formal sum is symmetric, or antisymmetric for permutation_sign -1,
  // under exchanging any two of the permuted slots or values.
  lemma SymmetrisedIsSymmetric<T>(a: Action<T>, sign: int, length: nat, S: seq<Term<T>>, i: nat, j: nat, v: seq<T>)
    requires i < j < a.Size() && ProperOn(a, length, S) && |v| == length
    ensures Coef(Symmetrised(a, sign, S), Act(a, Transposition(a.Size(), i, j), v))
         == Signed(if sign == -1 then -1 else 1, Coef(Symmetrised(a, sign, S), v))
  {
    PermutationListIs(a.Size());
    SymmetrisedIsSum(a, sign, length, S, Act(a, Transposition(a.Size(), i, j), v));
    SymmetrisedIsSum(a, sign, length, S, v);
    SumIsSymmetric(PermutationList(a.Size()), a, sign, length, S, i, j, v);
  }

  // By location: exchanging the contents of two of the permuted slots changes the
  // stored sum by the sign.
  lemma SlotsAreSymmetric<T>(b: seq<nat>, sign: int, length: nat, S: seq<Term<T>>, i: nat, j: nat, v: seq<T>)
    requires i < j < |b| && ProperOn(BySlot(b), length, S) && |v| == length
    ensures Coef(Applied(BySlot(b), sign, S), v[b[i] := v[b[j]]][b[j] := v[b[i]]])
         == Signed(if sign == -1 then -1 else 1, Coef(Applied(BySlot(b), sign, S), v))
  {
    AppliedIsSymmetrised(BySlot(b), sign, S);
    SymmetrisedIsSymmetric(BySlot(b), sign, length, S, i, j, v);
    ActExchangesSlots(b, i, j, v);
  }

  // By value: so does exchanging two of the permuted values wherever they stand.
  lemma ValuesAreSymmetric<T>(x: seq<T>, sign: int, length: nat, S: seq<Term<T>>, i: nat, j: nat, v: seq<T>, u: seq<T>)
    requires i < j < |x| && ProperOn(ByValue(x), length, S) && AllOnceEach(x, S) && |v| == |u| == length
    requires forall k :: 0 <= k < |v| ==> u[k] == if v[k] == x[i] then x[j] else if v[k] == x[j] then x[i] else v[k]
    ensures Coef(Applied(ByValue(x), sign, S), u)
         == Signed(if sign == -1 then -1 else 1, Coef(Applied(ByValue(x), sign, S), v))
  {
    AppliedIsSymmetrised(ByValue(x), sign, S);
    SymmetrisedIsSymmetric(ByValue(x), sign, length, S, i, j, v);
    ActExchangesValues(x, i, j, v);
    assert u == Act(ByValue(x), Transposition(|x|, i, j), v);
  }

  // ------------------------------------------------------------ Repeated values

  // The second occurrence of a value is never replaced.
  ghost predicate Keeps<T>(R: seq<Term<T>>, k: nat, y: T) {
    forall i :: 0 <= i < |R| ==> k < |R[i].entries| && R[i].entries[k] == y && R[i].factor >= 0
  }

  lemma {:induction false} KeepsNone<T>(R: seq<Term<T>>, k: nat, y: T, v: seq<T>)
    requires Keeps(R, k, y)
    ensures Coef(R, v) >= 0 && (k < |v| && v[k] != y ==> Coef(R, v) == 0)
  {
    if R != [] { KeepsNone(R[..|R| - 1], k, y, v); }
  }

  lemma {:induction false} ReplacedKeeps<T>(x: seq<T>, ps: seq<seq<nat>>, t: Term<T>, k: nat)
    requires Distinct(x) && Perms(|x|, ps) && k < |t.entries| && IndexOf(t.entries, t.entries[k]) < k && t.factor >= 0
    ensures Keeps(ReplacedByAll(x, 1, ps, [t]), k, t.entries[k])
  {
    if ps != [] {
      var n := |ps| - 1;
      ReplacedKeeps(x, ps[..n], t, k);
      ReplacedAt(x, ps[n], t.entries, |x|, k);
    }
  }

  ghost predicate SymmetricUnder<T(!new)>(x: seq<T>, length: nat, R: seq<Term<T>>) {
    forall v, i, j :: |v| == length && 0 <= i < j < |x| ==>
      Coef(R, Act(ByValue(x), Transposition(|x|, i, j), v)) == Coef(R, v)
  }

  // Symmetrising one arrangement in at least two values gives a symmetric sum
  // exactly when it holds none of them twice.
  lemma SymmetricWhenOnceEach<T(!new)>(x: seq<T>, w: seq<T>)
    requires Distinct(x) && |x| > 1
    ensures SymmetricUnder(x, |w|, Applied(ByValue(x), 1, [Term(w, 1)])) <==> OnceEach(x, w)
  {
    var S, a := [Term(w, 1)], ByValue(x);
    if OnceEach(x, w) {
      AppliedIsSymmetrised(a, 1, S);
      forall v, i, j | |v| == |w| && 0 <= i < j < |x|
        ensures Coef(Applied(a, 1, S), Act(a, Transposition(|x|, i, j), v)) == Coef(Applied(a, 1, S), v)
      {
        SymmetrisedIsSymmetric(a, 1, |w|, S, i, j, v);
      }
    } else {
      var m, k :| 0 <= m < k < |w| && w[m] == w[k] && w[m] in x;
      SecondStays(x, w, m, k);
    }
  }

  lemma SecondStays<T(!new)>(x: seq<T>, w: seq<T>, m: nat, k: nat)
    requires Distinct(x) && |x| > 1 && m < k < |w| && w[m] == w[k] && w[m] in x
    ensures !SymmetricUnder(x, |w|, Applied(ByValue(x), 1, [Term(w, 1)]))
  {
    var S, a := [Term(w, 1)], ByValue(x);
    var R, g := Applied(a, 1, S), IndexOf(x, w[k]);
    NotFirstPerms(|x|);
    ReplacedKeeps(x, NotFirst(|x|), S[0], k);
    var i, j := 0, if g == 0 then 1 else g;
    var v := Act(a, Transposition(|x|, i, j), w);
    assert Keeps(R, k, w[k]);
    KeepsNone(R, k, w[k], v);
    assert v[k] != w[k];
    OwnCoefficient(w, R[1..], k, w[k]);
    assert R == [Term(w, 1)] + R[1..];
  }

  lemma OwnCoefficient<T>(w: seq<T>, R: seq<Term<T>>, k: nat, y: T)
    requires Keeps(R, k, y)
    ensures Coef([Term(w, 1)] + R, w) > 0
  {
    CoefAppend([Term(w, 1)], R, w);
    KeepsNone(R, k, y, w);
    assert [Term(w, 1)][..0] == [];
  }

  // ---------------------------------------------------------------- The class

  function Zip<T>(originals: seq<seq<T>>, multiplicity: seq<int>): (S: seq<Term<T>>)
    requires |originals| == |multiplicity|
    ensures |S| == |originals| && forall i :: 0 <= i < |S| ==> S[i] == Term(originals[i], multiplicity[i])
  {
    seq(|originals|, i requires 0 <= i < |originals| => Term(originals[i], multiplicity[i]))
  }

  lemma SignIsUnit(sign: int, p: seq<nat>, m: int)
    ensures SignOf(sign, p) == 1 || SignOf(sign, p) == -1
    ensures m * SignOf(sign, p) == Signed(SignOf(sign, p), m)
  {
  }

  // combin::ordersign with one range: the sign of the numbers themselves.
  method OrderSignOf(vec: seq<nat>) returns (sign: int)
    requires IsPermutation(vec)
    ensures sign == Sign(vec)
  {
    var fil: seq<nat> := [];
    for k := 0 to |vec|
      invariant fil == Identity(k)
    {
      assert Identity(k + 1) == Identity(k) + [k];
      fil := fil + [k];
    }
    sign := OrderSign(fil, vec);
    OrderSignOfNumbers(vec);
  }

  lemma OrderSignOfNumbers(vec: seq<nat>)
    requires IsPermutation(vec)
    ensures CrossSign(Identity(|vec|), vec) == Sign(vec)
  {
    hide CrossSign, Sign;
    PermutationOnto(vec);
    RankedInOrder(vec);
    CrossSignIsSign(Identity(|vec|), vec);
  }

  lemma RankedInOrder(vec: seq<nat>)
    requires IsPermutation(vec)
    ensures forall x :: x in vec ==> x in Identity(|vec|)
    ensures Ranks(Identity(|vec|), vec) == vec
  {
    var id := Identity(|vec|);
    forall x | x in vec ensures x in id { assert id[x] == x; }
    forall k | 0 <= k < |vec| ensures Ranks(id, vec)[k] == vec[k] { IndexOfOwn(id, vec[k]); }
  }

  // What the generator produces for the objects to be permuted.
  method Permutations<T>(objects: seq<T>) returns (calls: seq<seq<nat>>)
    requires objects != []
    ensures calls == PermutationList(|objects|)
  {
    var helper := new Combinations<T>();
    helper.original := objects;
    helper.SetUnitSublengths();
    UnitProblemIs(|objects|);
    assert helper.sublengths == UnitProblem(|objects|).sublengths;
    assert helper.Config() == UnitProblem(|objects|);
    helper.Permute(-1, -1);
    assert helper.inputAsym == [];
    assert helper.conditions == [];
    calls := helper.calls;
  }

  class Symmetriser<T(==)> {
    var original: seq<T>
    var permuteBlocks: seq<nat>
    var valuePermute: seq<T>
    var permutationSign: int
    var originals: seq<seq<T>>
    var multiplicity: seq<int>
    var current: nat

    constructor ()
      ensures original == [] && permuteBlocks == [] && valuePermute == [] && permutationSign == 1
      ensures originals == [] && multiplicity == []
    {
      original, permuteBlocks, valuePermute, permutationSign := [], [], [], 1;
      originals, multiplicity, current := [], [], 0;
    }

    ghost predicate Valid()
      reads this
    {
      |originals| == |multiplicity|
    }

    function Terms(): seq<Term<T>>
      reads this
      requires |originals| == |multiplicity|
    {
      Zip(originals, multiplicity)
    }

    // What the next apply_symmetry starts from.
    function Start(): (S: seq<Term<T>>)
      reads this
      requires |originals| == |multiplicity|
    {
      if originals == [] then [Term(original, 1)] else Terms()
    }

    function TheAction(): Action<T>
      reads this
    {
      if permuteBlocks == [] then ByValue(valuePermute) else BySlot(permuteBlocks)
    }

    // symm_helper::vector_generated for a vector that is not the first.
    method SlotVectorGenerated(vec: seq<nat>)
      requires Valid() && current < |originals| && permuteBlocks != []
      requires Permutes(|permuteBlocks|, vec) && TheAction().Proper(|originals[current]|)
      modifies `originals, `multiplicity
      ensures Valid()
      ensures Terms() == old(Terms()) +
        [Term(Act(TheAction(), vec, old(originals[current])),
          Signed(SignOf(permutationSign, vec), old(multiplicity[current])))]
      ensures |originals| == |old(originals)| + 1
      ensures SlotsPermuted(permuteBlocks, vec, old(originals[current]), originals[|old(originals)|])
    {
      ActPermutesSlots(permuteBlocks, vec, originals[current]);
      var w := originals[current];
      var m := multiplicity[current];
      if permutationSign == -1 {
        var sign := OrderSignOf(vec);
        m := m * sign;
      }
      SignIsUnit(permutationSign, vec, multiplicity[current]);
      var entry := PermuteSlots(w, vec);
      originals := originals + [entry];
      multiplicity := multiplicity + [m];
    }

    method PermuteSlots(w: seq<T>, vec: seq<nat>) returns (entry: seq<T>)
      requires permuteBlocks != [] && Permutes(|permuteBlocks|, vec) && TheAction().Proper(|w|)
      ensures entry == Act(TheAction(), vec, w)
    {
      entry := w;
      for k := 0 to |permuteBlocks|
        invariant SlotsWritten(w, permuteBlocks, vec, k, entry)
      {
        SlotWritten(w, permuteBlocks, vec, k, entry);
        entry := entry[permuteBlocks[k] := w[permuteBlocks[vec[k]]]];
      }
    }

    // symm_val_helper::vector_generated for a vector that is not the first.
    method ValueVectorGenerated(vec: seq<nat>)
      requires Valid() && current <= |originals| && Permutes(|valuePermute|, vec)
      modifies `originals, `multiplicity
      ensures Valid()
      ensures Terms() == old(Terms())
        + ReplacedTerms(valuePermute, vec, SignOf(permutationSign, vec), old(Terms())[..current])
    {
      ghost var before := Terms();
      ghost var s := SignOf(permutationSign, vec);
      for i := 0 to current
        invariant Valid() && |originals| == |before| + i
        invariant Terms() == before + ReplacedTerms(valuePermute, vec, s, before[..i])
      {
        assert originals[i] == Terms()[i].entries == before[i].entries;
        assert multiplicity[i] == Terms()[i].factor == before[i].factor;
        ghost var sofar := Terms();
        AppendReplaced(i, vec);
        TermReplaced(valuePermute, vec, s, before, i);
      }
    }

    // One stored term with its values replaced.
    method AppendReplaced(i: nat, vec: seq<nat>)
      requires Valid() && i < |originals| && Permutes(|valuePermute|, vec)
      modifies `originals, `multiplicity
      ensures Valid() && |originals| == |old(originals)| + 1
      ensures Terms() == old(Terms()) + [ReplacedTerm(valuePermute, vec, SignOf(permutationSign, vec), old(Terms()[i]))]
    {
      var m := multiplicity[i];
      if permutationSign == -1 {
        var sign := OrderSignOf(vec);
        m := m * sign;
      }
      SignIsUnit(permutationSign, vec, multiplicity[i]);
      var entry := ReplaceValues(originals[i], vec);
      originals := originals + [entry];
      multiplicity := multiplicity + [m];
    }

    // Look up each value in the arrangement and put the one it goes to in its place.
    method ReplaceValues(w: seq<T>, vec: seq<nat>) returns (entry: seq<T>)
      requires Permutes(|valuePermute|, vec)
      ensures entry == Replaced(valuePermute, vec, w, |valuePermute|)
    {
      entry := w;
      for j := 0 to |vec|
        invariant entry == Replaced(valuePermute, vec, w, j)
      {
        var k := 0;
        while k < |w| && w[k] != valuePermute[j]
          invariant 0 <= k <= |w|
          invariant forall i :: 0 <= i < k ==> w[i] != valuePermute[j]
        {
          k := k + 1;
        }
        FoundFirst(w, valuePermute[j], k);
        if k < |w| {
          entry := entry[k := valuePermute[vec[j]]];
        }
      }
    }

    method ApplySymmetry()
      requires Valid() && (permuteBlocks != [] <==> valuePermute == [])
      requires permuteBlocks != [] ==> forall i :: 0 <= i < |Start()| ==> TheAction().Proper(|Start()[i].entries|)
      modifies `originals, `multiplicity, `current
      ensures Valid() && originals != []
      ensures Terms() == Applied(TheAction(), permutationSign, old(Start()))
    {
      if |originals| == 0 {
        originals := originals + [original];
        multiplicity := multiplicity + [1];
      }
      assert Terms() == old(Start());
      assert forall i :: 0 <= i < |originals| ==> Terms()[i].entries == originals[i];
      if |permuteBlocks| == 0 { ApplyByValue(); } else { ApplyByLocation(); }
    }

    method ApplyByValue()
      requires Valid() && valuePermute != [] && originals != []
      modifies `originals, `multiplicity, `current
      ensures Valid() && originals != []
      ensures Terms() == Applied(ByValue(valuePermute), permutationSign, old(Terms()))
    {
      current := |originals|;
      var calls := Permutations(valuePermute);
      ghost var S := Terms();
      ghost var rest := NotFirst(|valuePermute|);
      PermutationListIs(|valuePermute|);
      NotFirstPerms(|valuePermute|);
      var firstOne := true;
      for n := 0 to |calls|
        invariant Valid() && firstOne == (n == 0) && current == |S|
        invariant Terms() == S + ReplacedByAll(valuePermute, permutationSign, rest[..if n == 0 then 0 else n - 1], S)
      {
        if firstOne {
          firstOne := false;
        } else {
          assert calls[n] == rest[n - 1];
          ValueCall(calls[n], n - 1, S, rest);
        }
      }
      assert rest[..|calls| - 1] == rest;
    }

    method ValueCall(vec: seq<nat>, n: nat, ghost S: seq<Term<T>>, ghost rest: seq<seq<nat>>)
      requires Valid() && current == |S| && n < |rest| && vec == rest[n] && Perms(|valuePermute|, rest)
      requires Terms() == S + ReplacedByAll(valuePermute, permutationSign, rest[..n], S)
      modifies `originals, `multiplicity
      ensures Valid() && Terms() == S + ReplacedByAll(valuePermute, permutationSign, rest[..n + 1], S)
    {
      assert Terms()[..current] == S;
      assert rest[..n + 1][..n] == rest[..n];
      ValueVectorGenerated(vec);
    }

    method ApplyByLocation()
      requires Valid() && permuteBlocks != [] && originals != []
      requires forall i :: 0 <= i < |originals| ==> TheAction().Proper(|originals[i]|)
      modifies `originals, `multiplicity, `current
      ensures Valid() && originals != [] && Terms() == Applied(TheAction(), permutationSign, old(Terms()))
    {
      ghost var S := Terms();
      ghost var rest := NotFirst(|permuteBlocks|);
      var currentLength := |originals|;
      for i := 0 to currentLength
        invariant Valid() && |originals| >= currentLength
        invariant Terms() == S + SlotTerms(TheAction(), permutationSign, rest, S[..i])
      {
        assert S[i].entries == old(originals[i]);
        LocationStep(i, S, rest);
      }
      assert S[..currentLength] == S;
    }

    method LocationStep(i: nat, ghost S: seq<Term<T>>, ghost rest: seq<seq<nat>>)
      requires Valid() && permuteBlocks != [] && i < |S| && TheAction().Proper(|S[i].entries|)
      requires rest == NotFirst(|permuteBlocks|)
      requires Terms() == S + SlotTerms(TheAction(), permutationSign, rest, S[..i])
      modifies `originals, `multiplicity, `current
      ensures Valid() && |originals| >= |S|
      ensures Terms() == S + SlotTerms(TheAction(), permutationSign, rest, S[..i + 1])
    {
      hide SlotTerms, NewFrom, IsPermutation;
      current := i;
      SameOriginals(S, SlotTerms(TheAction(), permutationSign, rest, S[..i]), i);
      assert originals[current] == Terms()[i].entries;
      PermuteOne();
      SlotTermsStep(TheAction(), permutationSign, rest, S, i);
    }

    // All permutations but the first of stored term number `current`.
    method PermuteOne()
      requires Valid() && permuteBlocks != [] && current < |originals| && TheAction().Proper(|originals[current]|)
      modifies `originals, `multiplicity
      ensures Valid()
      ensures Terms() == old(Terms())
        + NewFrom(TheAction(), permutationSign, NotFirst(|permuteBlocks|), old(Terms()[current]))
    {
      var objects: seq<T> := [];
      for k := 0 to |permuteBlocks|
        invariant |objects| == k
      {
        objects := objects + [originals[current][permuteBlocks[k]]];
      }
      var calls := Permutations(objects);
      ghost var before := Terms();
      PermutationListIs(|permuteBlocks|);
      ghost var rest := NotFirst(|permuteBlocks|);
      var firstOne := true;
      for n := 0 to |calls|
        invariant Valid() && firstOne == (n == 0)
        invariant Terms() == before
          + NewFrom(TheAction(), permutationSign, rest[..if n == 0 then 0 else n - 1], before[current])
      {
        if firstOne {
          firstOne := false;
        } else {
          assert calls[n] == rest[n - 1];
          SlotCall(calls[n], n - 1, before, rest);
        }
      }
      assert rest[..|calls| - 1] == rest;
    }

    method SlotCall(vec: seq<nat>, n: nat, ghost before: seq<Term<T>>, ghost rest: seq<seq<nat>>)
      requires Valid() && permuteBlocks != [] && current < |before| && TheAction().Proper(|before[current].entries|)
      requires rest == NotFirst(|permuteBlocks|) && n < |rest| && vec == rest[n]
      requires Terms() == before + NewFrom(TheAction(), permutationSign, rest[..n], before[current])
      modifies `originals, `multiplicity
      ensures Valid() && Terms() == before + NewFrom(TheAction(), permutationSign, rest[..n + 1], before[current])
    {
      hide SlotsPermuted, IsPermutation, Act, NewFrom;
      NotFirstPermutes(|permuteBlocks|, n);
      SameOriginals(before, NewFrom(TheAction(), permutationSign, rest[..n], before[current]), current);
      assert originals[current] == Terms()[current].entries && multiplicity[current] == Terms()[current].factor;
      NewFromStep(TheAction(), permutationSign, rest, n, before[current]);
      SlotVectorGenerated(vec);
    }
  }

  lemma NewFromStep<T>(a: Action<T>, sign: int, ps: seq<seq<nat>>, n: nat, t: Term<T>)
    requires n < |ps|
    ensures NewFrom(a, sign, ps[..n + 1], t)
         == NewFrom(a, sign, ps[..n], t) + [Term(Act(a, ps[n], t.entries), Signed(SignOf(sign, ps[n]), t.factor))]
  {
  }

  lemma SameOriginals<T>(S: seq<Term<T>>, R: seq<Term<T>>, i: nat)
    requires i < |S|
    ensures (S + R)[i] == S[i]
  {
  }

  lemma SlotTermsStep<T>(a: Action<T>, sign: int, ps: seq<seq<nat>>, S: seq<Term<T>>, i: nat)
    requires i < |S|
    ensures SlotTerms(a, sign, ps, S[..i + 1]) == SlotTerms(a, sign, ps, S[..i]) + NewFrom(a, sign, ps, S[i])
  {
    assert S[..i + 1][..i] == S[..i];
  }

  // The arrangement after the first k slots have been written.
  ghost predicate SlotsWritten<T>(w: seq<T>, blocks: seq<nat>, vec: seq<nat>, k: nat, entry: seq<T>)
    requires Permutes(|blocks|, vec) && InRange(|w|, blocks)
  {
    |entry| == |w| && forall i :: 0 <= i < |w| ==> entry[i] == SlotAfter(w, blocks, vec, k, i)
  }

  ghost function SlotAfter<T>(w: seq<T>, blocks: seq<nat>, vec: seq<nat>, k: nat, i: nat): T
    requires Permutes(|blocks|, vec) && InRange(|w|, blocks) && i < |w|
  {
    var j := IndexOf(blocks, i);
    if j < k && j < |blocks| then w[blocks[vec[j]]] else w[i]
  }

  lemma SlotWritten<T>(w: seq<T>, blocks: seq<nat>, vec: seq<nat>, k: nat, entry: seq<T>)
    requires Permutes(|blocks|, vec) && InRange(|w|, blocks) && Distinct(blocks) && k < |blocks|
    requires SlotsWritten(w, blocks, vec, k, entry)
    ensures SlotsWritten(w, blocks, vec, k + 1, entry[blocks[k] := w[blocks[vec[k]]]])
  {
    IndexOfOwn(blocks, k);
    forall i | 0 <= i < |w| && i != blocks[k]
      ensures SlotAfter(w, blocks, vec, k + 1, i) == SlotAfter(w, blocks, vec, k, i) {}
  }

  lemma NotFirstPerms(n: nat)
    requires n > 0
    ensures Perms(n, NotFirst(n))
  {
    forall k | 0 <= k < |NotFirst(n)| ensures Permutes(n, NotFirst(n)[k]) { NotFirstPermutes(n, k); }
  }

  lemma NotFirstPermutes(n: nat, k: nat)
    requires n > 0 && k < |NotFirst(n)|
    ensures Permutes(n, NotFirst(n)[k])
  {
    PermutationListIs(n);
    assert NotFirst(n)[k] == PermutationList(n)[k + 1];
    assert PermutationList(n)[k + 1] in multiset(PermutationList(n));
  }
}
