// filled_tableau::projector: symmetrise the boxes of every row, then
// antisymmetrise the values of every column.

module Projector {
  import opened Signs
  import opened Generator
  import opened Counting
  import opened Tableaux
  import opened Symmetry
  import opened SymmetriserClass

  // ------------------------------------------------------ The terms it builds

  ghost function AfterRows<T>(tab: Filled<T>, r: nat): seq<Term<T>>
    requires r <= |tab| && YoungRows(tab)
  {
    if r == 0 then [Term(Boxes(tab, |tab|), 1)]
    else Symmetrised(BySlot(RowBlocks(tab, r - 1)), 1, AfterRows(tab, r - 1))
  }

  ghost function AfterColumns<T>(tab: Filled<T>, c: nat): seq<Term<T>>
    requires YoungRows(tab)
  {
    if c == 0 then AfterRows(tab, |tab|)
    else if |Column(tab, c - 1)| > 1 then Symmetrised(ByValue(Column(tab, c - 1)), -1, AfterColumns(tab, c - 1))
    else AfterColumns(tab, c - 1)
  }

  // Terms over `length` different entries with factors 1 and -1.
  ghost predicate GoodTerms<T>(length: nat, S: seq<Term<T>>) {
    forall i :: 0 <= i < |S| ==> GoodTerm(length, S[i])
  }

  ghost predicate GoodTerm<T>(length: nat, t: Term<T>) {
    |t.entries| == length && Distinct(t.entries) && (t.factor == 1 || t.factor == -1)
  }

  lemma ActGood<T>(a: Action<T>, p: seq<nat>, s: int, length: nat, t: Term<T>)
    requires a.Proper(length) && Permutes(a.Size(), p) && GoodTerm(length, t)
    ensures GoodTerm(length, Term(Act(a, p, t.entries), Signed(s, t.factor)))
  {
    ActDistinct(a, p, t.entries);
  }

  lemma {:induction false} SlotTermsGood<T>(a: Action<T>, sign: int, ps: seq<seq<nat>>, length: nat, S: seq<Term<T>>)
    requires a.Proper(length) && Perms(a.Size(), ps) && GoodTerms(length, S)
    ensures GoodTerms(length, SlotTerms(a, sign, ps, S)) && |SlotTerms(a, sign, ps, S)| == |S| * |ps|
  {
    if S != [] {
      var n := |S| - 1;
      SlotTermsGood(a, sign, ps, length, S[..n]);
      assert GoodTerm(length, S[n]);
      forall j | 0 <= j < |ps| ensures GoodTerm(length, NewFrom(a, sign, ps, S[n])[j]) {
        ActGood(a, ps[j], SignOf(sign, ps[j]), length, S[n]);
      }
      assert |S| * |ps| == n * |ps| + |ps|;
    }
  }

  lemma {:induction false} ValueTermsGood<T>(a: Action<T>, sign: int, ps: seq<seq<nat>>, length: nat, S: seq<Term<T>>)
    requires a.Proper(length) && Perms(a.Size(), ps) && GoodTerms(length, S)
    ensures GoodTerms(length, ValueTerms(a, sign, ps, S)) && |ValueTerms(a, sign, ps, S)| == |S| * |ps|
  {
    if ps != [] {
      var n := |ps| - 1;
      ValueTermsGood(a, sign, ps[..n], length, S);
      var R := Map(a, ps[n], SignOf(sign, ps[n]), S);
      forall i | 0 <= i < |S| ensures GoodTerm(length, R[i]) {
        assert GoodTerm(length, S[i]);
        ActGood(a, ps[n], SignOf(sign, ps[n]), length, S[i]);
      }
      assert |S| * |ps| == |S| * n + |S|;
    }
  }

  lemma {:induction false} OnesFactorials(sub: seq<nat>, g: nat)
    requires g <= |sub| && forall k :: 0 <= k < |sub| ==> sub[k] == 1
    ensures ProductOfFactorials(sub, g) == 1
    decreases |sub| - g
  {
    if g < |sub| {
      OnesFactorials(sub, g + 1);
      FactorialOfOne(1);
    }
  }

  lemma PermutationCount(n: nat)
    requires n > 0
    ensures |PermutationList(n)| == Factorial(n)
  {
    var P := UnitProblem(n);
    UnitProblemIs(n);
    TotalPermutations(P);
    OnesFactorials(P.sublengths, 0);
    FactorialOfOne(0);
    TimesOnes(|Generated(P)|, Factorial(P.n - P.Length()), ProductOfFactorials(P.sublengths, 0));
  }

  lemma TimesOnes(x: nat, y: nat, z: nat)
    requires y == 1 && z == 1
    ensures x * y * z == x
  {
  }

  lemma NotFirstIs(n: nat)
    requires n > 0
    ensures Perms(n, NotFirst(n)) && |NotFirst(n)| == Factorial(n) - 1
  {
    PermutationListIs(n);
    PermutationCount(n);
    forall k | 0 <= k < |NotFirst(n)| ensures Permutes(n, NotFirst(n)[k]) { NotFirstPermutes(n, k); }
  }

  // One apply_symmetry multiplies the number of terms by the number of permutations.
  lemma SymmetrisedGood<T>(a: Action<T>, sign: int, length: nat, S: seq<Term<T>>)
    requires a.Size() > 0 && a.Proper(length) && GoodTerms(length, S)
    ensures GoodTerms(length, Symmetrised(a, sign, S)) && |Symmetrised(a, sign, S)| == |S| * Factorial(a.Size())
  {
    var ps := NotFirst(a.Size());
    NotFirstIs(a.Size());
    SlotTermsGood(a, sign, ps, length, S);
    ValueTermsGood(a, sign, ps, length, S);
    assert |S| + |S| * |ps| == |S| * (1 + |ps|);
  }

  // ------------------------------------------------------------- Its geometry

  lemma {:induction false} BoxesMonotone<T>(tab: Filled<T>, r: nat, s: nat)
    requires r <= s <= |tab|
    ensures |Boxes(tab, r)| <= |Boxes(tab, s)|
    decreases s
  {
    if r < s { BoxesMonotone(tab, r, s - 1); }
  }

  lemma {:induction false} BoxWhere<T>(tab: Filled<T>, r: nat, k: nat) returns (s: nat, c: nat)
    requires r <= |tab| && k < |Boxes(tab, r)|
    ensures s < r && c < |tab[s]| && Boxes(tab, r)[k] == tab[s][c] && k == |Boxes(tab, s)| + c
  {
    if k < |Boxes(tab, r - 1)| {
      s, c := BoxWhere(tab, r - 1, k);
    } else {
      s, c := r - 1, k - |Boxes(tab, r - 1)|;
    }
  }

  lemma BoxesDistinct<T>(tab: Filled<T>)
    requires DistinctBoxes(tab)
    ensures Distinct(Boxes(tab, |tab|))
  {
    var b := Boxes(tab, |tab|);
    forall i, j | 0 <= i < j < |b| ensures b[i] != b[j] {
      var r, c := BoxWhere(tab, |tab|, i);
      var s, d := BoxWhere(tab, |tab|, j);
    }
  }

  lemma RowProper<T>(tab: Filled<T>, r: nat)
    requires r < |tab|
    ensures Distinct(RowBlocks(tab, r)) && InRange(|Boxes(tab, |tab|)|, RowBlocks(tab, r))
  {
    BoxesMonotone(tab, r + 1, |tab|);
  }

  // --------------------------------------------------------- Counting the terms

  function RowFactorials<T>(tab: Filled<T>, r: nat): nat
    requires r <= |tab|
  {
    if r == 0 then 1 else RowFactorials(tab, r - 1) * Factorial(|tab[r - 1]|)
  }

  function ColumnFactorials<T>(tab: Filled<T>, c: nat): nat {
    if c == 0 then 1 else ColumnFactorials(tab, c - 1) * Factorial(|Column(tab, c - 1)|)
  }

  lemma OneTermGood<T>(x: seq<T>)
    requires Distinct(x)
    ensures GoodTerms(|x|, [Term(x, 1)])
  {
  }

  lemma {:induction false} RowsGood<T>(tab: Filled<T>, r: nat)
    requires r <= |tab| && YoungRows(tab) && DistinctBoxes(tab)
    ensures GoodTerms(|Boxes(tab, |tab|)|, AfterRows(tab, r)) && |AfterRows(tab, r)| == RowFactorials(tab, r)
  {
    hide Symmetrised, RowBlocks, GoodTerms;
    if r == 0 {
      BoxesDistinct(tab);
      OneTermGood(Boxes(tab, |tab|));
    } else {
      RowsGood(tab, r - 1);
      RowProper(tab, r - 1);
      SymmetrisedGood(BySlot(RowBlocks(tab, r - 1)), 1, |Boxes(tab, |tab|)|, AfterRows(tab, r - 1));
    }
  }

  lemma {:induction false} ColumnsGood<T>(tab: Filled<T>, c: nat)
    requires YoungRows(tab) && DistinctBoxes(tab)
    ensures GoodTerms(|Boxes(tab, |tab|)|, AfterColumns(tab, c))
    ensures |AfterColumns(tab, c)| == TermCount(tab, c)
  {
    hide Symmetrised, GoodTerms, Column, AfterRows, Factorial;
    if c == 0 {
      RowsGood(tab, |tab|);
    } else {
      ColumnsGood(tab, c - 1);
      ColumnStep(tab, c - 1);
    }
  }

  function TermCount<T>(tab: Filled<T>, c: nat): nat {
    if c == 0 then RowFactorials(tab, |tab|) else TermCount(tab, c - 1) * Factorial(|Column(tab, c - 1)|)
  }

  lemma {:induction false} TermCountFactors<T>(tab: Filled<T>, c: nat)
    ensures TermCount(tab, c) == RowFactorials(tab, |tab|) * ColumnFactorials(tab, c)
  {
    if c > 0 {
      TermCountFactors(tab, c - 1);
      Reassociate(RowFactorials(tab, |tab|), ColumnFactorials(tab, c - 1), Factorial(|Column(tab, c - 1)|));
    }
  }

  // prod (row length)! * prod (column length)! signed terms.
  lemma ProjectorTerms<T>(tab: Filled<T>, c: nat)
    requires YoungRows(tab) && DistinctBoxes(tab)
    ensures GoodTerms(|Boxes(tab, |tab|)|, AfterColumns(tab, c))
    ensures |AfterColumns(tab, c)| == RowFactorials(tab, |tab|) * ColumnFactorials(tab, c)
  {
    ColumnsGood(tab, c);
    TermCountFactors(tab, c);
  }

  lemma Reassociate(x: nat, y: nat, z: nat)
    ensures (x * y) * z == x * (y * z)
  {
  }

  lemma ColumnStep<T>(tab: Filled<T>, c: nat)
    requires YoungRows(tab) && DistinctBoxes(tab)
    requires GoodTerms(|Boxes(tab, |tab|)|, AfterColumns(tab, c))
    ensures GoodTerms(|Boxes(tab, |tab|)|, AfterColumns(tab, c + 1))
    ensures |AfterColumns(tab, c + 1)| == |AfterColumns(tab, c)| * Factorial(|Column(tab, c)|)
  {
    var x := Column(tab, c);
    ColumnDistinct(tab, c);
    if |x| > 1 {
      SymmetrisedGood(ByValue(x), -1, |Boxes(tab, |tab|)|, AfterColumns(tab, c));
    } else {
      FactorialOfOne(|x|);
    }
  }

  lemma FactorialOfOne(n: nat)
    requires n <= 1
    ensures Factorial(n) == 1
  {
    assert Factorial(0) == 1;
    assert n == 1 ==> Factorial(n) == 1 * Factorial(0);
  }

  // ------------------------------------------------------------- Antisymmetry

  // Exchanging values number i and j of x in every term changes the sign of S.
  ghost predicate Antisymmetric<T(!new)>(length: nat, x: seq<T>, i: nat, j: nat, S: seq<Term<T>>)
    requires i < j < |x|
  {
    forall v :: |v| == length ==> Coef(S, Act(ByValue(x), Transposition(|x|, i, j), v)) == -Coef(S, v)
  }

  // Permuting values of one column and of another commutes.
  lemma ColumnsCommute<T>(x: seq<T>, p: seq<nat>, y: seq<T>, q: seq<nat>, v: seq<T>)
    requires Disjoint(x, y) && Permutes(|x|, p) && Permutes(|y|, q)
    ensures Act(ByValue(x), p, Act(ByValue(y), q, v)) == Act(ByValue(y), q, Act(ByValue(x), p, v))
  {
    forall k | 0 <= k < |v|
      ensures Act(ByValue(x), p, Act(ByValue(y), q, v))[k] == Act(ByValue(y), q, Act(ByValue(x), p, v))[k]
    {
      var i, j := IndexOf(x, v[k]), IndexOf(y, v[k]);
      NotInOther(x, p, y, i);
      NotInOther(y, q, x, j);
    }
  }

  lemma NotInOther<T>(x: seq<T>, p: seq<nat>, y: seq<T>, i: nat)
    requires Disjoint(x, y) && Permutes(|x|, p)
    ensures i < |x| ==> IndexOf(y, x[i]) == |y| && IndexOf(y, x[p[i]]) == |y|
  {
    if i < |x| {
      assert x[i] !in y && x[p[i]] !in y;
    }
  }

  lemma {:induction false} SumKeepsAntisymmetry<T(!new)>(ps: seq<seq<nat>>, y: seq<T>, sign: int, length: nat,
      S: seq<Term<T>>, x: seq<T>, i: nat, j: nat, v: seq<T>)
    requires i < j < |x| && Distinct(x) && Distinct(y) && Disjoint(x, y) && Perms(|y|, ps) && |v| == length
    requires ProperOn(ByValue(y), length, S) && Antisymmetric(length, x, i, j, S)
    ensures SumOver(ps, ByValue(y), sign, S, Act(ByValue(x), Transposition(|x|, i, j), v))
         == -SumOver(ps, ByValue(y), sign, S, v)
  {
    hide Antisymmetric, ProperOn, Distinct, Disjoint, Act, Map, Coef, Transposition;
    if ps != [] {
      var n := |ps| - 1;
      SumKeepsAntisymmetry(ps[..n], y, sign, length, S, x, i, j, v);
      MapKeepsAntisymmetry(ps[n], y, SignOf(sign, ps[n]), length, S, x, i, j, v);
    }
  }

  lemma MapKeepsAntisymmetry<T(!new)>(p: seq<nat>, y: seq<T>, s: int, length: nat, S: seq<Term<T>>,
                                x: seq<T>, i: nat, j: nat, v: seq<T>)
    requires i < j < |x| && Distinct(x) && Distinct(y) && Disjoint(x, y) && Permutes(|y|, p) && |v| == length
    requires ProperOn(ByValue(y), length, S) && Antisymmetric(length, x, i, j, S)
    ensures Coef(Map(ByValue(y), p, s, S), Act(ByValue(x), Transposition(|x|, i, j), v))
         == -Coef(Map(ByValue(y), p, s, S), v)
  {
    var t := Transposition(|x|, i, j);
    TranspositionIs(|x|, i, j);
    InverseIs(p);
    CoefMap(ByValue(y), p, s, length, S, Act(ByValue(x), t, v));
    CoefMap(ByValue(y), p, s, length, S, v);
    ColumnsCommute(x, t, y, Inverse(p), v);
    var u := Act(ByValue(y), Inverse(p), v);
    assert Coef(S, Act(ByValue(x), t, u)) == -Coef(S, u);
  }

  // Antisymmetrising another column leaves this one antisymmetric.
  lemma OtherColumnKeeps<T(!new)>(y: seq<T>, length: nat, S: seq<Term<T>>, x: seq<T>, i: nat, j: nat)
    requires i < j < |x| && Distinct(x) && Distinct(y) && Disjoint(x, y) && |y| > 0
    requires ProperOn(ByValue(y), length, S) && Antisymmetric(length, x, i, j, S)
    ensures Antisymmetric(length, x, i, j, Symmetrised(ByValue(y), -1, S))
  {
    var a, R := ByValue(y), Symmetrised(ByValue(y), -1, S);
    forall v | |v| == length
      ensures Coef(R, Act(ByValue(x), Transposition(|x|, i, j), v)) == -Coef(R, v)
    {
      var w := Act(ByValue(x), Transposition(|x|, i, j), v);
      SymmetrisedIsSum(a, -1, length, S, v);
      SymmetrisedIsSum(a, -1, length, S, w);
      ListPerms(|y|);
      SumKeepsAntisymmetry(PermutationList(|y|), y, -1, length, S, x, i, j, v);
    }
  }

  lemma ListPerms(n: nat)
    requires n > 0
    ensures Perms(n, PermutationList(n))
  {
    PermutationListIs(n);
    forall k | 0 <= k < |PermutationList(n)| ensures Permutes(n, PermutationList(n)[k]) {
      assert PermutationList(n)[k] in multiset(PermutationList(n));
    }
  }

  lemma OwnColumn<T(!new)>(length: nat, S: seq<Term<T>>, x: seq<T>, i: nat, j: nat)
    requires i < j < |x| && Distinct(x) && ProperOn(ByValue(x), length, S)
    ensures Antisymmetric(length, x, i, j, Symmetrised(ByValue(x), -1, S))
  {
    var R := Symmetrised(ByValue(x), -1, S);
    forall v | |v| == length
      ensures Coef(R, Act(ByValue(x), Transposition(|x|, i, j), v)) == -Coef(R, v)
    {
      SymmetrisedIsSymmetric(ByValue(x), -1, length, S, i, j, v);
    }
  }

  // The projector changes sign when two values of one column are exchanged in
  // every term.
  lemma {:induction false} ProjectorAntisymmetric<T(!new)>(tab: Filled<T>, upto: nat, c: nat, i: nat, j: nat)
    requires YoungRows(tab) && DistinctBoxes(tab) && c < upto && i < j < |Column(tab, c)|
    ensures Antisymmetric(|Boxes(tab, |tab|)|, Column(tab, c), i, j, AfterColumns(tab, upto))
    decreases upto
  {
    hide Symmetrised, Antisymmetric, Column, AfterRows, YoungRows, DistinctBoxes;
    ColumnProper(tab, upto - 1);
    if c == upto - 1 {
      OwnColumn(|Boxes(tab, |tab|)|, AfterColumns(tab, c), Column(tab, c), i, j);
    } else {
      ProjectorAntisymmetric(tab, upto - 1, c, i, j);
      if |Column(tab, upto - 1)| > 1 { LaterColumn(tab, upto - 1, c, i, j); }
    }
  }

  lemma LaterColumn<T(!new)>(tab: Filled<T>, d: nat, c: nat, i: nat, j: nat)
    requires YoungRows(tab) && DistinctBoxes(tab) && c < d && i < j < |Column(tab, c)| && |Column(tab, d)| > 1
    requires Antisymmetric(|Boxes(tab, |tab|)|, Column(tab, c), i, j, AfterColumns(tab, d))
    ensures Antisymmetric(|Boxes(tab, |tab|)|, Column(tab, c), i, j, AfterColumns(tab, d + 1))
  {
    ColumnProper(tab, d);
    ColumnDistinct(tab, c);
    ColumnsDisjoint(tab, c, d);
    OtherColumnKeeps(Column(tab, d), |Boxes(tab, |tab|)|, AfterColumns(tab, d), Column(tab, c), i, j);
  }

  lemma ColumnProper<T>(tab: Filled<T>, c: nat)
    requires YoungRows(tab) && DistinctBoxes(tab)
    ensures Distinct(Column(tab, c)) && ProperOn(ByValue(Column(tab, c)), |Boxes(tab, |tab|)|, AfterColumns(tab, c))
  {
    ColumnsGood(tab, c);
    ColumnDistinct(tab, c);
    GoodProper(Column(tab, c), |Boxes(tab, |tab|)|, AfterColumns(tab, c));
  }

  lemma GoodProper<T>(y: seq<T>, length: nat, S: seq<Term<T>>)
    requires Distinct(y) && GoodTerms(length, S)
    ensures ProperOn(ByValue(y), length, S)
  {
    forall i | 0 <= i < |S| ensures |S[i].entries| == length { assert GoodTerm(length, S[i]); }
  }

  // -------------------------------------------------------------- The method

  // projector without modulo_monoterm, into a fresh symmetriser.
  method Project<T(==)>(tab: Filled<T>, sym: Symmetriser<T>)
    requires tab != [] && YoungRows(tab) && DistinctBoxes(tab)
    requires sym.original == [] && sym.originals == [] && sym.multiplicity == [] && sym.valuePermute == []
    modifies sym
    ensures sym.Valid() && sym.Terms() == AfterColumns(tab, |tab[0]|)
  {
    hide Symmetrised, AfterRows, YoungRows, DistinctBoxes;
    SetOriginal(tab, sym);
    SymmetriseRows(tab, sym);
    sym.permuteBlocks := [];
    for c := 0 to |tab[0]|
      invariant ColumnsDone(tab, sym, c)
    {
      AntisymmetriseColumn(tab, sym, c);
    }
  }

  method SetOriginal<T(==)>(tab: Filled<T>, sym: Symmetriser<T>)
    requires sym.original == []
    modifies sym`original
    ensures sym.original == Boxes(tab, |tab|)
  {
    for r := 0 to |tab|
      invariant sym.original == Boxes(tab, r)
    {
      sym.original := sym.original + tab[r];
    }
  }

  ghost predicate RowsDone<T>(tab: Filled<T>, sym: Symmetriser<T>, r: nat)
    reads sym
    requires r <= |tab| && YoungRows(tab)
  {
    && sym.Valid() && sym.original == Boxes(tab, |tab|) && sym.valuePermute == []
    && (r > 0 ==> sym.originals != []) && sym.Start() == AfterRows(tab, r)
  }

  method SymmetriseRows<T(==)>(tab: Filled<T>, sym: Symmetriser<T>)
    requires tab != [] && YoungRows(tab) && DistinctBoxes(tab)
    requires sym.original == Boxes(tab, |tab|) && sym.originals == [] && sym.multiplicity == []
      && sym.valuePermute == []
    modifies sym
    ensures sym.Valid() && sym.originals != [] && sym.Terms() == AfterRows(tab, |tab|)
  {
    hide RowBlocks, YoungRows, DistinctBoxes, AfterRows;
    var offset := 0;
    NoRowsDone(tab, sym);
    for r := 0 to |tab|
      invariant RowsDone(tab, sym, r) && offset == |Boxes(tab, r)|
    {
      offset := SetRowBlocks(tab, sym, r, offset);
      SymmetriseRow(tab, sym, r);
    }
  }

  lemma NoRowsDone<T>(tab: Filled<T>, sym: Symmetriser<T>)
    requires YoungRows(tab) && sym.originals == [] && sym.multiplicity == [] && sym.valuePermute == []
    requires sym.original == Boxes(tab, |tab|)
    ensures RowsDone(tab, sym, 0)
  {
  }

  method SetRowBlocks<T(==)>(tab: Filled<T>, sym: Symmetriser<T>, r: nat, offsetIn: nat) returns (offset: nat)
    requires r < |tab| && offsetIn == |Boxes(tab, r)|
    modifies sym`permutationSign, sym`permuteBlocks
    ensures sym.permuteBlocks == RowBlocks(tab, r) && sym.permutationSign == 1 && offset == |Boxes(tab, r + 1)|
  {
    offset := offsetIn;
    sym.permutationSign := 1;
    sym.permuteBlocks := [];
    for c := 0 to |tab[r]|
      invariant sym.permutationSign == 1
      invariant offset == |Boxes(tab, r)| + c && sym.permuteBlocks == RowBlocks(tab, r)[..c]
    {
      sym.permuteBlocks := sym.permuteBlocks + [offset];
      offset := offset + 1;
    }
  }

  method SymmetriseRow<T(==)>(tab: Filled<T>, sym: Symmetriser<T>, r: nat)
    requires YoungRows(tab) && DistinctBoxes(tab) && r < |tab| && RowsDone(tab, sym, r)
    requires sym.permuteBlocks == RowBlocks(tab, r) && sym.permutationSign == 1
    modifies sym`originals, sym`multiplicity, sym`current
    ensures RowsDone(tab, sym, r + 1)
  {
    RowsProper(tab, r);
    sym.ApplySymmetry();
    AppliedIsSymmetrised(BySlot(RowBlocks(tab, r)), 1, AfterRows(tab, r));
    assert AfterRows(tab, r + 1) == Symmetrised(BySlot(RowBlocks(tab, r)), 1, AfterRows(tab, r));
  }

  lemma RowsProper<T>(tab: Filled<T>, r: nat)
    requires YoungRows(tab) && DistinctBoxes(tab) && r < |tab|
    ensures Distinct(RowBlocks(tab, r))
    ensures forall i :: 0 <= i < |AfterRows(tab, r)| ==> InRange(|AfterRows(tab, r)[i].entries|, RowBlocks(tab, r))
  {
    RowsGood(tab, r);
    RowProper(tab, r);
    forall i | 0 <= i < |AfterRows(tab, r)| ensures InRange(|AfterRows(tab, r)[i].entries|, RowBlocks(tab, r)) {
      assert GoodTerm(|Boxes(tab, |tab|)|, AfterRows(tab, r)[i]);
    }
  }

  ghost predicate ColumnsDone<T>(tab: Filled<T>, sym: Symmetriser<T>, c: nat)
    reads sym
    requires YoungRows(tab)
  {
    sym.Valid() && sym.originals != [] && sym.permuteBlocks == [] && sym.Terms() == AfterColumns(tab, c)
  }

  method AntisymmetriseColumn<T(==)>(tab: Filled<T>, sym: Symmetriser<T>, c: nat)
    requires YoungRows(tab) && DistinctBoxes(tab) && ColumnsDone(tab, sym, c)
    modifies sym
    ensures ColumnsDone(tab, sym, c + 1)
  {
    SetColumnValues(tab, sym, c);
    if |sym.valuePermute| > 1 {
      ValuesProper(tab, c);
      sym.ApplySymmetry();
      AppliedIsSymmetrised(ByValue(Column(tab, c)), -1, AfterColumns(tab, c));
    }
  }

  method SetColumnValues<T(==)>(tab: Filled<T>, sym: Symmetriser<T>, c: nat)
    modifies sym`valuePermute, sym`permutationSign
    ensures sym.valuePermute == Column(tab, c) && sym.permutationSign == -1
  {
    var r := 0;
    sym.valuePermute := [];
    sym.permutationSign := -1;
    while r < |tab| && c < |tab[r]|
      invariant 0 <= r <= |tab|
      invariant sym.permutationSign == -1 && sym.valuePermute + ColumnFrom(tab, c, r) == Column(tab, c)
    {
      sym.valuePermute := sym.valuePermute + [tab[r][c]];
      r := r + 1;
    }
    assert ColumnFrom(tab, c, r) == [];
  }

  lemma ValuesProper<T>(tab: Filled<T>, c: nat)
    requires YoungRows(tab) && DistinctBoxes(tab)
    ensures Distinct(Column(tab, c))
    ensures AllOnceEach(Column(tab, c), AfterColumns(tab, c))
  {
    ColumnsGood(tab, c);
    ColumnDistinct(tab, c);
    forall i | 0 <= i < |AfterColumns(tab, c)| ensures OnceEach(Column(tab, c), AfterColumns(tab, c)[i].entries) {
      assert GoodTerm(|Boxes(tab, |tab|)|, AfterColumns(tab, c)[i]);
    }
  }
}
