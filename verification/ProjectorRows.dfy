// What the row pass of projector leaves: every rearrangement of the boxes inside
// their rows, once.

module ProjectorRows {
  import opened Signs
  import opened Generator
  import opened Tableaux
  import opened Symmetry
  import opened SymmetriserClass
  import opened Projector

  // Number of boxes in the first r rows.
  function Start<T>(tab: Filled<T>, r: nat): nat
    requires r <= |tab|
  {
    if r == 0 then 0 else Start(tab, r - 1) + |tab[r - 1]|
  }

  lemma {:induction false} StartMonotone<T>(tab: Filled<T>, r: nat, s: nat)
    requires r <= s <= |tab|
    ensures Start(tab, r) <= Start(tab, s)
    decreases s
  {
    if r < s { StartMonotone(tab, r, s - 1); }
  }

  // What stands in the boxes of row q.
  function Segment<T>(tab: Filled<T>, v: seq<T>, q: nat): (s: seq<T>)
    requires q < |tab| && |v| == Start(tab, |tab|)
    ensures |s| == |tab[q]|
  {
    StartMonotone(tab, q + 1, |tab|);
    v[Start(tab, q)..Start(tab, q) + |tab[q]|]
  }

  lemma SegmentAt<T>(tab: Filled<T>, v: seq<T>, q: nat, c: nat)
    requires q < |tab| && |v| == Start(tab, |tab|) && c < |tab[q]|
    ensures Start(tab, q) + c < |v| && Segment(tab, v, q)[c] == v[Start(tab, q) + c]
  {
    StartMonotone(tab, q + 1, |tab|);
  }

  // The rows below number r are rearranged, the others as in the tableau.
  ghost predicate Shuffled<T>(tab: Filled<T>, r: nat, v: seq<T>)
    requires |v| == Start(tab, |tab|)
  {
    forall q :: 0 <= q < |tab| ==>
      if q < r then multiset(Segment(tab, v, q)) == multiset(tab[q]) else Segment(tab, v, q) == tab[q]
  }

  // ------------------------------------------------------------------- The start

  lemma {:induction false} BoxesAreRows<T>(tab: Filled<T>, r: nat)
    requires r <= |tab|
    ensures |Boxes(tab, r)| == Start(tab, r)
  {
    if r > 0 { BoxesAreRows(tab, r - 1); }
  }

  lemma {:induction false} BoxAt<T>(tab: Filled<T>, r: nat, q: nat, c: nat)
    requires q < r <= |tab| && c < |tab[q]|
    ensures Start(tab, q) + c < |Boxes(tab, r)| && Boxes(tab, r)[Start(tab, q) + c] == tab[q][c]
  {
    BoxesAreRows(tab, r - 1);
    if q < r - 1 { BoxAt(tab, r - 1, q, c); }
  }

  lemma OnlyBoxes<T>(tab: Filled<T>, v: seq<T>)
    requires |v| == Start(tab, |tab|)
    ensures Shuffled(tab, 0, v) <==> v == Boxes(tab, |tab|)
  {
    hide Boxes, Segment, Start;
    if v == Boxes(tab, |tab|) {
      forall q | 0 <= q < |tab| ensures Segment(tab, v, q) == tab[q] {
        forall c | 0 <= c < |tab[q]| ensures Segment(tab, v, q)[c] == tab[q][c] {
          BoxAt(tab, |tab|, q, c);
          SegmentAt(tab, v, q, c);
        }
      }
    }
    if Shuffled(tab, 0, v) { BoxesFromRows(tab, v); }
  }

  lemma BoxesFromRows<T>(tab: Filled<T>, v: seq<T>)
    requires |v| == Start(tab, |tab|) && Shuffled(tab, 0, v)
    ensures v == Boxes(tab, |tab|)
  {
    hide Boxes, Segment, Start;
    BoxesAreRows(tab, |tab|);
    forall k | 0 <= k < |v| ensures v[k] == Boxes(tab, |tab|)[k] {
      var q, c := BoxWhere(tab, |tab|, k);
      BoxesAreRows(tab, q);
      SegmentAt(tab, v, q, c);
      assert Segment(tab, v, q) == tab[q];
    }
  }

  // -------------------------------------------------------------------- One row

  // Before row r was permuted by p: the other rows as in v, and row r itself.
  lemma BeforePermuting<T>(tab: Filled<T>, r: nat, p: seq<nat>, u: seq<T>, v: seq<T>)
    requires r < |tab| && |u| == |v| == Start(tab, |tab|) && Permutes(|tab[r]|, p)
    requires InRange(|u|, RowBlocks(tab, r)) && SlotsPermuted(RowBlocks(tab, r), p, u, v)
    ensures forall q :: 0 <= q < |tab| && q != r ==> Segment(tab, u, q) == Segment(tab, v, q)
    ensures Segment(tab, u, r) == tab[r] <==> Segment(tab, v, r) == Pick(tab[r], p)
  {
    OtherRows(tab, r, p, u, v);
    ThisRow(tab, r, p, u, v);
  }

  lemma OtherRows<T>(tab: Filled<T>, r: nat, p: seq<nat>, u: seq<T>, v: seq<T>)
    requires r < |tab| && |u| == |v| == Start(tab, |tab|) && Permutes(|tab[r]|, p)
    requires InRange(|u|, RowBlocks(tab, r)) && SlotsPermuted(RowBlocks(tab, r), p, u, v)
    ensures forall q :: 0 <= q < |tab| && q != r ==> Segment(tab, u, q) == Segment(tab, v, q)
  {
    BoxesAreRows(tab, r);
    forall q | 0 <= q < |tab| && q != r ensures Segment(tab, u, q) == Segment(tab, v, q) {
      if q < r { StartMonotone(tab, q + 1, r); } else { StartMonotone(tab, r + 1, q); }
      StartMonotone(tab, q + 1, |tab|);
      forall i | Start(tab, q) <= i < Start(tab, q) + |tab[q]| ensures u[i] == v[i] {
        assert i !in RowBlocks(tab, r);
      }
    }
  }

  lemma ThisRow<T>(tab: Filled<T>, r: nat, p: seq<nat>, u: seq<T>, v: seq<T>)
    requires r < |tab| && |u| == |v| == Start(tab, |tab|) && Permutes(|tab[r]|, p)
    requires InRange(|u|, RowBlocks(tab, r)) && SlotsPermuted(RowBlocks(tab, r), p, u, v)
    ensures Segment(tab, u, r) == tab[r] <==> Segment(tab, v, r) == Pick(tab[r], p)
  {
    hide Segment, Start, Pick, SlotsPermuted, RowBlocks;
    var U, V := Segment(tab, u, r), Segment(tab, v, r);
    forall k | 0 <= k < |tab[r]| ensures V[k] == U[p[k]] { SlotOfRow(tab, r, p, u, v, k); }
    Unpicked(tab[r], p, U, V);
  }

  lemma SlotOfRow<T>(tab: Filled<T>, r: nat, p: seq<nat>, u: seq<T>, v: seq<T>, k: nat)
    requires r < |tab| && |u| == |v| == Start(tab, |tab|) && Permutes(|tab[r]|, p) && k < |tab[r]|
    requires InRange(|u|, RowBlocks(tab, r)) && SlotsPermuted(RowBlocks(tab, r), p, u, v)
    ensures Segment(tab, v, r)[k] == Segment(tab, u, r)[p[k]]
  {
    hide Segment, Start;
    var b := RowBlocks(tab, r);
    BoxesAreRows(tab, r);
    SegmentAt(tab, v, r, k);
    SegmentAt(tab, u, r, p[k]);
    assert v[b[k]] == u[b[p[k]]];
  }

  lemma Unpicked<T>(row: seq<T>, p: seq<nat>, U: seq<T>, V: seq<T>)
    requires |U| == |V| == |row| && Permutes(|row|, p) && forall k :: 0 <= k < |row| ==> V[k] == U[p[k]]
    ensures U == row <==> V == Pick(row, p)
  {
    PermutationOnto(p);
    if V == Pick(row, p) {
      forall c | 0 <= c < |row| ensures U[c] == row[c] {
        assert c in p;
        var k :| 0 <= k < |p| && p[k] == c;
        assert V[k] == Pick(row, p)[k];
      }
    }
  }

  // ------------------------------------------------------------ One permutation

  lemma {:induction false} OneHotSum<T>(ps: seq<seq<nat>>, a: Action<T>, S: seq<Term<T>>, v: seq<T>, q: seq<nat>,
      x: int)
    requires forall k :: 0 <= k < |ps| ==> Coef(Map(a, ps[k], 1, S), v) == if ps[k] == q then x else 0
    ensures SumOver(ps, a, 1, S, v) == if x == 0 then 0 else x * multiset(ps)[q]
  {
    hide Map, Coef;
    if ps != [] {
      var n := |ps| - 1;
      OneHotSum(ps[..n], a, S, v, q, x);
      assert ps == ps[..n] + [ps[n]];
      if x != 0 { assert x * (multiset(ps[..n])[q] + 1) == x * multiset(ps[..n])[q] + x; }
    }
  }

  // The permutation that makes one list of different entries into another.
  lemma OnePermutation<T>(row: seq<T>, s: seq<T>) returns (q: seq<nat>)
    requires Distinct(row) && multiset(s) == multiset(row)
    ensures Permutes(|row|, q) && Pick(row, q) == s
    ensures forall p :: Permutes(|row|, p) && Pick(row, p) == s ==> p == q
  {
    SameSize(s, row);
    forall x ensures x in s <==> x in row { assert x in multiset(s) <==> x in multiset(row); }
    DistinctSame(row, s);
    RanksPermutation(row, s);
    q := Ranks(row, s);
    forall p | Permutes(|row|, p) && Pick(row, p) == s ensures p == q {
      forall k | 0 <= k < |p| ensures p[k] == q[k] {
        assert s[k] == Pick(row, p)[k] == row[p[k]];
        IndexOfOwn(row, p[k]);
      }
    }
  }

  lemma DistinctSame<T>(row: seq<T>, s: seq<T>)
    requires Distinct(row) && multiset(s) == multiset(row)
    ensures Distinct(s)
  {
    DistinctMultiset(row);
    forall i, j | 0 <= i < j < |s| ensures s[i] != s[j] {
      if s[i] == s[j] { TwiceThere(s, i, j); }
    }
  }

  lemma TwiceThere<T>(s: seq<T>, i: nat, j: nat)
    requires i < j < |s| && s[i] == s[j]
    ensures multiset(s)[s[i]] >= 2
  {
    assert s == s[..i] + [s[i]] + s[i + 1..j] + [s[j]] + s[j + 1..];
  }

  lemma PickMultiset<T>(row: seq<T>, p: seq<nat>)
    requires Permutes(|row|, p) && Distinct(row)
    ensures multiset(Pick(row, p)) == multiset(row)
  {
    var s := Pick(row, p);
    PermutationOnto(p);
    forall i, j | 0 <= i < j < |s| ensures s[i] != s[j] {}
    forall x ensures x in s <==> x in row {
      if x in row {
        var i :| 0 <= i < |row| && row[i] == x;
        assert i in p;
        var k :| 0 <= k < |p| && p[k] == i;
        assert s[k] == x;
      }
    }
    DistinctMultiset(s);
    DistinctMultiset(row);
  }

  // -------------------------------------------------------------------- All rows

  // The other rows of v are as they should be before row r is permuted.
  ghost predicate OthersShuffled<T>(tab: Filled<T>, r: nat, v: seq<T>)
    requires |v| == Start(tab, |tab|)
  {
    forall q :: 0 <= q < |tab| && q != r ==>
      if q < r then multiset(Segment(tab, v, q)) == multiset(tab[q]) else Segment(tab, v, q) == tab[q]
  }

  lemma RowDistinct<T>(tab: Filled<T>, r: nat)
    requires DistinctBoxes(tab) && r < |tab|
    ensures Distinct(tab[r])
  {
  }

  // One permutation contributes when it makes the row what v has there.
  lemma Contribution<T>(tab: Filled<T>, r: nat, v: seq<T>, p: seq<nat>)
    requires YoungRows(tab) && DistinctBoxes(tab) && r < |tab| && |v| == Start(tab, |tab|) && Permutes(|tab[r]|, p)
    requires forall u: seq<T> :: |u| == |v| ==> Coef(AfterRows(tab, r), u) == if Shuffled(tab, r, u) then 1 else 0
    ensures Coef(Map(BySlot(RowBlocks(tab, r)), p, 1, AfterRows(tab, r)), v)
         == if OthersShuffled(tab, r, v) && Segment(tab, v, r) == Pick(tab[r], p) then 1 else 0
  {
    hide AfterRows, Segment, Act, Map, Coef, Pick;
    var a, S := BySlot(RowBlocks(tab, r)), AfterRows(tab, r);
    BoxesAreRows(tab, |tab|);
    RowProper(tab, r);
    RowsGood(tab, r);
    GoodSlots(a, |v|, S);
    CoefMap(a, p, 1, |v|, S, v);
    ActInverse(a, p, v);
    var u := Act(a, Inverse(p), v);
    ActPermutesSlots(a.blocks, p, u);
    BeforePermuting(tab, r, p, u, v);
    assert Shuffled(tab, r, u) <==> OthersShuffled(tab, r, v) && Segment(tab, u, r) == tab[r];
  }

  lemma GoodSlots<T>(a: Action<T>, length: nat, S: seq<Term<T>>)
    requires a.Proper(length) && GoodTerms(length, S)
    ensures ProperOn(a, length, S)
  {
    forall i | 0 <= i < |S| ensures |S[i].entries| == length { assert GoodTerm(length, S[i]); }
  }

  lemma RowStep<T>(tab: Filled<T>, r: nat, v: seq<T>)
    requires YoungRows(tab) && DistinctBoxes(tab) && r < |tab| && |v| == Start(tab, |tab|)
    requires forall u: seq<T> :: |u| == |v| ==> Coef(AfterRows(tab, r), u) == if Shuffled(tab, r, u) then 1 else 0
    ensures Coef(AfterRows(tab, r + 1), v) == if Shuffled(tab, r + 1, v) then 1 else 0
  {
    hide AfterRows, Segment, Map, Coef, Pick, Symmetrised, SumOver;
    var a, S, n, seg := BySlot(RowBlocks(tab, r)), AfterRows(tab, r), |tab[r]|, Segment(tab, v, r);
    var ps := PermutationList(n);
    RowsApplied(tab, r, v);
    PermutationListIs(n);
    RowDistinct(tab, r);
    var ok := OthersShuffled(tab, r, v);
    forall k | 0 <= k < |ps| ensures Permutes(n, ps[k]) { assert ps[k] in multiset(ps); }
    forall k | 0 <= k < |ps|
      ensures Coef(Map(a, ps[k], 1, S), v) == if ok && seg == Pick(tab[r], ps[k]) then 1 else 0
    {
      Contribution(tab, r, v, ps[k]);
    }
    if multiset(seg) == multiset(tab[r]) {
      var q := OnePermutation(tab[r], seg);
      OneHotSum(ps, a, S, v, q, if ok then 1 else 0);
    } else {
      forall k | 0 <= k < |ps| ensures seg != Pick(tab[r], ps[k]) { PickMultiset(tab[r], ps[k]); }
      OneHotSum(ps, a, S, v, [], 0);
    }
    assert Shuffled(tab, r + 1, v) <==> ok && multiset(seg) == multiset(tab[r]);
  }

  lemma RowsApplied<T>(tab: Filled<T>, r: nat, v: seq<T>)
    requires YoungRows(tab) && DistinctBoxes(tab) && r < |tab| && |v| == Start(tab, |tab|)
    ensures Coef(AfterRows(tab, r + 1), v)
         == SumOver(PermutationList(|tab[r]|), BySlot(RowBlocks(tab, r)), 1, AfterRows(tab, r), v)
  {
    hide Symmetrised, SumOver, Coef;
    BoxesAreRows(tab, |tab|);
    RowProper(tab, r);
    RowsGood(tab, r);
    GoodSlots(BySlot(RowBlocks(tab, r)), |v|, AfterRows(tab, r));
    SymmetrisedIsSum(BySlot(RowBlocks(tab, r)), 1, |v|, AfterRows(tab, r), v);
  }

  lemma NoRows<T>(tab: Filled<T>, v: seq<T>)
    requires YoungRows(tab)
    ensures Coef(AfterRows(tab, 0), v) == if v == Boxes(tab, |tab|) then 1 else 0
  {
    assert [Term(Boxes(tab, |tab|), 1)][..0] == [];
  }

  lemma {:induction false} RowsSoFar<T>(tab: Filled<T>, r: nat, v: seq<T>)
    requires YoungRows(tab) && DistinctBoxes(tab) && r <= |tab| && |v| == Start(tab, |tab|)
    ensures Coef(AfterRows(tab, r), v) == if Shuffled(tab, r, v) then 1 else 0
  {
    hide Shuffled, Segment, Coef, AfterRows;
    if r == 0 {
      NoRows(tab, v);
      OnlyBoxes(tab, v);
    } else {
      forall u: seq<T> | |u| == |v| ensures Coef(AfterRows(tab, r - 1), u) == if Shuffled(tab, r - 1, u) then 1 else 0 {
        RowsSoFar(tab, r - 1, u);
      }
      RowStep(tab, r - 1, v);
    }
  }

  // After the row pass the arrangements with every row rearranged have coefficient 1,
  // and no others are there.
  lemma RowsExact<T>(tab: Filled<T>, v: seq<T>)
    requires YoungRows(tab) && DistinctBoxes(tab) && |v| == Start(tab, |tab|)
    ensures Coef(AfterRows(tab, |tab|), v) ==
      if forall q :: 0 <= q < |tab| ==> multiset(Segment(tab, v, q)) == multiset(tab[q]) then 1 else 0
  {
    RowsSoFar(tab, |tab|, v);
  }
}
