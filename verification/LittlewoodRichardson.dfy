// The Littlewood-Richardson rule as LR_add_box searches it: fillings of skew
// shapes by row numbers of the second tableau.

module LittlewoodRichardson {
  import opened Tableaux

  // A tableau of row numbers; boxes of the first tableau hold OLD.
  type Filling = Filled<int>
  type Shape = seq<nat>

  const OLD: int := -2

  function ShapeOf(T: Filling): (s: Shape)
    ensures |s| == |T| && forall i :: 0 <= i < |T| ==> s[i] == |T[i]|
  {
    seq(|T|, i requires 0 <= i < |T| => |T[i]|)
  }

  ghost predicate YoungShape(s: Shape) {
    && (forall i :: 0 <= i < |s| ==> s[i] > 0)
    && (forall i :: 0 < i < |s| ==> s[i] <= s[i - 1])
  }

  // add_box of a filled tableau: a new row when the row is not there yet.
  function AddBox<A>(T: seq<seq<A>>, p: nat, v: A): (U: seq<seq<A>>)
    requires p <= |T|
    ensures |U| == if p == |T| then |T| + 1 else |T|
    ensures U[p] == (if p == |T| then [] else T[p]) + [v]
    ensures forall i :: 0 <= i < |T| && i != p ==> U[i] == T[i]
  {
    if p == |T| then T + [[v]] else T[p := T[p] + [v]]
  }

  function ColumnFor<A>(T: seq<seq<A>>, p: nat): nat
    requires p <= |T|
  {
    if p == |T| then 0 else |T[p]|
  }

  // ------------------------------------------------------------ Reading word

  function CountRow(row: seq<int>, v: int): nat {
    if row == [] then 0 else CountRow(row[..|row| - 1], v) + (if row[|row| - 1] == v then 1 else 0)
  }

  // Boxes v in the first p rows.
  function CountAbove(T: Filling, p: nat, v: int): nat
    requires p <= |T|
  {
    if p == 0 then 0 else CountAbove(T, p - 1, v) + CountRow(T[p - 1], v)
  }

  // Boxes v read so far when rows are read top to bottom, each from right to
  // left, and box (i, j) is the last one read.
  function ReadCount(T: Filling, i: nat, j: nat, v: int): nat
    requires i < |T| && j <= |T[i]|
  {
    CountAbove(T, i, v) + CountRow(T[i][j..], v)
  }

  ghost predicate LatticeAt(T: Filling, i: nat, j: nat, v: int)
    requires i < |T| && j <= |T[i]|
  {
    ReadCount(T, i, j, v) <= ReadCount(T, i, j, v - 1)
  }

  // At no point of the reading word are there more v than v - 1.
  ghost predicate Lattice(T: Filling, v: int) {
    forall i, j :: 0 <= i < |T| && 0 <= j < |T[i]| ==> LatticeAt(T, i, j, v)
  }

  // --------------------------------------------------- Littlewood-Richardson

  // OLD exactly on the boxes of the first tableau, row numbers below `rows` elsewhere.
  ghost predicate Skew(lambda: Shape, T: Filling, rows: int) {
    && |lambda| <= |T|
    && (forall i :: 0 <= i < |lambda| ==> lambda[i] <= |T[i]|)
    && (forall i, j :: 0 <= i < |T| && 0 <= j < |T[i]| ==>
          if i < |lambda| && j < lambda[i] then T[i][j] == OLD else 0 <= T[i][j] < rows)
  }

  ghost predicate RowsIncrease(T: Filling) {
    forall i, j, k :: 0 <= i < |T| && 0 <= j < k < |T[i]| ==> T[i][j] <= T[i][k]
  }

  ghost predicate ColumnsStrict(T: Filling) {
    forall h, i, j :: 0 <= h < i < |T| && 0 <= j < |T[i]| && j < |T[h]| && T[i][j] != OLD ==> T[h][j] < T[i][j]
  }

  // Boxes of the second tableau stay above row maxrows.
  ghost predicate Within(lambda: Shape, T: Filling, maxrows: nat) {
    forall i :: maxrows <= i < |T| ==> OldRow(lambda, T, i)
  }

  ghost predicate OldRow(lambda: Shape, T: Filling, i: nat)
    requires i < |T|
  {
    i < |lambda| && |T[i]| == lambda[i]
  }

  ghost predicate Semistandard(lambda: Shape, T: Filling, rows: int, maxrows: nat) {
    YoungRows(T) && Skew(lambda, T, rows) && RowsIncrease(T) && ColumnsStrict(T) && Within(lambda, T, maxrows)
  }

  ghost predicate IsLR(lambda: Shape, mu: Shape, maxrows: nat, F: Filling) {
    && Semistandard(lambda, F, |mu|, maxrows)
    && (forall v :: 0 <= v < |mu| ==> CountAbove(F, |F|, v) == mu[v])
    && (forall v :: 0 < v < |mu| ==> Lattice(F, v))
  }

  // ----------------------------------------------------------------- The rules

  // Rules always_young, avoid_sym2asym and ordered for a box of row r in row p.
  ghost predicate Allowed(T: Filling, r: nat, p: nat)
    requires p <= |T|
  {
    && AlwaysYoung(T, p)
    && AvoidSymToAsym(T, r, p)
    && (r > 0 ==> Ordered(T, r, p))
  }

  predicate AlwaysYoung(T: Filling, p: nat)
    requires p <= |T|
  {
    0 < p < |T| ==> |T[p - 1]| != |T[p]|
  }

  ghost predicate AvoidSymToAsym(T: Filling, r: nat, p: nat)
    requires p <= |T|
  {
    forall h :: 0 <= h < p && ColumnFor(T, p) < |T[h]| ==> T[h][ColumnFor(T, p)] != r
  }

  // Counting the new box in: first at the box itself, then at every box read later.
  ghost predicate Ordered(T: Filling, r: nat, p: nat)
    requires p <= |T|
  {
    && CountAbove(T, p, r) + 1 <= CountAbove(T, p, r - 1)
    && forall i, j :: p <= i < |T| && 0 <= j < |T[i]| ==> OrderedAt(T, r, i, j)
  }

  ghost predicate OrderedAt(T: Filling, r: nat, i: nat, j: nat)
    requires i < |T| && j <= |T[i]|
  {
    ReadCount(T, i, j, r) + 1 <= ReadCount(T, i, j, r - 1)
  }

  function Min(a: nat, b: nat): nat {
    if a < b then a else b
  }

  function Remaining(mu: Shape, r: nat): nat
    decreases |mu| - r
  {
    if r >= |mu| then 0 else mu[r] + Remaining(mu, r + 1)
  }

  // Everything reached from T, of whose row r of the second tableau k boxes have
  // been placed, the last of them in row `start`.
  ghost function Search(mu: Shape, T: Filling, r: nat, k: nat, start: nat, maxrows: nat): seq<Filling>
    requires r < |mu| && k <= mu[r] && YoungShape(mu)
    decreases Remaining(mu, r) - k, |mu| + 1, 0
  {
    if k < mu[r] then Place(mu, T, r, k, start, maxrows)
    else if r + 1 == |mu| then [T]
    else Place(mu, T, r + 1, 0, 0, maxrows)
  }

  // ... by putting the next box of row r in row p or below.
  ghost function Place(mu: Shape, T: Filling, r: nat, k: nat, p: nat, maxrows: nat): seq<Filling>
    requires r < |mu| && k < mu[r] && YoungShape(mu)
    decreases Remaining(mu, r) - k, |mu| - r, Min(|T| + 1, maxrows) - p
  {
    if p >= Min(|T| + 1, maxrows) then []
    else (if Allowed(T, r, p) then Search(mu, AddBox(T, p, r), r, k + 1, p, maxrows) else [])
         + Place(mu, T, r, k, p + 1, maxrows)
  }

  // ------------------------------------------------------------- Counting boxes

  lemma {:induction false} CountRowAppend(a: seq<int>, b: seq<int>, v: int)
    ensures CountRow(a + b, v) == CountRow(a, v) + CountRow(b, v)
  {
    if b == [] {
      assert a + b == a;
    } else {
      var n := |b| - 1;
      assert (a + b)[..|a| + n] == a + b[..n];
      CountRowAppend(a, b[..n], v);
    }
  }

  lemma {:induction false} CountAboveAgree(T: Filling, U: Filling, p: nat, v: int)
    requires p <= |T| && p <= |U| && forall i :: 0 <= i < p ==> T[i] == U[i]
    ensures CountAbove(T, p, v) == CountAbove(U, p, v)
  {
    if p > 0 { CountAboveAgree(T, U, p - 1, v); }
  }

  lemma CountOne(row: seq<int>, x: int, v: int)
    ensures CountRow(row + [x], v) == CountRow(row, v) + (if x == v then 1 else 0)
  {
    assert (row + [x])[..|row|] == row;
  }

  // Adding a box r in row p shows from row p + 1 on.
  lemma {:induction false} CountAboveAdd(T: Filling, p: nat, r: int, i: nat, v: int)
    requires p <= |T| && i <= |AddBox(T, p, r)|
    ensures CountAbove(AddBox(T, p, r), i, v)
         == CountAbove(T, if i <= |T| then i else |T|, v) + (if i > p && v == r then 1 else 0)
  {
    if i > 0 {
      CountAboveAdd(T, p, r, i - 1, v);
      if i - 1 == p { CountOne(if p == |T| then [] else T[p], r, v); }
    }
  }

  // ------------------------------------------------- Partial fillings of a filling

  ghost predicate Outside(T: Filling, i: nat, j: nat) {
    i >= |T| || j >= |T[i]|
  }

  ghost predicate Prefix(T: Filling, F: Filling) {
    |T| <= |F| && forall i :: 0 <= i < |T| ==> T[i] <= F[i]
  }

  // F extends T by boxes of rows r and up of the second tableau, those of row r
  // at or below row `start`.
  ghost predicate Extends(T: Filling, F: Filling, r: nat, start: nat) {
    && Prefix(T, F)
    && forall i, j :: 0 <= i < |F| && 0 <= j < |F[i]| && Outside(T, i, j) ==> LateEnough(F, i, j, r, start)
  }

  ghost predicate LateEnough(F: Filling, i: nat, j: nat, r: nat, start: nat)
    requires i < |F| && j < |F[i]|
  {
    F[i][j] >= r && (F[i][j] == r ==> i >= start)
  }

  // No box v of F in row i lies outside T.
  ghost predicate RowDone(T: Filling, F: Filling, i: nat, v: int)
    requires i < |F|
  {
    forall j :: 0 <= j < |F[i]| && Outside(T, i, j) ==> F[i][j] != v
  }

  lemma {:induction false} CountRowNone(row: seq<int>, v: int)
    ensures CountRow(row, v) == 0 <==> v !in row
  {
    if row != [] {
      CountRowNone(row[..|row| - 1], v);
      assert row == row[..|row| - 1] + [row[|row| - 1]];
    }
  }

  lemma RowCount(T: Filling, F: Filling, i: nat, v: int)
    requires Prefix(T, F) && i < |F|
    ensures CountRow(F[i], v) >= CountRow(if i < |T| then T[i] else [], v)
    ensures CountRow(F[i], v) == CountRow(if i < |T| then T[i] else [], v) <==> RowDone(T, F, i, v)
  {
    hide CountRow, RowDone;
    var t := if i < |T| then T[i] else [];
    var rest := F[i][|t|..];
    assert F[i] == t + rest;
    CountRowAppend(t, rest, v);
    CountRowNone(rest, v);
    RowRest(T, F, i, v);
  }

  lemma RowRest(T: Filling, F: Filling, i: nat, v: int)
    requires Prefix(T, F) && i < |F|
    ensures RowDone(T, F, i, v) <==> v !in F[i][|if i < |T| then T[i] else []|..]
  {
    var t := if i < |T| then T[i] else [];
    var rest := F[i][|t|..];
    if v in rest {
      var j :| 0 <= j < |rest| && rest[j] == v;
      assert F[i][|t| + j] == v && Outside(T, i, |t| + j);
    }
    if !RowDone(T, F, i, v) {
      var j :| 0 <= j < |F[i]| && Outside(T, i, j) && F[i][j] == v;
      assert rest[j - |t|] == v;
    }
  }

  lemma {:induction false} CountPrefix(T: Filling, F: Filling, p: nat, v: int)
    requires Prefix(T, F) && p <= |F|
    ensures CountAbove(F, p, v) >= CountAbove(T, Min(p, |T|), v)
    ensures CountAbove(F, p, v) == CountAbove(T, Min(p, |T|), v) <==> forall i :: 0 <= i < p ==> RowDone(T, F, i, v)
  {
    if p > 0 {
      CountPrefix(T, F, p - 1, v);
      RowCount(T, F, p - 1, v);
    }
  }

  // A reading count inside T against the same point of F.
  lemma ReadPrefix(T: Filling, F: Filling, i: nat, j: nat, v: int)
    requires Prefix(T, F) && i < |T| && j <= |T[i]|
    ensures ReadCount(T, i, j, v) <= ReadCount(F, i, j, v)
    ensures (forall h :: 0 <= h < |F| ==> RowDone(T, F, h, v)) ==> ReadCount(T, i, j, v) == ReadCount(F, i, j, v)
  {
    CountPrefix(T, F, i, v);
    var rest := F[i][|T[i]|..];
    assert F[i][j..] == T[i][j..] + rest;
    CountRowAppend(T[i][j..], rest, v);
    CountRowNone(rest, v);
    if forall h :: 0 <= h < |F| ==> RowDone(T, F, h, v) {
      assert RowDone(T, F, i, v);
      forall l | 0 <= l < |rest| ensures rest[l] != v { assert rest[l] == F[i][|T[i]| + l]; }
    }
  }

  // ---------------------------------------------------------- The search state

  // T is a legal partial result: all of the rows before r of the second tableau
  // and k boxes of row r.
  ghost predicate Partial(lambda: Shape, mu: Shape, maxrows: nat, T: Filling, r: nat, k: nat) {
    && r < |mu| && k <= mu[r]
    && Semistandard(lambda, T, r + 1, maxrows)
    && Counted(mu, T, r, k)
    && Lattices(T, r)
  }

  ghost predicate Counted(mu: Shape, T: Filling, r: nat, k: nat) {
    forall v :: 0 <= v < |mu| ==> CountAbove(T, |T|, v) == if v < r then mu[v] else if v == r then k else 0
  }

  ghost predicate Lattices(T: Filling, r: nat) {
    forall v :: 0 < v <= r ==> Lattice(T, v)
  }

  // ------------------------------------------- A permitted box keeps it legal

  lemma AddYoung(T: Filling, p: nat, r: nat)
    requires YoungRows(T) && p <= |T| && AlwaysYoung(T, p)
    ensures YoungRows(AddBox(T, p, r))
  {
  }

  lemma {:induction false} YoungChain(T: Filling, h: nat, i: nat)
    requires YoungRows(T) && h <= i < |T|
    ensures |T[h]| >= |T[i]|
    decreases i
  {
    if h < i { YoungChain(T, h, i - 1); }
  }

  lemma AddSkew(lambda: Shape, T: Filling, p: nat, r: nat)
    requires Skew(lambda, T, r + 1) && p <= |T|
    ensures Skew(lambda, AddBox(T, p, r), r + 1)
  {
  }

  lemma AddRows(lambda: Shape, T: Filling, p: nat, r: nat)
    requires Skew(lambda, T, r + 1) && RowsIncrease(T) && p <= |T|
    ensures RowsIncrease(AddBox(T, p, r))
  {
    var U := AddBox(T, p, r);
    forall i, j, k | 0 <= i < |U| && 0 <= j < k < |U[i]| ensures U[i][j] <= U[i][k] {
      if i == p && k == |U[p]| - 1 { assert U[p][j] == T[p][j]; }
    }
  }

  lemma AddColumns(lambda: Shape, T: Filling, p: nat, r: nat)
    requires YoungRows(T) && Skew(lambda, T, r + 1) && ColumnsStrict(T) && p <= |T|
    requires AvoidSymToAsym(T, r, p)
    ensures ColumnsStrict(AddBox(T, p, r))
  {
    var U := AddBox(T, p, r);
    var c := ColumnFor(T, p);
    forall h, i, j | 0 <= h < i < |U| && 0 <= j < |U[i]| && j < |U[h]| && U[i][j] != OLD ensures U[h][j] < U[i][j] {
      if i == p && j == c {
        assert T[h][c] <= r;
      } else if h == p && j == c {
        YoungChain(T, p, i);
      }
    }
  }

  lemma AddWithin(lambda: Shape, T: Filling, p: nat, r: nat, maxrows: nat)
    requires Within(lambda, T, maxrows) && p <= |T| && p < maxrows
    ensures Within(lambda, AddBox(T, p, r), maxrows)
  {
    var U := AddBox(T, p, r);
    forall i | maxrows <= i < |U| ensures OldRow(lambda, U, i) {
      assert OldRow(lambda, T, i);
    }
  }

  // Reading counts with the new box in.
  lemma ReadAdd(T: Filling, p: nat, r: int, i: nat, j: nat, v: int)
    requires p <= |T| && i < |T| && j <= |T[i]|
    ensures ReadCount(AddBox(T, p, r), i, j, v) == ReadCount(T, i, j, v) + (if i >= p && v == r then 1 else 0)
  {
    CountAboveAdd(T, p, r, i, v);
    if i == p {
      assert AddBox(T, p, r)[p][j..] == T[p][j..] + [r];
      CountOne(T[p][j..], r, v);
    }
  }

  lemma ReadNew(T: Filling, p: nat, r: int, v: int)
    requires p <= |T|
    ensures ReadCount(AddBox(T, p, r), p, ColumnFor(T, p), v) == CountAbove(T, p, v) + (if v == r then 1 else 0)
  {
    var U := AddBox(T, p, r);
    CountAboveAdd(T, p, r, p, v);
    assert U[p][ColumnFor(T, p)..] == [] + [r];
    CountOne([], r, v);
  }

  // After whole rows the lattice condition also holds.
  lemma LatticeAbove(T: Filling, p: nat, v: int)
    requires YoungRows(T) && Lattice(T, v) && p <= |T|
    ensures CountAbove(T, p, v) <= CountAbove(T, p, v - 1)
  {
    if p > 0 {
      assert LatticeAt(T, p - 1, 0, v);
      assert T[p - 1][0..] == T[p - 1];
    }
  }

  // Lattice words for smaller row numbers do not notice the box.
  lemma AddLatticeBelow(T: Filling, p: nat, r: nat, v: nat)
    requires YoungRows(T) && p <= |T| && v < r && Lattice(T, v)
    ensures Lattice(AddBox(T, p, r), v)
  {
    var U := AddBox(T, p, r);
    forall i, j | 0 <= i < |U| && 0 <= j < |U[i]| ensures LatticeAt(U, i, j, v) {
      if i == p && j == ColumnFor(T, p) {
        ReadNew(T, p, r, v);
        ReadNew(T, p, r, v - 1);
        LatticeAbove(T, p, v);
      } else {
        ReadAdd(T, p, r, i, j, v);
        ReadAdd(T, p, r, i, j, v - 1);
        assert LatticeAt(T, i, j, v);
      }
    }
  }

  // The rule "ordered" is the lattice condition of the new filling at and after
  // the new box.
  lemma OrderedIsLattice(T: Filling, p: nat, r: nat, i: nat, j: nat)
    requires p <= |T| && i < |T| && j < |T[i]|
    ensures LatticeAt(AddBox(T, p, r), i, j, r) <==> if i >= p then OrderedAt(T, r, i, j) else LatticeAt(T, i, j, r)
  {
    ReadAdd(T, p, r, i, j, r);
    ReadAdd(T, p, r, i, j, r - 1);
  }

  lemma AddLattice(T: Filling, p: nat, r: nat)
    requires YoungRows(T) && p <= |T| && r > 0 && Lattice(T, r) && Ordered(T, r, p)
    ensures Lattice(AddBox(T, p, r), r)
  {
    var U := AddBox(T, p, r);
    forall i, j | 0 <= i < |U| && 0 <= j < |U[i]| ensures LatticeAt(U, i, j, r) {
      if i == p && j == ColumnFor(T, p) {
        ReadNew(T, p, r, r);
        ReadNew(T, p, r, r - 1);
      } else {
        OrderedIsLattice(T, p, r, i, j);
        assert i < p ==> LatticeAt(T, i, j, r);
        assert i >= p ==> OrderedAt(T, r, i, j);
      }
    }
  }

  lemma AddCounts(T: Filling, p: nat, r: nat, v: int)
    requires p <= |T|
    ensures CountAbove(AddBox(T, p, r), |AddBox(T, p, r)|, v) == CountAbove(T, |T|, v) + (if v == r then 1 else 0)
  {
    CountAboveAdd(T, p, r, |AddBox(T, p, r)|, v);
  }

  lemma PlaceKeepsPartial(lambda: Shape, mu: Shape, maxrows: nat, T: Filling, r: nat, k: nat, p: nat)
    requires Partial(lambda, mu, maxrows, T, r, k) && k < mu[r] && p <= |T| && p < maxrows && Allowed(T, r, p)
    ensures Partial(lambda, mu, maxrows, AddBox(T, p, r), r, k + 1)
  {
    AddSemistandard(lambda, T, p, r, maxrows);
    AddCounted(mu, T, p, r, k);
    AddLattices(T, p, r);
  }

  lemma AddCounted(mu: Shape, T: Filling, p: nat, r: nat, k: nat)
    requires p <= |T| && Counted(mu, T, r, k)
    ensures Counted(mu, AddBox(T, p, r), r, k + 1)
  {
    var U := AddBox(T, p, r);
    forall v | 0 <= v < |mu| ensures CountAbove(U, |U|, v) == if v < r then mu[v] else if v == r then k + 1 else 0 {
      AddCounts(T, p, r, v);
    }
  }

  lemma AddSemistandard(lambda: Shape, T: Filling, p: nat, r: nat, maxrows: nat)
    requires Semistandard(lambda, T, r + 1, maxrows) && p <= |T| && p < maxrows && AlwaysYoung(T, p)
      && AvoidSymToAsym(T, r, p)
    ensures Semistandard(lambda, AddBox(T, p, r), r + 1, maxrows)
  {
    AddYoung(T, p, r);
    AddSkew(lambda, T, p, r);
    AddRows(lambda, T, p, r);
    AddColumns(lambda, T, p, r);
    AddWithin(lambda, T, p, r, maxrows);
  }

  lemma AddLattices(T: Filling, p: nat, r: nat)
    requires YoungRows(T) && p <= |T| && Lattices(T, r) && (r > 0 ==> Ordered(T, r, p))
    ensures Lattices(AddBox(T, p, r), r)
  {
    forall v | 0 < v <= r ensures Lattice(AddBox(T, p, r), v) {
      if v < r { AddLatticeBelow(T, p, r, v); } else { AddLattice(T, p, r); }
    }
  }

  // A row number that does not occur cannot spoil the lattice condition.
  lemma NextRowPartial(lambda: Shape, mu: Shape, maxrows: nat, T: Filling, r: nat)
    requires r + 1 < |mu| && Partial(lambda, mu, maxrows, T, r, mu[r])
    ensures Partial(lambda, mu, maxrows, T, r + 1, 0)
  {
    NextLattice(T, r + 1);
  }

  lemma NextLattice(T: Filling, v: int)
    requires forall i, j :: 0 <= i < |T| && 0 <= j < |T[i]| ==> T[i][j] < v
    ensures Lattice(T, v)
  {
    forall i, j {:trigger LatticeAt(T, i, j, v)} | 0 <= i < |T| && 0 <= j < |T[i]| ensures LatticeAt(T, i, j, v) {
      NoneRead(T, v, i, j);
    }
  }

  lemma {:induction false} NoneAbove(T: Filling, v: int, p: nat)
    requires p <= |T| && forall i, j :: 0 <= i < |T| && 0 <= j < |T[i]| ==> T[i][j] < v
    ensures CountAbove(T, p, v) == 0
  {
    if p > 0 {
      NoneAbove(T, v, p - 1);
      CountRowNone(T[p - 1], v);
    }
  }

  lemma NoneRead(T: Filling, v: int, i: nat, j: nat)
    requires i < |T| && j <= |T[i]|
    requires forall i, j :: 0 <= i < |T| && 0 <= j < |T[i]| ==> T[i][j] < v
    ensures ReadCount(T, i, j, v) == 0
  {
    NoneAbove(T, v, i);
    CountRowNone(T[i][j..], v);
  }

  // --------------------------------------------- A needed box is never forbidden

  lemma NewBoxIn(T: Filling, F: Filling, r: nat, p: nat)
    requires p <= |T| && Extends(AddBox(T, p, r), F, r, p)
    ensures p < |F| && ColumnFor(T, p) < |F[p]| && F[p][ColumnFor(T, p)] == r
    ensures Prefix(T, F)
  {
    var U := AddBox(T, p, r);
    assert U[p] <= F[p];
    assert F[p][ColumnFor(T, p)] == U[p][ColumnFor(T, p)];
    forall i | 0 <= i < |T| ensures T[i] <= F[i] { assert T[i] <= U[i] <= F[i]; }
  }

  lemma NeededAlwaysYoung(lambda: Shape, mu: Shape, maxrows: nat, T: Filling, F: Filling, r: nat, p: nat)
    requires YoungRows(T) && Semistandard(lambda, F, |mu|, maxrows) && p <= |T| && Extends(AddBox(T, p, r), F, r, p)
    ensures AlwaysYoung(T, p)
  {
    NewBoxIn(T, F, r, p);
    if 0 < p < |T| {
      var c := ColumnFor(T, p);
      assert F[p - 1][c] < F[p][c];
      assert !Outside(AddBox(T, p, r), p - 1, c);
    }
  }

  lemma NeededAvoidSym(lambda: Shape, mu: Shape, maxrows: nat, T: Filling, F: Filling, r: nat, p: nat)
    requires Semistandard(lambda, F, |mu|, maxrows) && p <= |T| && Extends(AddBox(T, p, r), F, r, p)
    ensures AvoidSymToAsym(T, r, p)
  {
    NewBoxIn(T, F, r, p);
    var c := ColumnFor(T, p);
    forall h | 0 <= h < p && c < |T[h]| ensures T[h][c] != r {
      assert T[h] <= F[h];
      assert T[h][c] == F[h][c] < F[p][c];
    }
  }

  lemma NeededLatticeAt(F: Filling, U: Filling, r: nat, p: nat, i: nat, j: nat)
    requires r > 0 && Lattice(F, r) && Extends(U, F, r, p) && i < |U| && j < |U[i]|
    ensures LatticeAt(U, i, j, r)
  {
    assert U[i] <= F[i];
    assert LatticeAt(F, i, j, r);
    ReadPrefix(U, F, i, j, r);
    forall h {:trigger RowDone(U, F, h, r - 1)} | 0 <= h < |F| ensures RowDone(U, F, h, r - 1) {
      forall l | 0 <= l < |F[h]| && Outside(U, h, l) ensures F[h][l] != r - 1 {
        assert LateEnough(F, h, l, r, p);
      }
    }
    ReadPrefix(U, F, i, j, r - 1);
  }

  lemma NeededOrdered(T: Filling, F: Filling, r: nat, p: nat)
    requires r > 0 && Lattice(F, r) && p <= |T| && Extends(AddBox(T, p, r), F, r, p)
    ensures Ordered(T, r, p)
  {
    var U := AddBox(T, p, r);
    NeededLatticeAt(F, U, r, p, p, ColumnFor(T, p));
    ReadNew(T, p, r, r);
    ReadNew(T, p, r, r - 1);
    forall i, j | p <= i < |T| && 0 <= j < |T[i]| ensures OrderedAt(T, r, i, j) {
      NeededLatticeAt(F, U, r, p, i, j);
      OrderedIsLattice(T, p, r, i, j);
    }
  }

  lemma NeededAllowed(lambda: Shape, mu: Shape, maxrows: nat, T: Filling, F: Filling, r: nat, p: nat)
    requires YoungRows(T) && r < |mu| && IsLR(lambda, mu, maxrows, F) && p <= |T| && Extends(AddBox(T, p, r), F, r, p)
    ensures Allowed(T, r, p)
  {
    NeededAlwaysYoung(lambda, mu, maxrows, T, F, r, p);
    NeededAvoidSym(lambda, mu, maxrows, T, F, r, p);
    if r > 0 { NeededOrdered(T, F, r, p); }
  }

  // ------------------------------------- Where the next box goes is determined

  lemma PlacedHere(T: Filling, F: Filling, r: nat, p: nat)
    requires p <= |T| && Extends(AddBox(T, p, r), F, r, p)
    ensures Extends(T, F, r, p) && !Extends(T, F, r, p + 1)
  {
    NewBoxIn(T, F, r, p);
    var U, c := AddBox(T, p, r), ColumnFor(T, p);
    forall i, j | 0 <= i < |F| && 0 <= j < |F[i]| && Outside(T, i, j) ensures LateEnough(F, i, j, r, p) {
      assert Outside(U, i, j) || (i == p && j == c);
    }
    assert Outside(T, p, c) && !LateEnough(F, p, c, r, p + 1);
  }

  lemma PlacedBelow(T: Filling, F: Filling, r: nat, p: nat)
    requires Extends(T, F, r, p + 1)
    ensures Extends(T, F, r, p)
  {
    forall i, j | 0 <= i < |F| && 0 <= j < |F[i]| && Outside(T, i, j) ensures LateEnough(F, i, j, r, p) {
      assert LateEnough(F, i, j, r, p + 1);
    }
  }

  lemma HereOrBelow(T: Filling, F: Filling, r: nat, p: nat)
    requires p <= |T| && RowsIncrease(F) && Extends(T, F, r, p) && !Extends(T, F, r, p + 1)
    ensures Extends(AddBox(T, p, r), F, r, p)
  {
    var U, c := AddBox(T, p, r), ColumnFor(T, p);
    var i, j :| 0 <= i < |F| && 0 <= j < |F[i]| && Outside(T, i, j) && !LateEnough(F, i, j, r, p + 1);
    assert LateEnough(F, i, j, r, p);
    assert i == p && F[p][j] == r && c <= j;
    assert Outside(T, p, c) && LateEnough(F, p, c, r, p);
    assert F[p][c] == r;
    assert U[p] <= F[p] by {
      if p < |T| { assert T[p] <= F[p]; }
    }
    forall i, j | 0 <= i < |F| && 0 <= j < |F[i]| && Outside(U, i, j) ensures LateEnough(F, i, j, r, p) {
      assert Outside(T, i, j);
    }
  }

  // ---------------------------------------------------- The end of the search

  lemma MissingBox(mu: Shape, T: Filling, F: Filling, r: nat, k: nat) returns (i: nat, j: nat)
    requires r < |mu| && Prefix(T, F) && Counted(mu, T, r, k) && k < mu[r] == CountAbove(F, |F|, r)
    ensures i < |F| && j < |F[i]| && Outside(T, i, j) && F[i][j] == r
  {
    CountPrefix(T, F, |F|, r);
    i :| 0 <= i < |F| && !RowDone(T, F, i, r);
    j :| 0 <= j < |F[i]| && Outside(T, i, j) && F[i][j] == r;
  }

  lemma NoRowLeft(lambda: Shape, mu: Shape, maxrows: nat, T: Filling, F: Filling, r: nat, k: nat, p: nat)
    requires IsLR(lambda, mu, maxrows, F) && Partial(lambda, mu, maxrows, T, r, k) && k < mu[r]
    requires Extends(T, F, r, p)
    ensures p < Min(|T| + 1, maxrows)
  {
    var i, j := MissingBox(mu, T, F, r, k);
    assert LateEnough(F, i, j, r, p);
    assert i >= maxrows ==> OldRow(lambda, F, i);
    NoGap(lambda, T, F, |mu|, maxrows, r, p, i, j);
  }

  // A missing box r cannot have a whole missing row above it.
  lemma NoGap(lambda: Shape, T: Filling, F: Filling, rows: nat, maxrows: nat, r: nat, p: nat, i: nat, j: nat)
    requires Semistandard(lambda, F, rows, maxrows) && Extends(T, F, r, p)
    requires i < |F| && j < |F[i]| && Outside(T, i, j) && F[i][j] == r
    ensures i <= |T|
  {
    assert i > 0 ==> F[i - 1][j] < F[i][j];
    assert i > |T| ==> Outside(T, i - 1, j);
  }

  lemma AllPlaced(lambda: Shape, mu: Shape, maxrows: nat, T: Filling, F: Filling, r: nat)
    requires r < |mu| && IsLR(lambda, mu, maxrows, F) && Partial(lambda, mu, maxrows, T, r, mu[r]) && Prefix(T, F)
    ensures forall i :: 0 <= i < |F| ==> RowDone(T, F, i, r)
  {
    CountPrefix(T, F, |F|, r);
  }

  lemma NextRow(lambda: Shape, mu: Shape, maxrows: nat, T: Filling, F: Filling, r: nat, start: nat)
    requires r < |mu| && IsLR(lambda, mu, maxrows, F) && Partial(lambda, mu, maxrows, T, r, mu[r])
    ensures Extends(T, F, r, start) <==> Extends(T, F, r + 1, 0)
  {
    if Extends(T, F, r, start) {
      AllPlaced(lambda, mu, maxrows, T, F, r);
      forall i, j | 0 <= i < |F| && 0 <= j < |F[i]| && Outside(T, i, j) ensures LateEnough(F, i, j, r + 1, 0) {
        assert LateEnough(F, i, j, r, start) && RowDone(T, F, i, r);
      }
    }
    if Extends(T, F, r + 1, 0) {
      forall i, j | 0 <= i < |F| && 0 <= j < |F[i]| && Outside(T, i, j) ensures LateEnough(F, i, j, r, start) {
        assert LateEnough(F, i, j, r + 1, 0);
      }
    }
  }

  lemma Finished(lambda: Shape, mu: Shape, maxrows: nat, T: Filling, F: Filling, r: nat, start: nat)
    requires r + 1 == |mu| && Partial(lambda, mu, maxrows, T, r, mu[r])
    ensures IsLR(lambda, mu, maxrows, T)
    ensures IsLR(lambda, mu, maxrows, F) ==> (Extends(T, F, r, start) <==> F == T)
  {
    if IsLR(lambda, mu, maxrows, F) {
      NextRow(lambda, mu, maxrows, T, F, r, start);
      if Extends(T, F, r + 1, 0) {
        NothingOutside(lambda, T, F, |mu|, maxrows);
      }
    }
  }

  lemma NothingOutside(lambda: Shape, T: Filling, F: Filling, rows: nat, maxrows: nat)
    requires Semistandard(lambda, F, rows, maxrows) && rows > 0 && Extends(T, F, rows, 0)
    ensures F == T
  {
    forall i, j | 0 <= i < |F| && 0 <= j < |F[i]| ensures !Outside(T, i, j) {
      assert F[i][j] < rows;
      assert !LateEnough(F, i, j, rows, 0);
    }
    assert |F| > 0 ==> !Outside(T, |F| - 1, 0);
    forall i | 0 <= i < |F| ensures F[i] == T[i] {
      assert T[i] <= F[i] && !Outside(T, i, |F[i]| - 1);
    }
  }

  // ------------------------------------------------------------ The main result

  // The search from a legal partial result lists every Littlewood-Richardson
  // filling that extends it exactly once, and nothing else.
  lemma {:induction false} SearchExact(lambda: Shape, mu: Shape, maxrows: nat, T: Filling, r: nat, k: nat, start: nat,
      F: Filling)
    requires YoungShape(mu) && Partial(lambda, mu, maxrows, T, r, k)
    ensures multiset(Search(mu, T, r, k, start, maxrows))[F]
         == if IsLR(lambda, mu, maxrows, F) && Extends(T, F, r, start) then 1 else 0
    decreases Remaining(mu, r) - k, |mu| + 1, 0
  {
    if k < mu[r] {
      PlaceExact(lambda, mu, maxrows, T, r, k, start, F);
    } else if r + 1 == |mu| {
      Finished(lambda, mu, maxrows, T, F, r, start);
    } else {
      NextRowPartial(lambda, mu, maxrows, T, r);
      PlaceExact(lambda, mu, maxrows, T, r + 1, 0, 0, F);
      if IsLR(lambda, mu, maxrows, F) { NextRow(lambda, mu, maxrows, T, F, r, start); }
    }
  }

  lemma {:induction false} PlaceExact(lambda: Shape, mu: Shape, maxrows: nat, T: Filling, r: nat, k: nat, p: nat,
      F: Filling)
    requires YoungShape(mu) && Partial(lambda, mu, maxrows, T, r, k) && k < mu[r]
    ensures multiset(Place(mu, T, r, k, p, maxrows))[F]
         == if IsLR(lambda, mu, maxrows, F) && Extends(T, F, r, p) then 1 else 0
    decreases Remaining(mu, r) - k, |mu| - r, Min(|T| + 1, maxrows) - p
  {
    if p >= Min(|T| + 1, maxrows) {
      if IsLR(lambda, mu, maxrows, F) && Extends(T, F, r, p) { NoRowLeft(lambda, mu, maxrows, T, F, r, k, p); }
    } else {
      PlaceExact(lambda, mu, maxrows, T, r, k, p + 1, F);
      if Allowed(T, r, p) {
        PlaceKeepsPartial(lambda, mu, maxrows, T, r, k, p);
        SearchExact(lambda, mu, maxrows, AddBox(T, p, r), r, k + 1, p, F);
      }
      if IsLR(lambda, mu, maxrows, F) { OneWay(lambda, mu, maxrows, T, F, r, p); }
    }
  }

  // F is reached either by a box in row p now, which is then allowed, or by one further down.
  lemma OneWay(lambda: Shape, mu: Shape, maxrows: nat, T: Filling, F: Filling, r: nat, p: nat)
    requires YoungRows(T) && r < |mu| && IsLR(lambda, mu, maxrows, F) && p <= |T|
    ensures Extends(AddBox(T, p, r), F, r, p) ==> Allowed(T, r, p) && !Extends(T, F, r, p + 1)
    ensures Extends(T, F, r, p) <==> Extends(AddBox(T, p, r), F, r, p) || Extends(T, F, r, p + 1)
  {
    if Extends(AddBox(T, p, r), F, r, p) {
      NeededAllowed(lambda, mu, maxrows, T, F, r, p);
      PlacedHere(T, F, r, p);
    } else if Extends(T, F, r, p + 1) {
      PlacedBelow(T, F, r, p);
    } else if Extends(T, F, r, p) {
      HereOrBelow(T, F, r, p);
    }
  }
}
