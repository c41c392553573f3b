// LR_add_box and LR_tensor as they run: boxes are pushed onto and popped from
// the tableau under construction and the book-keeping tableau.

module LRTensorClasses {
  import opened Tableaux
  import opened LittlewoodRichardson

  function Zeros(n: nat): (z: seq<nat>)
    ensures |z| == n && forall i :: 0 <= i < n ==> z[i] == 0
  {
    seq(n, _ => 0)
  }

  // yngtab::tableau: row lengths only.
  class Tableau {
    var rows: seq<nat>

    constructor (shape: Shape)
      ensures rows == shape
    {
      rows := shape;
    }

    method AddBox(rownum: nat)
      modifies this
      ensures |rows| == if rownum < |old(rows)| then |old(rows)| else rownum + 1
      ensures forall i :: 0 <= i < |rows| ==>
        rows[i] == (if i < |old(rows)| then old(rows)[i] else 0) + (if i == rownum then 1 else 0)
    {
      if rownum >= |rows| {
        rows := rows + Zeros(rownum + 1 - |rows|);
      }
      rows := rows[rownum := rows[rownum] + 1];
    }

    // The last row is dropped when row rownum becomes empty.
    method RemoveBox(rownum: nat)
      requires rownum < |rows| && rows[rownum] > 0
      modifies this
      ensures var less := old(rows)[rownum := old(rows)[rownum] - 1];
              rows == if less[rownum] == 0 then less[..|less| - 1] else less
    {
      rows := rows[rownum := rows[rownum] - 1];
      if rows[rownum] == 0 {
        rows := rows[..|rows| - 1];
      }
    }
  }

  // Row and column of the second tableau that a box came from.
  type Origin = (int, int)

  function Labels(rows: seq<seq<Origin>>): (T: Filling)
    ensures |T| == |rows|
    ensures forall i :: 0 <= i < |rows| ==> |T[i]| == |rows[i]|
    ensures forall i, j :: 0 <= i < |rows| && 0 <= j < |rows[i]| ==> T[i][j] == rows[i][j].0
  {
    seq(|rows|, i requires 0 <= i < |rows| => RowLabels(rows[i]))
  }

  function RowLabels(row: seq<Origin>): (r: seq<int>)
    ensures |r| == |row| && forall j :: 0 <= j < |row| ==> r[j] == row[j].0
  {
    seq(|row|, j requires 0 <= j < |row| => row[j].0)
  }

  lemma LabelsAdd(rows: seq<seq<Origin>>, p: nat, v: Origin)
    requires p <= |rows|
    ensures Labels(LittlewoodRichardson.AddBox(rows, p, v)) == LittlewoodRichardson.AddBox(Labels(rows), p, v.0)
  {
    var A, B := Labels(LittlewoodRichardson.AddBox(rows, p, v)), LittlewoodRichardson.AddBox(Labels(rows), p, v.0);
    forall i | 0 <= i < |A| ensures A[i] == B[i] {}
  }

  // keeptrack_tab_t: a tableau filled with origins.
  class KeeptrackTab {
    var rows: seq<seq<Origin>>

    // copy_shape followed by writing (-2, -2) into every box.
    constructor (shape: Shape)
      ensures Labels(rows) == OldFilling(shape)
    {
      rows := OldOrigins(shape);
      OldLabels(shape);
    }

    method AddBox(rownum: nat, val: Origin)
      requires rownum <= |rows|
      modifies this
      ensures rows == LittlewoodRichardson.AddBox(old(rows), rownum, val)
    {
      if rownum >= |rows| {
        rows := rows + [[]];
      }
      rows := rows[rownum := rows[rownum] + [val]];
    }

    method RemoveBox(rownum: nat)
      requires rownum < |rows| && |rows[rownum]| > 0
      modifies this
      ensures rows == Popped(old(rows), rownum)
    {
      rows := rows[rownum := rows[rownum][..|rows[rownum]| - 1]];
      if |rows[rownum]| == 0 {
        rows := rows[..|rows| - 1];
      }
    }
  }

  function Popped<A>(rows: seq<seq<A>>, p: nat): seq<seq<A>>
    requires p < |rows| && |rows[p]| > 0
  {
    var less := rows[p := rows[p][..|rows[p]| - 1]];
    if |less[p]| == 0 then less[..|less| - 1] else less
  }

  // Popping undoes pushing.
  lemma PoppedAdded<A>(rows: seq<seq<A>>, p: nat, v: A)
    requires p <= |rows| && forall i :: 0 <= i < |rows| ==> rows[i] != []
    ensures Popped(LittlewoodRichardson.AddBox(rows, p, v), p) == rows
  {
    var U := LittlewoodRichardson.AddBox(rows, p, v);
    assert U[p][..|U[p]| - 1] == if p == |rows| then [] else rows[p];
  }

  function OldFilling(shape: Shape): (T: Filling)
    ensures |T| == |shape|
    ensures forall i :: 0 <= i < |shape| ==> |T[i]| == shape[i] && forall j :: 0 <= j < shape[i] ==> T[i][j] == OLD
  {
    seq(|shape|, i requires 0 <= i < |shape| => seq(shape[i], _ => OLD))
  }

  function OldOrigins(shape: Shape): (rows: seq<seq<Origin>>)
    ensures |rows| == |shape|
    ensures forall i :: 0 <= i < |shape| ==>
      |rows[i]| == shape[i] && forall j :: 0 <= j < shape[i] ==> rows[i][j] == (OLD, OLD)
  {
    seq(|shape|, i requires 0 <= i < |shape| => seq(shape[i], _ => (OLD, OLD)))
  }

  lemma OldLabels(shape: Shape)
    ensures Labels(OldOrigins(shape)) == OldFilling(shape)
  {
    var A, B := Labels(OldOrigins(shape)), OldFilling(shape);
    forall i | 0 <= i < |A| ensures A[i] == B[i] {
      forall j | 0 <= j < |A[i]| ensures A[i][j] == B[i][j] {}
    }
  }

  // The list behind the output iterator.
  class TableauList {
    var storage: seq<Shape>

    constructor ()
      ensures storage == []
    {
      storage := [];
    }
  }

  function Shapes(Fs: seq<Filling>): (s: seq<Shape>)
    ensures |s| == |Fs| && forall i :: 0 <= i < |Fs| ==> s[i] == ShapeOf(Fs[i])
  {
    seq(|Fs|, i requires 0 <= i < |Fs| => ShapeOf(Fs[i]))
  }

  // ------------------------------------------------------------------ The rules

  method ViolatesAvoidSymToAsym(Y: KeeptrackTab, currow2: nat, rowpos: nat, colpos: nat) returns (violated: bool)
    requires YoungRows(Labels(Y.rows)) && rowpos <= |Y.rows| && AlwaysYoung(Labels(Y.rows), rowpos)
    requires colpos == ColumnFor(Labels(Y.rows), rowpos)
    ensures violated <==> !AvoidSymToAsym(Labels(Y.rows), currow2, rowpos)
  {
    ghost var T := Labels(Y.rows);
    for rr := 0 to rowpos
      invariant forall h :: 0 <= h < rr && colpos < |T[h]| ==> T[h][colpos] != currow2
    {
      AboveIsLonger(T, rr, rowpos);
      if Y.rows[rr][colpos].0 == currow2 {
        assert T[rr][colpos] == currow2;
        return true;
      }
    }
    return false;
  }

  lemma AboveIsLonger(T: Filling, h: nat, p: nat)
    requires YoungRows(T) && h < p <= |T| && AlwaysYoung(T, p)
    ensures ColumnFor(T, p) < |T[h]|
  {
    YoungChain(T, h, p - 1);
  }

  // Boxes of row v in the rows above rowpos.
  method CountRowsAbove(Y: KeeptrackTab, rowpos: nat, v: int) returns (n: nat)
    requires rowpos <= |Y.rows|
    ensures n == CountAbove(Labels(Y.rows), rowpos, v)
  {
    ghost var T := Labels(Y.rows);
    n := 0;
    for sr := 0 to rowpos
      invariant n == CountAbove(T, sr, v)
    {
      ghost var before := n;
      for sc := 0 to |Y.rows[sr]|
        invariant n == before + CountRow(T[sr][..sc], v)
      {
        CountOne(T[sr][..sc], T[sr][sc], v);
        assert T[sr][..sc + 1] == T[sr][..sc] + [T[sr][sc]];
        if Y.rows[sr][sc].0 == v { n := n + 1; }
      }
      assert T[sr][..|Y.rows[sr]|] == T[sr];
    }
  }

  method ViolatesOrdered(Y: KeeptrackTab, currow2: nat, rowpos: nat) returns (violated: bool)
    requires rowpos <= |Y.rows|
    ensures violated <==> !Ordered(Labels(Y.rows), currow2, rowpos)
  {
    ghost var T := Labels(Y.rows);
    var numi := CountRowsAbove(Y, rowpos, currow2);
    var numimin1 := CountRowsAbove(Y, rowpos, currow2 - 1);
    numi := numi + 1;
    if numi > numimin1 { return true; }
    for sr := rowpos to |Y.rows|
      invariant numi == CountAbove(T, sr, currow2) + 1 && numimin1 == CountAbove(T, sr, currow2 - 1)
      invariant forall i, j :: rowpos <= i < sr && 0 <= j < |T[i]| ==> OrderedAt(T, currow2, i, j)
    {
      violated, numi, numimin1 := ScanRow(Y, currow2, sr, numi, numimin1);
      if violated { return; }
    }
    return false;
  }

  // One row, from right to left.
  method ScanRow(Y: KeeptrackTab, currow2: nat, sr: nat, numi0: int, numimin10: int)
    returns (violated: bool, numi: int, numimin1: int)
    requires sr < |Y.rows|
    requires numi0 == CountAbove(Labels(Y.rows), sr, currow2) + 1
    requires numimin10 == CountAbove(Labels(Y.rows), sr, currow2 - 1)
    ensures violated <==> exists j :: 0 <= j < |Y.rows[sr]| && !OrderedAt(Labels(Y.rows), currow2, sr, j)
    ensures !violated ==> numi == CountAbove(Labels(Y.rows), sr + 1, currow2) + 1
    ensures !violated ==> numimin1 == CountAbove(Labels(Y.rows), sr + 1, currow2 - 1)
  {
    ghost var T := Labels(Y.rows);
    numi, numimin1 := numi0, numimin10;
    var sc := |Y.rows[sr]|;
    assert T[sr][sc..] == [];
    while sc > 0
      invariant 0 <= sc <= |T[sr]|
      invariant numi == ReadCount(T, sr, sc, currow2) + 1 && numimin1 == ReadCount(T, sr, sc, currow2 - 1)
      invariant forall j :: sc <= j < |T[sr]| ==> OrderedAt(T, currow2, sr, j)
    {
      sc := sc - 1;
      ReadStep(T, sr, sc, currow2);
      ReadStep(T, sr, sc, currow2 - 1);
      if Y.rows[sr][sc].0 == currow2 { numi := numi + 1; }
      if Y.rows[sr][sc].0 == currow2 - 1 { numimin1 := numimin1 + 1; }
      if numi > numimin1 {
        assert !OrderedAt(T, currow2, sr, sc);
        return true, numi, numimin1;
      }
    }
    assert T[sr][0..] == T[sr];
    return false, numi, numimin1;
  }

  lemma ReadStep(T: Filling, i: nat, j: nat, v: int)
    requires i < |T| && j < |T[i]|
    ensures ReadCount(T, i, j, v) == ReadCount(T, i, j + 1, v) + (if T[i][j] == v then 1 else 0)
  {
    assert T[i][j..] == [T[i][j]] + T[i][j + 1..];
    CountRowAppend([T[i][j]], T[i][j + 1..], v);
    CountOne([], T[i][j], v);
    assert [] + [T[i][j]] == [T[i][j]];
  }

  method RulesAllow(Y: KeeptrackTab, currow2: nat, rowpos: nat) returns (allowed: bool)
    requires YoungRows(Labels(Y.rows)) && rowpos <= |Y.rows|
    ensures allowed <==> Allowed(Labels(Y.rows), currow2, rowpos)
  {
    if rowpos > 0 && rowpos < |Y.rows| && |Y.rows[rowpos - 1]| == |Y.rows[rowpos]| {
      return false;
    }
    var colpos := if rowpos == |Y.rows| then 0 else |Y.rows[rowpos]|;
    var violated := ViolatesAvoidSymToAsym(Y, currow2, rowpos, colpos);
    if violated { return false; }
    if currow2 > 0 {
      violated := ViolatesOrdered(Y, currow2, rowpos);
    }
    return !violated;
  }

  // ---------------------------------------------------------------- The search

  // alltabs is false. Both tableaux are as they were on every return.
  method LRAddBox(tab2: Shape, newtab: Tableau, currow2: nat, curcol2: int, startrow: nat, maxrows: nat,
                  out: TableauList, Y: KeeptrackTab)
    requires YoungShape(tab2) && currow2 < |tab2| && -1 <= curcol2 < tab2[currow2]
    requires YoungRows(Labels(Y.rows)) && newtab.rows == ShapeOf(Labels(Y.rows))
    modifies newtab, out, Y
    ensures newtab.rows == old(newtab.rows) && Y.rows == old(Y.rows)
    ensures out.storage == old(out.storage) +
      Shapes(Search(tab2, Labels(Y.rows), currow2, curcol2 + 1, startrow, maxrows))
    decreases Remaining(tab2, currow2) - curcol2 - 1, 2
  {
    var row, col, start := currow2, curcol2 + 1, startrow;
    if col == tab2[row] {
      row := row + 1;
      if row == |tab2| {
        out.storage := out.storage + [newtab.rows];
        return;
      }
      col := 0;
      start := 0;
    }
    TryRows(tab2, newtab, row, col, start, maxrows, out, Y);
  }

  method TryRows(tab2: Shape, newtab: Tableau, row: nat, col: nat, start: nat, maxrows: nat,
                 out: TableauList, Y: KeeptrackTab)
    requires YoungShape(tab2) && row < |tab2| && col < tab2[row]
    requires YoungRows(Labels(Y.rows)) && newtab.rows == ShapeOf(Labels(Y.rows))
    modifies newtab, out, Y
    ensures newtab.rows == old(newtab.rows) && Y.rows == old(Y.rows)
    ensures out.storage == old(out.storage) + Shapes(Place(tab2, Labels(Y.rows), row, col, start, maxrows))
    decreases Remaining(tab2, row) - col, 1
  {
    hide Allowed, YoungRows, Shapes, Search, Place;
    ghost var T := Labels(Y.rows);
    var rowpos := start;
    while rowpos < Min(|newtab.rows| + 1, maxrows)
      invariant newtab.rows == old(newtab.rows) && Y.rows == old(Y.rows)
      invariant out.storage + Shapes(Place(tab2, T, row, col, rowpos, maxrows))
             == old(out.storage) + Shapes(Place(tab2, T, row, col, start, maxrows))
    {
      ghost var before := out.storage;
      var allowed := RulesAllow(Y, row, rowpos);
      if allowed {
        AllowedYoung(T, row, rowpos);
        PlaceBox(tab2, newtab, row, col, rowpos, maxrows, out, Y);
      }
      ShapesStep(tab2, T, row, col, rowpos, maxrows, before, out.storage);
      rowpos := rowpos + 1;
    }
    NoRowsLeft(tab2, T, row, col, rowpos, maxrows);
  }

  lemma AllowedYoung(T: Filling, r: nat, p: nat)
    requires p <= |T| && Allowed(T, r, p)
    ensures AlwaysYoung(T, p)
  {
  }

  lemma NoRowsLeft(mu: Shape, T: Filling, r: nat, k: nat, p: nat, maxrows: nat)
    requires YoungShape(mu) && r < |mu| && k < mu[r] && p >= Min(|T| + 1, maxrows)
    ensures Shapes(Place(mu, T, r, k, p, maxrows)) == []
  {
  }

  lemma ShapesStep(mu: Shape, T: Filling, r: nat, k: nat, p: nat, maxrows: nat, before: seq<Shape>, after: seq<Shape>)
    requires YoungShape(mu) && r < |mu| && k < mu[r] && p < Min(|T| + 1, maxrows)
    requires after == if Allowed(T, r, p)
                      then before + Shapes(Search(mu, LittlewoodRichardson.AddBox(T, p, r), r, k + 1, p, maxrows))
                      else before
    ensures after + Shapes(Place(mu, T, r, k, p + 1, maxrows)) == before + Shapes(Place(mu, T, r, k, p, maxrows))
  {
  }

  method PlaceBox(tab2: Shape, newtab: Tableau, row: nat, col: nat, rowpos: nat, maxrows: nat,
                  out: TableauList, Y: KeeptrackTab)
    requires YoungShape(tab2) && row < |tab2| && col < tab2[row]
    requires YoungRows(Labels(Y.rows)) && newtab.rows == ShapeOf(Labels(Y.rows)) && rowpos <= |Y.rows|
    requires AlwaysYoung(Labels(Y.rows), rowpos)
    modifies newtab, out, Y
    ensures newtab.rows == old(newtab.rows) && Y.rows == old(Y.rows)
    ensures out.storage == old(out.storage) +
      Shapes(Search(tab2, LittlewoodRichardson.AddBox(Labels(Y.rows), rowpos, row), row, col + 1, rowpos, maxrows))
    decreases Remaining(tab2, row) - col, 0
  {
    hide AlwaysYoung, Shapes, Search;
    ghost var T := Labels(Y.rows);
    LabelsAdd(Y.rows, rowpos, (row, col));
    AddYoung(T, rowpos, row);
    PoppedAdded(Y.rows, rowpos, (row, col));
    Y.AddBox(rowpos, (row, col));
    newtab.AddBox(rowpos);
    assert newtab.rows == ShapeOf(LittlewoodRichardson.AddBox(T, rowpos, row));
    LRAddBox(tab2, newtab, row, col, rowpos, maxrows, out, Y);
    newtab.RemoveBox(rowpos);
    Y.RemoveBox(rowpos);
    assert newtab.rows == ShapeOf(T);
  }

  // LR_tensor with alltabs false.
  method LRTensor(tab1: Tableau, tab2: Tableau, maxrows: nat, out: TableauList)
    requires YoungShape(tab1.rows) && YoungShape(tab2.rows) && tab2.rows != []
    modifies out
    ensures out.storage == old(out.storage) + Shapes(Fillings(tab1.rows, tab2.rows, maxrows))
  {
    var newtab := new Tableau(tab1.rows);
    var Y := new KeeptrackTab(tab1.rows);
    OldPartial(tab1.rows, tab2.rows, maxrows);
    assert newtab.rows == ShapeOf(Labels(Y.rows));
    LRAddBox(tab2.rows, newtab, 0, -1, 0, maxrows, out, Y);
  }

  ghost function Fillings(lambda: Shape, mu: Shape, maxrows: nat): seq<Filling>
    requires YoungShape(mu) && mu != []
  {
    Search(mu, OldFilling(lambda), 0, 0, 0, maxrows)
  }

  // ------------------------------------------------------------- What comes out

  lemma OldPartial(lambda: Shape, mu: Shape, maxrows: nat)
    requires YoungShape(lambda) && YoungShape(mu) && mu != []
    ensures Partial(lambda, mu, maxrows, OldFilling(lambda), 0, 0)
  {
    var T := OldFilling(lambda);
    forall i | maxrows <= i < |T| ensures OldRow(lambda, T, i) {}
    forall v | 0 <= v < |mu| ensures CountAbove(T, |T|, v) == 0 { NoneAbove(T, v, |T|); }
  }

  lemma ExtendsOld(lambda: Shape, mu: Shape, maxrows: nat, F: Filling)
    requires IsLR(lambda, mu, maxrows, F)
    ensures Extends(OldFilling(lambda), F, 0, 0)
  {
    var T := OldFilling(lambda);
    forall i | 0 <= i < |T| ensures T[i] <= F[i] {}
    forall i, j | 0 <= i < |F| && 0 <= j < |F[i]| && Outside(T, i, j) ensures LateEnough(F, i, j, 0, 0) {}
  }

  // Every Littlewood-Richardson filling is found exactly once, and nothing else is.
  lemma LittlewoodRichardsonRule(lambda: Shape, mu: Shape, maxrows: nat)
    requires YoungShape(lambda) && YoungShape(mu) && mu != []
    ensures forall F :: multiset(Fillings(lambda, mu, maxrows))[F] == if IsLR(lambda, mu, maxrows, F) then 1 else 0
  {
    OldPartial(lambda, mu, maxrows);
    forall F ensures multiset(Fillings(lambda, mu, maxrows))[F] == if IsLR(lambda, mu, maxrows, F) then 1 else 0 {
      SearchExact(lambda, mu, maxrows, OldFilling(lambda), 0, 0, 0, F);
      if IsLR(lambda, mu, maxrows, F) { ExtendsOld(lambda, mu, maxrows, F); }
    }
  }

  // The fillings of shape nu in a list.
  ghost function OfShape(Fs: seq<Filling>, nu: Shape): set<Filling> {
    set F | F in Fs && ShapeOf(F) == nu
  }

  lemma {:induction false} ShapeMultiplicity(Fs: seq<Filling>, nu: Shape)
    requires forall F :: multiset(Fs)[F] <= 1
    ensures multiset(Shapes(Fs))[nu] == |OfShape(Fs, nu)|
  {
    if Fs == [] {
      assert Shapes(Fs) == [] && OfShape(Fs, nu) == {};
    } else {
      var n := |Fs| - 1;
      var Gs, G := Fs[..n], Fs[n];
      assert Fs == Gs + [G];
      assert forall F :: multiset(Gs)[F] <= multiset(Fs)[F];
      ShapeMultiplicity(Gs, nu);
      assert multiset(Fs)[G] == multiset(Gs)[G] + 1;
      assert Shapes(Fs) == Shapes(Gs) + [ShapeOf(G)];
      OneMoreFilling(Gs, G, nu);
    }
  }

  lemma OneMoreFilling(Gs: seq<Filling>, G: Filling, nu: Shape)
    requires multiset(Gs)[G] == 0
    ensures |OfShape(Gs + [G], nu)| == |OfShape(Gs, nu)| + (if ShapeOf(G) == nu then 1 else 0)
  {
    assert G !in Gs;
    assert OfShape(Gs + [G], nu) == if ShapeOf(G) == nu then OfShape(Gs, nu) + {G} else OfShape(Gs, nu);
  }

  // Each shape nu is emitted as often as there are Littlewood-Richardson
  // fillings of shape nu / lambda with content mu.
  lemma LRCoefficient(lambda: Shape, mu: Shape, maxrows: nat, nu: Shape) returns (fillings: set<Filling>)
    requires YoungShape(lambda) && YoungShape(mu) && mu != []
    ensures forall F :: F in fillings <==> IsLR(lambda, mu, maxrows, F) && ShapeOf(F) == nu
    ensures multiset(Shapes(Fillings(lambda, mu, maxrows)))[nu] == |fillings|
  {
    LittlewoodRichardsonRule(lambda, mu, maxrows);
    var Fs := Fillings(lambda, mu, maxrows);
    ShapeMultiplicity(Fs, nu);
    fillings := OfShape(Fs, nu);
    forall F ensures F in fillings <==> IsLR(lambda, mu, maxrows, F) && ShapeOf(F) == nu {
      assert F in Fs <==> multiset(Fs)[F] > 0;
    }
  }
}
