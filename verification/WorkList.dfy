// The class tableaux: add_tableau and standard_form on the stored list.

module WorkList {
  import opened Signs
  import opened Generator
  import opened Tableaux
  import opened Garnir
  import opened StandardForm
  import opened Potential
  import opened Straightening
  import opened CombinationsClass

  // One tableau is being replaced: t with multiplicity m, k exchanges done.
  ghost predicate Replacing(F: IntTableau -> real, s: seq<Entry>, next: nat, e: Entry, r: nat, c: nat, k: nat,
                            E: nat, total: real, pending: nat)
    requires At(e.rows, r, c) && 0 < k <= |Shuffles(e.rows, r, c)| && Proper(e.rows) && Bounded(e.rows, E)
  {
    && AllGood(s, E) && StandardUpTo(s, next) && next < |s| && s[next] == e
    && Total(F, s) == total - e.multiplicity * (GarnirSum(F, e.rows, r, c, k) - F(e.rows))
    && AllGood(s[next..], E)
    && Pending(s[next..], E) <= pending + (k - 1) * Child(e.rows, E)
  }

  // Bound on the potential of one exchange.
  ghost function Child(t: IntTableau, E: nat): nat
    requires Proper(t) && Bounded(t, E)
  {
    if Slack(t, E) == 0 then 0 else Pow(Branching(|t|), Slack(t, E) - 1)
  }

  ghost predicate CanReplace(e: Entry, r: nat, c: nat, E: nat) {
    Descent(e.rows, r, c) && ColumnsIncrease(e.rows) && Good(e, E)
  }

  lemma StartReplacing(F: IntTableau -> real, s: seq<Entry>, cur: nat, r: nat, c: nat, E: nat)
    requires AllGood(s, E) && StandardUpTo(s, cur) && cur < |s| && CanReplace(s[cur], r, c, E)
    ensures |Shuffles(s[cur].rows, r, c)| > 0 && AllGood(s[cur..], E)
    ensures Replacing(F, s, cur, s[cur], r, c, 1, E, Total(F, s), Pending(s[cur..], E))
  {
    hide Pending, Total, Shuffles, ExchangedBy;
    TailGood(s, cur, E);
    FirstExchange(s[cur].rows, r, c);
    assert GarnirSum(F, s[cur].rows, r, c, 1) == 0.0 + F(s[cur].rows);
  }

  lemma ReplaceStep(F: IntTableau -> real, s: seq<Entry>, next: nat, e: Entry, r: nat, c: nat, k: nat,
                    E: nat, total: real, pending: nat, child: Entry)
    requires CanReplace(e, r, c, E) && 0 < k < |Shuffles(e.rows, r, c)|
    requires Replacing(F, s, next, e, r, c, k, E, total, pending)
    requires child == Entry(ExchangedBy(e.rows, r, c, k),
      e.multiplicity * (-1 * Sign(Shuffles(e.rows, r, c)[k])) as real)
    ensures Replacing(F, Added(s, child), Moved(s, child, next), e, r, c, k + 1, E, total, pending)
  {
    hide Pending, Total, Shuffles, ExchangedBy, PotentialOf, Sign, Added, Moved, Worth, ColumnsIncrease, Proper,
      Bounded;
    ChildFacts(e.rows, r, c, k, E);
    AddedKeeps(s, child, next, E);
    AddedTotal(F, s, child);
    StepTotal(F, e, r, c, k, child);
    AddedPending(s, child, next, E);
    OneMoreChild(k - 1, Child(e.rows, E));
  }

  lemma StepTotal(F: IntTableau -> real, e: Entry, r: nat, c: nat, k: nat, child: Entry)
    requires At(e.rows, r, c) && k < |Shuffles(e.rows, r, c)|
    requires child == Entry(ExchangedBy(e.rows, r, c, k),
      e.multiplicity * (-1 * Sign(Shuffles(e.rows, r, c)[k])) as real)
    ensures -(e.multiplicity * (GarnirSum(F, e.rows, r, c, k) - F(e.rows))) + Worth(F, child)
         == -(e.multiplicity * (GarnirSum(F, e.rows, r, c, k + 1) - F(e.rows)))
  {
    hide Shuffles, ExchangedBy;
    var sign := Sign(Shuffles(e.rows, r, c)[k]);
    var x := SignedReal(sign, F(ExchangedBy(e.rows, r, c, k)));
    ExchangeWorth(F, ExchangedBy(e.rows, r, c, k), e.multiplicity, sign);
    SumStep(e.multiplicity, GarnirSum(F, e.rows, r, c, k) - F(e.rows), x);
  }

  lemma FinishReplacing(F: IntTableau -> real, s: seq<Entry>, next: nat, e: Entry, r: nat, c: nat,
                        E: nat, total: real, pending: nat)
    requires ObeysGarnir(F) && CanReplace(e, r, c, E) && |Shuffles(e.rows, r, c)| > 0
    requires Replacing(F, s, next, e, r, c, |Shuffles(e.rows, r, c)|, E, total, pending)
    ensures var s' := s[..next] + s[next + 1..];
            && AllGood(s', E) && StandardUpTo(s', next) && Total(F, s') == total
            && AllGood(s'[next..], E) && Pending(s'[next..], E) < pending
  {
    hide Pending, Total, Shuffles, PotentialOf, Worth, Standard, Good, CanReplace;
    ReplaceAt(e, r, c, E);
    assert GarnirSum(F, e.rows, r, c, |Shuffles(e.rows, r, c)|) == 0.0;
    LastWorth(F, e);
    TotalAt(F, s, next);
    ShuffleCount(e.rows, r, c);
    DropReplaced(s, next, |Shuffles(e.rows, r, c)|, E, pending);
  }

  lemma DropReplaced(s: seq<Entry>, next: nat, n: nat, E: nat, pending: nat)
    requires AllGood(s, E) && StandardUpTo(s, next) && next < |s| && Good(s[next], E) && AllGood(s[next..], E)
    requires 0 < n < Branching(|s[next].rows|)
    requires Pending(s[next..], E) <= pending + (n - 1) * Child(s[next].rows, E)
    ensures var s' := s[..next] + s[next + 1..];
            && AllGood(s', E) && StandardUpTo(s', next)
            && AllGood(s'[next..], E) && Pending(s'[next..], E) < pending
  {
    hide Pending, PotentialOf, Standard, Child, Branching;
    var s', e := s[..next] + s[next + 1..], s[next];
    assert s == s[..next] + s[next..] && s[next..] == [e] + s[next + 1..];
    GoodParts(s[..next], s[next..], E);
    GoodParts([e], s[next + 1..], E);
    GoodParts(s[..next], s[next + 1..], E);
    assert s'[next..] == s[next + 1..];
    PendingOne(e, E);
    PendingAppend([e], s[next + 1..], E);
    ChildrenAreFewer(e.rows, n, E);
  }

  lemma LastWorth(F: IntTableau -> real, e: Entry)
    ensures Worth(F, e) == -(e.multiplicity * (0.0 - F(e.rows)))
  {
  }

  lemma ChildrenAreFewer(t: IntTableau, n: nat, E: nat)
    requires Proper(t) && Bounded(t, E) && 0 < n < Branching(|t|)
    ensures (n - 1) * Child(t, E) < PotentialOf(t, E)
  {
    hide PotentialOf, Proper, Bounded;
    if Slack(t, E) > 0 {
      DifferentPotential(t, E);
      PowPositive(Branching(|t|), Slack(t, E) - 1);
      FewChildren(n - 1, Branching(|t|), Child(t, E));
    } else {
      PositivePotential(Entry(t, 0.0), E);
    }
  }

  // All entries of a finite list are bounded.
  lemma {:induction false} FindBound(s: seq<Entry>) returns (E: nat)
    requires forall i :: 0 <= i < |s| ==> Proper(s[i].rows)
    ensures AllGood(s, E)
  {
    if s == [] {
      E := 0;
    } else {
      var n := |s| - 1;
      var E1 := FindBound(s[..n]);
      var E2 := TableauBound(s[n].rows, |s[n].rows|);
      E := if E1 < E2 then E2 else E1;
      forall i | 0 <= i < |s| ensures Good(s[i], E) {
        if i < n { assert Good(s[..n][i], E1); }
      }
    }
  }

  lemma {:induction false} TableauBound(t: IntTableau, r: nat) returns (E: nat)
    requires r <= |t|
    ensures forall i, j :: 0 <= i < r && 0 <= j < |t[i]| ==> t[i][j] <= E && -t[i][j] <= E
  {
    if r == 0 {
      E := 0;
    } else {
      var E1 := TableauBound(t, r - 1);
      var E2 := RowBound(t[r - 1]);
      E := if E1 < E2 then E2 else E1;
    }
  }

  lemma {:induction false} RowBound(row: seq<int>) returns (E: nat)
    ensures forall j :: 0 <= j < |row| ==> row[j] <= E && -row[j] <= E
  {
    if row == [] {
      E := 0;
    } else {
      var n := |row| - 1;
      var E1 := RowBound(row[..n]);
      var a := if row[n] < 0 then -row[n] else row[n];
      E := if E1 < a then a else E1;
      forall j | 0 <= j < |row| ensures row[j] <= E && -row[j] <= E {
        if j < n { assert row[..n][j] == row[j]; }
      }
    }
  }

  // The rows of e already increase once its columns are sorted.
  ghost predicate StandardOnceSorted(e: Entry)
    requires Proper(e.rows)
  {
    RowsIncrease(SortColumns(e.rows, |e.rows[0]|))
  }

  // A tableau is standard exactly when its columns increase as they come and its
  // rows once the columns are sorted.
  lemma StandardSplits(e: Entry)
    requires Proper(e.rows)
    ensures Standard(e.rows) <==> ColumnsIncrease(e.rows) && StandardOnceSorted(e)
  {
    hide SortColumns;
    if ColumnsIncrease(e.rows) { SortingIdle(e.rows, |e.rows[0]|); }
  }

  lemma {:induction false} SortingIdle(t: IntTableau, m: nat)
    requires Proper(t) && ColumnsIncrease(t)
    ensures SortColumns(t, m) == t
  {
    hide SortAscending;
    if m > 0 {
      SortingIdle(t, m - 1);
      SortedIsUnique(SortAscending(Column(t, m - 1)), Column(t, m - 1));
      SetColumnSelf(t, m - 1);
    }
  }

  // The answer of standard_form says that all tableaux were standard exactly when a
  // tableau whose columns did not increase comes with one that needs an exchange.
  lemma AnswerIsRight(s: seq<Entry>)
    requires forall i :: 0 <= i < |s| ==> Proper(s[i].rows)
    ensures
      ((forall i :: 0 <= i < |s| ==> StandardOnceSorted(s[i])) <==> (forall i :: 0 <= i < |s| ==> Standard(s[i].rows)))
      <==> ((forall i :: 0 <= i < |s| ==> ColumnsIncrease(s[i].rows))
        || (exists i :: 0 <= i < |s| && !StandardOnceSorted(s[i])))
  {
    hide ColumnsIncrease, StandardOnceSorted, Standard, Proper;
    forall i | 0 <= i < |s|
      ensures Standard(s[i].rows) <==> ColumnsIncrease(s[i].rows) && StandardOnceSorted(s[i])
    {
      StandardSplits(s[i]);
    }
  }

  // So it says that 2 over 1 was standard.
  lemma AnswerIsWrong(t: IntTableau)
    requires t == [[2], [1]]
    ensures Proper(t) && StandardOnceSorted(Entry(t, 1.0)) && !Standard(t)
  {
    ColumnCell(t, 0, 0);
    ColumnCell(t, 0, 1);
    var u := SortColumns(t, 1);
    assert |u[0]| == 1 && |u[1]| == 1;
    assert !Increasing(Column(t, 0));
  }

  class TableauxList {
    var storage: seq<Entry>

    constructor (entries: seq<Entry>)
      ensures storage == entries
    {
      storage := entries;
    }

    // cur is the position of an iterator that stays valid; it must not be the entry merged away.
    method AddTableau(ntab: Entry, cur: nat) returns (next: nat)
      modifies this
      ensures storage == Added(old(storage), ntab) && next == Moved(old(storage), ntab, cur)
      ensures NoTwoEqual(old(storage)) ==> NoTwoEqual(storage)
      ensures NoneZero(old(storage)) && ntab.multiplicity != 0.0 ==> NoneZero(storage)
      ensures forall rows ::
        MultiplicityOf(storage, rows)
          == MultiplicityOf(old(storage), rows) + if rows == ntab.rows then ntab.multiplicity else 0.0
      ensures cur < |old(storage)| && old(storage)[cur].rows != ntab.rows ==>
        next < |storage| && storage[next] == old(storage)[cur]
    {
      hide MultiplicityOf, NoTwoEqual, NoneZero;
      AddedFacts(storage, ntab, cur);
      next := cur;
      var it := 0;
      while it < |storage|
        invariant 0 <= it <= |storage| && storage == old(storage) && next == cur
        invariant forall k :: 0 <= k < it ==> storage[k].rows != ntab.rows
      {
        if storage[it].rows == ntab.rows {
          FoundAt(storage, ntab, it);
          storage := storage[it := Entry(ntab.rows, storage[it].multiplicity + ntab.multiplicity)];
          if storage[it].multiplicity == 0.0 {
            assert storage[..it] + storage[it + 1..] == old(storage)[..it] + old(storage)[it + 1..];
            storage := storage[..it] + storage[it + 1..];
            if it < cur { next := cur - 1; }
          }
          return;
        }
        it := it + 1;
      }
      FoundAt(storage, ntab, it);
      storage := storage + [ntab];
    }

    // Replace the tableau at cur, which has a descent at (r, c), by its exchanges.
    method ReplaceByExchanges(cur: nat, r: nat, c: nat, ghost F: IntTableau -> real, ghost E: nat) returns (next: nat)
      requires ObeysGarnir(F)
      requires AllGood(storage, E) && StandardUpTo(storage, cur) && cur < |storage| && CanReplace(storage[cur], r, c, E)
      requires AllGood(storage[cur..], E)
      modifies this
      ensures AllGood(storage, E) && StandardUpTo(storage, next)
      ensures Total(F, storage) == Total(F, old(storage))
      ensures AllGood(storage[next..], E) && Pending(storage[next..], E) < Pending(old(storage[cur..]), E)
      ensures NoneZero(old(storage)) ==> NoneZero(storage)
    {
      hide Pending, Total, Shuffles, ObeysGarnir, GarnirSum, CanReplace, AllGood, StandardUpTo, ExchangedBy, Replacing;
      ghost var nonzero := NoneZero(storage);
      ghost var total, pending := Total(F, storage), Pending(storage[cur..], E);
      var e := storage[cur];
      StartReplacing(F, storage, cur, r, c, E);
      ReplaceAt(e, r, c, E);
      var picks, exchanges := Exchanges(e.rows, r, c);
      next := cur;
      var tabi := 1;
      while tabi < |exchanges|
        invariant 1 <= tabi <= |exchanges|
        invariant Replacing(F, storage, next, e, r, c, tabi, E, total, pending)
        invariant nonzero ==> NoneZero(storage) && e.multiplicity != 0.0
      {
        next := AddExchange(e, r, c, tabi, picks, exchanges, next, F, E, total, pending);
        tabi := tabi + 1;
      }
      ReplacingAt(F, storage, next, e, r, c, tabi, E, total, pending);
      FinishReplacing(F, storage, next, e, r, c, E, total, pending);
      storage := storage[..next] + storage[next + 1..];
    }

    // Exchange number tabi of e, with its sign, added to the list.
    method AddExchange(e: Entry, r: nat, c: nat, tabi: nat, picks: seq<seq<nat>>, exchanges: seq<seq<int>>, cur: nat,
                       ghost F: IntTableau -> real, ghost E: nat, ghost total: real, ghost pending: nat)
      returns (next: nat)
      requires CanReplace(e, r, c, E) && picks == Shuffles(e.rows, r, c) && |exchanges| == |picks| && 0 < tabi < |picks|
      requires forall k :: 0 <= k < |picks| ==> InRange(|Exchangeable(e.rows, r, c)|, picks[k])
      requires forall k :: 0 <= k < |picks| ==> exchanges[k] == Pick(Exchangeable(e.rows, r, c), picks[k])
      requires Replacing(F, storage, cur, e, r, c, tabi, E, total, pending)
      modifies this
      ensures Replacing(F, storage, next, e, r, c, tabi + 1, E, total, pending)
      ensures NoneZero(old(storage)) && e.multiplicity != 0.0 ==> NoneZero(storage)
    {
      hide Shuffles, CrossSign, Sign, Exchanged, Exchangeable, ExchangedBy, Replacing, CanReplace, Added, Moved;
      ReplaceAt(e, r, c, E);
      ExchangeSign(e.rows, r, c, picks, exchanges, tabi);
      var rows := WriteExchange(e.rows, r, c, exchanges[tabi]);
      var sign := OrderSign(exchanges[0], exchanges[tabi]);
      var ntab := Entry(rows, e.multiplicity * (-1 * sign) as real);
      SignIsOne(picks[tabi]);
      StillNonZero(e.multiplicity, sign);
      ReplaceStep(F, storage, cur, e, r, c, tabi, E, total, pending, ntab);
      next := AddTableau(ntab, cur);
    }

    // One turn of the loop of standard_form.
    method Straighten(cur: nat, ghost F: IntTableau -> real, ghost E: nat) returns (wasStandard: bool, next: nat)
      requires ColumnAntisymmetric(F) && ObeysGarnir(F)
      requires AllGood(storage, E) && StandardUpTo(storage, cur) && cur < |storage| && AllGood(storage[cur..], E)
      modifies this
      ensures AllGood(storage, E) && StandardUpTo(storage, next)
      ensures Total(F, storage) == Total(F, old(storage))
      ensures AllGood(storage[next..], E) && Pending(storage[next..], E) < Pending(old(storage[cur..]), E)
      ensures Good(old(storage)[cur], E) && (wasStandard <==> StandardOnceSorted(old(storage)[cur]))
      ensures wasStandard ==> next == cur + 1 && storage[next..] == old(storage)[next..]
      ensures NoneZero(old(storage)) ==> NoneZero(storage)
    {
      hide Pending, Total, ObeysGarnir, ColumnAntisymmetric, SortColumns, ColumnsSign;
      assert Good(storage[cur], E);
      ghost var before := storage;
      var sorted := SortWithinColumns(storage[cur]);
      storage := storage[cur := sorted];
      SortedInList(F, before, cur, sorted, E);
      var found, r, c := NonstandardLoc(sorted.rows);
      wasStandard := !found;
      DescentDecides(sorted.rows, found, r, c);
      if found {
        next := ReplaceByExchanges(cur, r, c, F, E);
      } else {
        next := cur + 1;
        PassStandard(storage, cur, E);
      }
    }

    // Returns whether no tableau needed a Garnir exchange.
    method StandardForm(ghost F: IntTableau -> real) returns (alreadyStandard: bool)
      requires forall i :: 0 <= i < |storage| ==> Proper(storage[i].rows)
      requires ColumnAntisymmetric(F) && ObeysGarnir(F)
      modifies this
      ensures forall i :: 0 <= i < |storage| ==> Proper(storage[i].rows) && Standard(storage[i].rows)
      ensures Total(F, storage) == Total(F, old(storage))
      ensures alreadyStandard <==> forall i :: 0 <= i < |old(storage)| ==> StandardOnceSorted(old(storage)[i])
      ensures NoneZero(old(storage)) ==> NoneZero(storage)
    {
      hide Pending, Total, ObeysGarnir, ColumnAntisymmetric, StandardOnceSorted, Standard;
      alreadyStandard := true;
      ghost var E := FindBound(storage);
      ghost var input := storage;
      var thetab: nat := 0;
      assert storage[0..] == storage;
      while thetab < |storage|
        invariant AllGood(storage, E) && StandardUpTo(storage, thetab) && AllGood(storage[thetab..], E)
        invariant Total(F, storage) == Total(F, input)
        invariant NoneZero(input) ==> NoneZero(storage)
        invariant alreadyStandard ==> thetab <= |input| && storage[thetab..] == input[thetab..]
        invariant alreadyStandard ==> forall i :: 0 <= i < thetab ==> StandardOnceSorted(input[i])
        invariant !alreadyStandard ==> exists i :: 0 <= i < |input| && !StandardOnceSorted(input[i])
        decreases Pending(storage[thetab..], E)
      {
        ghost var at := thetab;
        assert alreadyStandard ==> storage[thetab] == storage[thetab..][0] == input[thetab];
        assert alreadyStandard ==> storage[thetab + 1..] == storage[thetab..][1..] == input[thetab + 1..];
        var wasStandard;
        wasStandard, thetab := Straighten(thetab, F, E);
        if !wasStandard { alreadyStandard := false; }
      }
      assert forall i :: 0 <= i < |storage| ==> Good(storage[i], E);
    }
  }

  lemma SignIsOne(v: seq<nat>)
    ensures Sign(v) == 1 || Sign(v) == -1
  {
  }

  lemma StillNonZero(m: real, sign: int)
    requires sign == 1 || sign == -1
    ensures m != 0.0 ==> m * (-1 * sign) as real != 0.0
  {
  }

  lemma AddedFacts(s: seq<Entry>, e: Entry, cur: nat)
    ensures NoTwoEqual(s) ==> NoTwoEqual(Added(s, e))
    ensures NoneZero(s) && e.multiplicity != 0.0 ==> NoneZero(Added(s, e))
    ensures forall rows ::
      MultiplicityOf(Added(s, e), rows) == MultiplicityOf(s, rows) + if rows == e.rows then e.multiplicity else 0.0
    ensures cur < |s| && s[cur].rows != e.rows ==>
      Moved(s, e, cur) < |Added(s, e)| && Added(s, e)[Moved(s, e, cur)] == s[cur]
  {
    hide Added, MultiplicityOf;
    AddedDiffer(s, e);
    StaysInPlace(s, e, cur);
    forall rows
      ensures MultiplicityOf(Added(s, e), rows)
           == MultiplicityOf(s, rows) + if rows == e.rows then e.multiplicity else 0.0
    {
      AddedMultiplicity(s, e, rows);
    }
  }

  lemma StaysInPlace(s: seq<Entry>, e: Entry, cur: nat)
    ensures cur < |s| && s[cur].rows != e.rows ==>
      Moved(s, e, cur) < |Added(s, e)| && Added(s, e)[Moved(s, e, cur)] == s[cur]
  {
  }

  lemma FoundAt(s: seq<Entry>, e: Entry, it: nat)
    requires it <= |s| && (it < |s| ==> s[it].rows == e.rows)
    requires forall k :: 0 <= k < it ==> s[k].rows != e.rows
    ensures Find(s, e.rows) == it
  {
  }

  lemma ReplacingAt(F: IntTableau -> real, s: seq<Entry>, next: nat, e: Entry, r: nat, c: nat, k: nat,
                    E: nat, total: real, pending: nat)
    requires At(e.rows, r, c) && 0 < k <= |Shuffles(e.rows, r, c)| && Proper(e.rows) && Bounded(e.rows, E)
    requires Replacing(F, s, next, e, r, c, k, E, total, pending)
    ensures next < |s|
  {
  }

  lemma ReplaceAt(e: Entry, r: nat, c: nat, E: nat)
    requires CanReplace(e, r, c, E)
    ensures At(e.rows, r, c) && Proper(e.rows) && Bounded(e.rows, E)
  {
  }

  // com.permute() on the exchangeable entries.
  method Exchanges(t: IntTableau, r: nat, c: nat) returns (picks: seq<seq<nat>>, exchanges: seq<seq<int>>)
    requires At(t, r, c)
    ensures picks == Shuffles(t, r, c) && |exchanges| == |picks|
    ensures forall k :: 0 <= k < |picks| ==> InRange(|Exchangeable(t, r, c)|, picks[k])
    ensures forall k :: 0 <= k < |picks| ==> exchanges[k] == Pick(Exchangeable(t, r, c), picks[k])
  {
    hide Generated;
    var com := new Combinations<int>();
    var original, first := CollectOriginal(t, r, c);
    com.original := original;
    com.sublengths := [first, r + 1];
    GarnirProblemIs(t, r, c);
    assert com.Config() == GarnirProblem(t, r, c);
    com.Permute(-1, -1);
    assert com.inputAsym == [] && com.conditions == [];
    picks, exchanges := com.calls, com.storage;
    assert Slice(picks, -1, -1) == picks;
  }

  lemma ExchangeSign(t: IntTableau, r: nat, c: nat, picks: seq<seq<nat>>, exchanges: seq<seq<int>>, k: nat)
    requires At(t, r, c) && DistinctBoxes(t) && picks == Shuffles(t, r, c) && |exchanges| == |picks| && k < |picks|
    requires forall i :: 0 <= i < |picks| ==> InRange(|Exchangeable(t, r, c)|, picks[i])
    requires forall i :: 0 <= i < |picks| ==> exchanges[i] == Pick(Exchangeable(t, r, c), picks[i])
    ensures |exchanges[0]| == |exchanges[k]| && CrossSign(exchanges[0], exchanges[k]) == Sign(picks[k])
    ensures |exchanges[k]| == |Exchangeable(t, r, c)| && Exchanged(t, r, c, exchanges[k]) == ExchangedBy(t, r, c, k)
  {
    hide CrossSign, Sign, Generated, Exchanged, Exchangeable;
    ExchangeableDistinct(t, r, c);
    ShufflesAre(t, r, c, picks[k]);
    IdentityPick(t, r, c);
    StoredSign(Exchangeable(t, r, c), picks[k]);
  }

  lemma IdentityPick(t: IntTableau, r: nat, c: nat)
    requires At(t, r, c)
    ensures |Shuffles(t, r, c)| > 0 && InRange(|Exchangeable(t, r, c)|, Shuffles(t, r, c)[0])
    ensures Pick(Exchangeable(t, r, c), Shuffles(t, r, c)[0]) == Exchangeable(t, r, c)
  {
    GarnirProblemIs(t, r, c);
    PlainFirst(GarnirProblem(t, r, c));
  }

  // Sorting the tableau at cur in place keeps everything the loop keeps.
  lemma SortedInList(F: IntTableau -> real, s: seq<Entry>, cur: nat, e: Entry, E: nat)
    requires ColumnAntisymmetric(F) && AllGood(s, E) && StandardUpTo(s, cur) && cur < |s| && AllGood(s[cur..], E)
    requires Good(s[cur], E) && e.rows == SortColumns(s[cur].rows, |s[cur].rows[0]|)
    requires e.multiplicity == SignedReal(ColumnsSign(s[cur].rows, |s[cur].rows[0]|), s[cur].multiplicity)
    ensures Good(e, E) && ColumnsIncrease(e.rows)
    ensures AllGood(s[cur := e], E) && StandardUpTo(s[cur := e], cur) && Total(F, s[cur := e]) == Total(F, s)
    ensures AllGood(s[cur := e][cur..], E) && Pending(s[cur := e][cur..], E) == Pending(s[cur..], E)
  {
    hide Total, Pending, PotentialOf, SortColumns, ColumnsSign, ColumnAntisymmetric, Worth, Standard;
    SortedGood(s[cur], e, E);
    SortedWorth(F, s[cur], e);
    TotalReplace(F, s, cur, e);
    var s' := s[cur := e];
    assert s[cur..] == [s[cur]] + s[cur + 1..] && s'[cur..] == [e] + s[cur + 1..];
    GoodParts([s[cur]], s[cur + 1..], E);
    PendingOne(s[cur], E);
    PendingOne(e, E);
    PendingAppend([s[cur]], s[cur + 1..], E);
    PendingAppend([e], s[cur + 1..], E);
  }

  lemma DescentDecides(t: IntTableau, found: bool, r: nat, c: nat)
    requires found ==> Descent(t, r, c)
    requires !found ==> RowsIncrease(t)
    ensures found <==> !RowsIncrease(t)
  {
    if found { assert !RowIncreases(t[r]); }
  }

  lemma PassStandard(s: seq<Entry>, cur: nat, E: nat)
    requires AllGood(s, E) && cur < |s| && AllGood(s[cur..], E) && StandardUpTo(s, cur) && Standard(s[cur].rows)
    ensures StandardUpTo(s, cur + 1) && AllGood(s[cur + 1..], E) && Pending(s[cur + 1..], E) < Pending(s[cur..], E)
  {
    hide PotentialOf, Standard;
    assert s[cur..][0] == s[cur] && s[cur..][1..] == s[cur + 1..];
    assert Good(s[cur], E);
    PositivePotential(s[cur], E);
    TailGood(s, cur + 1, E);
  }
}
