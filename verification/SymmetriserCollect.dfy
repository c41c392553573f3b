// symmetriser::collect: equal arrangements are added up.

module SymmetriserCollect {
  import opened Symmetry
  import opened SymmetriserClass
  import opened HashBins
  import opened Collecting

  function ArrangementRules<T(==)>(hash: seq<T> -> int): Rules<seq<T>, int> {
    Rules(hash, (a: seq<T>, b: seq<T>) => a == b, (x: int, y: int) => x + y, 0)
  }

  function NonZeroTerms<T>(S: seq<Term<T>>): seq<Term<T>> {
    if S == [] then []
    else NonZeroTerms(S[..|S| - 1]) + (if S[|S| - 1].factor == 0 then [] else [S[|S| - 1]])
  }

  ghost function Merged<T(!new)>(hash: seq<T> -> int, originals: seq<seq<T>>, multiplicity: seq<int>): seq<Term<T>>
    requires |originals| == |multiplicity|
  {
    NonZeroTerms(Zip(originals, Collected(ArrangementRules(hash), originals, multiplicity)))
  }

  lemma ArrangementsSound<T(!new)>(hash: seq<T> -> int)
    ensures Sound(ArrangementRules(hash))
  {
  }

  ghost function CoefWorth<T>(v: seq<T>): Worth<seq<T>, int, int> {
    Worth((x: int, y: int) => x + y, 0, (c: int, k: seq<T>) => if k == v then c else 0)
  }

  lemma {:induction false} TotalIsCoef<T>(originals: seq<seq<T>>, multiplicity: seq<int>, v: seq<T>)
    requires |originals| == |multiplicity|
    ensures Total(CoefWorth(v), originals, multiplicity) == Coef(Zip(originals, multiplicity), v)
  {
    if originals != [] {
      var n := |originals| - 1;
      TotalIsCoef(originals[..n], multiplicity[..n], v);
      assert Zip(originals, multiplicity)[..n] == Zip(originals[..n], multiplicity[..n]);
    }
  }

  lemma {:induction false} NonZeroTermsCoef<T>(S: seq<Term<T>>, v: seq<T>)
    ensures Coef(NonZeroTerms(S), v) == Coef(S, v)
  {
    if S != [] {
      var n := |S| - 1;
      NonZeroTermsCoef(S[..n], v);
      var last := if S[n].factor == 0 then [] else [S[n]];
      CoefAppend(NonZeroTerms(S[..n]), last, v);
      assert Coef(last, v) == if S[n].factor != 0 && S[n].entries == v then S[n].factor else 0 by {
        if last != [] { assert last[..0] == []; }
      }
    }
  }

  // Where a kept term was.
  lemma {:induction false} NonZeroTermsFrom<T>(S: seq<Term<T>>, a: nat, b: nat) returns (i: nat, j: nat)
    requires a < b < |NonZeroTerms(S)|
    ensures i < j < |S| && NonZeroTerms(S)[a] == S[i] && NonZeroTerms(S)[b] == S[j] && S[i].factor != 0
      && S[j].factor != 0
  {
    var n := |S| - 1;
    if b < |NonZeroTerms(S[..n])| {
      i, j := NonZeroTermsFrom(S[..n], a, b);
    } else {
      j := n;
      i := NonZeroTermAt(S[..n], a);
    }
  }

  lemma {:induction false} NonZeroTermAt<T>(S: seq<Term<T>>, a: nat) returns (i: nat)
    requires a < |NonZeroTerms(S)|
    ensures i < |S| && NonZeroTerms(S)[a] == S[i] && S[i].factor != 0
  {
    var n := |S| - 1;
    if a < |NonZeroTerms(S[..n])| { i := NonZeroTermAt(S[..n], a); } else { i := n; }
  }

  // Collecting keeps every coefficient; no arrangement is left twice and none
  // with multiplicity zero.
  lemma MergedExact<T(!new)>(hash: seq<T> -> int, originals: seq<seq<T>>, multiplicity: seq<int>, v: seq<T>)
    requires |originals| == |multiplicity|
    ensures Coef(Merged(hash, originals, multiplicity), v) == Coef(Zip(originals, multiplicity), v)
  {
    hide First, CollectedAt;
    var R := ArrangementRules(hash);
    ArrangementsSound(hash);
    CoefAdditive(hash, v);
    CollectedTotal(R, CoefWorth(v), originals, multiplicity);
    var ms := Collected(R, originals, multiplicity);
    TotalIsCoef(originals, multiplicity, v);
    TotalIsCoef(originals, ms, v);
    NonZeroTermsCoef(Zip(originals, ms), v);
  }

  lemma CoefAdditive<T(!new)>(hash: seq<T> -> int, v: seq<T>)
    ensures Additive(ArrangementRules(hash), CoefWorth(v))
  {
    var R, W := ArrangementRules(hash), CoefWorth(v);
    forall x, y, z ensures PlusLaw(W, x, y, z) {}
    forall a, b, k ensures WeighLaw(R, W, a, b, k) {}
  }

  lemma MergedDistinct<T(!new)>(hash: seq<T> -> int, originals: seq<seq<T>>, multiplicity: seq<int>, a: nat, b: nat)
    requires |originals| == |multiplicity| && a < b < |Merged(hash, originals, multiplicity)|
    ensures var M := Merged(hash, originals, multiplicity);
            M[a].entries != M[b].entries && M[a].factor != 0 && M[b].factor != 0
  {
    var R := ArrangementRules(hash);
    var ms := Collected(R, originals, multiplicity);
    var i, j := NonZeroTermsFrom(Zip(originals, ms), a, b);
    if originals[i] == originals[j] { LaterIsZero(R, originals, multiplicity, i, j); }
  }

  // symmetriser::collect, for any hash of the arrangements.
  method Collect<T(==, !new)>(sym: Symmetriser<T>, hash: seq<T> -> int)
    requires sym.Valid()
    modifies sym`originals, sym`multiplicity
    ensures sym.Valid() && sym.Terms() == Merged(hash, old(sym.originals), old(sym.multiplicity))
  {
    hide First;
    var bins := new Collector(ArrangementRules(hash), sym.originals, sym.multiplicity);
    bins.FillHashMap();
    ArrangementsSound(hash);
    var applied := bins.CollectFromHashMap();
    sym.multiplicity := bins.coef;
    RemoveMultiplicityZero(sym);
  }

  method RemoveMultiplicityZero<T(==)>(sym: Symmetriser<T>)
    requires sym.Valid()
    modifies sym`originals, sym`multiplicity
    ensures sym.Valid() && sym.Terms() == NonZeroTerms(old(sym.Terms()))
  {
    var newOriginals, newMultiplicity := [], [];
    ghost var S := sym.Terms();
    for k := 0 to |sym.originals|
      invariant |newOriginals| == |newMultiplicity| && sym.originals == old(sym.originals)
        && sym.multiplicity == old(sym.multiplicity)
      invariant Zip(newOriginals, newMultiplicity) == NonZeroTerms(S[..k])
    {
      assert S[..k + 1][..k] == S[..k];
      if sym.multiplicity[k] != 0 {
        assert Zip(newOriginals + [sym.originals[k]], newMultiplicity + [sym.multiplicity[k]])
          == Zip(newOriginals, newMultiplicity) + [S[k]];
        newOriginals := newOriginals + [sym.originals[k]];
        newMultiplicity := newMultiplicity + [sym.multiplicity[k]];
      }
    }
    assert S[..|S|] == S;
    sym.originals, sym.multiplicity := newOriginals, newMultiplicity;
  }
}
