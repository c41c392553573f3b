// What collecting keeps: the total, whatever the entries stand for.

module Collecting {
  import opened HashBins

  // Values in a commutative group, and what an entry is worth with a multiplier.
  datatype Worth<!K, !C, !V> = Worth(plus: (V, V) -> V, none: V, weigh: (C, K) -> V)

  ghost predicate PlusLaw<K, C, V>(W: Worth<K, C, V>, x: V, y: V, z: V) {
    && W.plus(x, W.none) == x
    && W.plus(x, y) == W.plus(y, x)
    && W.plus(W.plus(x, y), z) == W.plus(x, W.plus(y, z))
  }

  ghost predicate WeighLaw<K, C, V>(R: Rules<K, C>, W: Worth<K, C, V>, a: C, b: C, k: K) {
    && W.weigh(R.add(a, b), k) == W.plus(W.weigh(a, k), W.weigh(b, k))
    && W.weigh(R.zero, k) == W.none
  }

  // Worth is additive in the multiplier and the same for equal entries.
  ghost predicate Additive<K(!new), C(!new), V(!new)>(R: Rules<K, C>, W: Worth<K, C, V>) {
    && (forall x, y, z :: PlusLaw(W, x, y, z))
    && (forall a, b, k :: WeighLaw(R, W, a, b, k))
    && (forall c, k, l :: R.same(k, l) ==> W.weigh(c, k) == W.weigh(c, l))
  }

  ghost function Total<K, C, V>(W: Worth<K, C, V>, keys: seq<K>, coef: seq<C>): V
    requires |keys| == |coef|
  {
    if keys == [] then W.none
    else
      var n := |keys| - 1;
      W.plus(Total(W, keys[..n], coef[..n]), W.weigh(coef[n], keys[n]))
  }

  // More for one entry is more for the total.
  lemma {:induction false} TotalMore<K(!new), C(!new), V(!new)>(R: Rules<K, C>, W: Worth<K, C, V>, keys: seq<K>,
      coef: seq<C>, f: nat, c: C)
    requires Additive(R, W) && f < |keys| == |coef|
    ensures Total(W, keys, coef[f := R.add(coef[f], c)]) == W.plus(Total(W, keys, coef), W.weigh(c, keys[f]))
  {
    var n := |keys| - 1;
    var more := coef[f := R.add(coef[f], c)];
    var t := Total(W, keys[..n], coef[..n]);
    if f == n {
      assert more[..n] == coef[..n];
      assert WeighLaw(R, W, coef[n], c, keys[n]) && PlusLaw(W, t, W.weigh(coef[n], keys[n]), W.weigh(c, keys[n]));
    } else {
      assert more[..n] == coef[..n][f := R.add(coef[f], c)];
      TotalMore(R, W, keys[..n], coef[..n], f, c);
      var x, y := W.weigh(c, keys[f]), W.weigh(coef[n], keys[n]);
      assert PlusLaw(W, t, x, y) && PlusLaw(W, t, y, x) && PlusLaw(W, x, y, t);
    }
  }

  lemma {:induction false} ClassSumPrefix<K, C>(R: Rules<K, C>, keys: seq<K>, coef: seq<C>, k: nat, upto: nat, n: nat)
    requires k < upto <= n <= |keys| == |coef|
    ensures ClassSum(R, keys, coef, k, upto) == ClassSum(R, keys[..n], coef[..n], k, upto)
  {
    if upto > k + 1 { ClassSumPrefix(R, keys, coef, k, upto - 1, n); }
  }

  lemma FirstPrefix<K, C>(R: Rules<K, C>, keys: seq<K>, k: nat, n: nat)
    requires k < n <= |keys|
    ensures First(R, keys, k) <==> First(R, keys[..n], k)
  {
    if First(R, keys[..n], k) {
      forall j | 0 <= j < k ensures !R.same(keys[j], keys[k]) { assert !R.same(keys[..n][j], keys[..n][k]); }
    }
    if First(R, keys, k) {
      forall j | 0 <= j < k ensures !R.same(keys[..n][j], keys[..n][k]) { assert !R.same(keys[j], keys[k]); }
    }
  }

  // What one more entry at the end makes of an earlier one.
  lemma CollectedGrows<K, C>(R: Rules<K, C>, keys: seq<K>, coef: seq<C>, k: nat)
    requires |keys| == |coef| && k + 1 < |keys|
    ensures var n := |keys| - 1; var was := CollectedAt(R, keys[..n], coef[..n], k);
            CollectedAt(R, keys, coef, k) ==
              if First(R, keys, k) && R.same(keys[k], keys[n]) then R.add(was, coef[n]) else was
  {
    hide First;
    var n := |keys| - 1;
    FirstPrefix(R, keys, k, n);
    ClassSumPrefix(R, keys, coef, k, n, n);
  }

  // The first entry that equals entry n.
  lemma {:induction false} FirstEqual<K(!new), C>(R: Rules<K, C>, keys: seq<K>, n: nat) returns (f: nat)
    requires Sound(R) && n < |keys|
    ensures f <= n && First(R, keys, f) && R.same(keys[f], keys[n]) && (First(R, keys, n) <==> f == n)
  {
    f := n;
    if !First(R, keys, n) {
      var j: nat :| j < n && R.same(keys[j], keys[n]);
      f := FirstEqual(R, keys, j);
    }
  }

  lemma OnlyFirst<K(!new), C>(R: Rules<K, C>, keys: seq<K>, f: nat, k: nat, n: nat)
    requires Sound(R) && f < |keys| && k < |keys| && n < |keys| && First(R, keys, f) && First(R, keys, k)
    requires R.same(keys[f], keys[n]) && R.same(keys[k], keys[n])
    ensures k == f
  {
    assert R.same(keys[n], keys[k]) && R.same(keys[f], keys[k]) && R.same(keys[k], keys[f]);
  }

  // Collecting keeps the total.
  lemma {:induction false} CollectedTotal<K(!new), C(!new), V(!new)>(R: Rules<K, C>, W: Worth<K, C, V>, keys: seq<K>,
      coef: seq<C>)
    requires Sound(R) && Additive(R, W) && |keys| == |coef|
    ensures Total(W, keys, Collected(R, keys, coef)) == Total(W, keys, coef)
  {
    hide CollectedAt, First, Sound, Additive;
    if keys == [] {
      assert Collected(R, keys, coef) == [] == coef;
    } else {
      var n := |keys| - 1;
      var ks, cs := keys[..n], coef[..n];
      var was, now := Collected(R, ks, cs), Collected(R, keys, coef);
      CollectedTotal(R, W, ks, cs);
      var f := FirstEqual(R, keys, n);
      if f == n {
        forall k: nat | k < n ensures now[k] == was[k] { Unchanged(R, keys, coef, f, k); }
        assert now[..n] == was;
        LastFirst(R, keys, coef);
      } else {
        Joins(R, W, keys, coef, f);
      }
    }
  }

  lemma Unchanged<K(!new), C>(R: Rules<K, C>, keys: seq<K>, coef: seq<C>, f: nat, k: nat)
    requires Sound(R) && |keys| == |coef| && k + 1 < |keys| && f < |keys| && k != f
    requires First(R, keys, f) && R.same(keys[f], keys[|keys| - 1])
    ensures CollectedAt(R, keys, coef, k) == CollectedAt(R, keys[..|keys| - 1], coef[..|keys| - 1], k)
  {
    hide CollectedAt, First, Sound;
    CollectedGrows(R, keys, coef, k);
    if First(R, keys, k) && R.same(keys[k], keys[|keys| - 1]) { OnlyFirst(R, keys, f, k, |keys| - 1); }
  }

  lemma LastFirst<K, C>(R: Rules<K, C>, keys: seq<K>, coef: seq<C>)
    requires keys != [] && |keys| == |coef|
    ensures CollectedAt(R, keys, coef, |keys| - 1) == if First(R, keys, |keys| - 1) then coef[|keys| - 1] else R.zero
  {
  }

  // The last entry equals an earlier one, the first of them f.
  lemma Joins<K(!new), C(!new), V(!new)>(R: Rules<K, C>, W: Worth<K, C, V>, keys: seq<K>, coef: seq<C>, f: nat)
    requires Sound(R) && Additive(R, W) && |keys| == |coef| && f < |keys| - 1
    requires First(R, keys, f) && R.same(keys[f], keys[|keys| - 1]) && !First(R, keys, |keys| - 1)
    requires var n := |keys| - 1;
      Total(W, keys[..n], Collected(R, keys[..n], coef[..n]))
      == Total(W, keys[..n], coef[..n])
    ensures Total(W, keys, Collected(R, keys, coef)) == Total(W, keys, coef)
  {
    hide CollectedAt, First, Sound;
    var n := |keys| - 1;
    var ks, cs := keys[..n], coef[..n];
    var was, now := Collected(R, ks, cs), Collected(R, keys, coef);
    CollectedGrows(R, keys, coef, f);
    LastFirst(R, keys, coef);
    forall k: nat | k < n && k != f ensures now[k] == was[k] { Unchanged(R, keys, coef, f, k); }
    assert now[..n] == was[f := R.add(was[f], coef[n])];
    TotalMore(R, W, ks, was, f, coef[n]);
    assert W.weigh(coef[n], keys[f]) == W.weigh(coef[n], keys[n]);
    var t := Total(W, ks, cs);
    var x := W.plus(t, W.weigh(coef[n], keys[n]));
    assert WeighLaw(R, W, coef[n], coef[n], keys[n]) && PlusLaw(W, x, x, x);
  }

  // Of two equal entries the later one is left with nothing.
  lemma LaterIsZero<K, C>(R: Rules<K, C>, keys: seq<K>, coef: seq<C>, i: nat, j: nat)
    requires |keys| == |coef| && i < j < |keys| && R.same(keys[i], keys[j])
    ensures Collected(R, keys, coef)[j] == R.zero
  {
  }
}
