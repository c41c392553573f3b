// Formal sums of arrangements and what permuting slots or values does to them.

module Symmetry {
  import opened Signs
  import opened Generator

  // One stored arrangement with its multiplicity.
  datatype Term<T> = Term(entries: seq<T>, factor: int)

  // Coefficient of the arrangement v in a formal sum.
  function Coef<T(==)>(S: seq<Term<T>>, v: seq<T>): int {
    if S == [] then 0
    else Coef(S[..|S| - 1], v) + (if S[|S| - 1].entries == v then S[|S| - 1].factor else 0)
  }

  lemma {:induction false} CoefAppend<T>(A: seq<Term<T>>, B: seq<Term<T>>, v: seq<T>)
    ensures Coef(A + B, v) == Coef(A, v) + Coef(B, v)
  {
    if B == [] {
      assert A + B == A;
    } else {
      var n := |B| - 1;
      assert (A + B)[..|A| + n] == A + B[..n];
      CoefAppend(A, B[..n], v);
    }
  }

  // ------------------------------------------------------------------ Actions

  // What is permuted: slots of the arrangement, or values wherever they stand.
  datatype Action<T> = BySlot(blocks: seq<nat>) | ByValue(values: seq<T>)
  {
    function Size(): nat {
      match this case BySlot(b) => |b| case ByValue(x) => |x|
    }

    ghost predicate Proper(length: nat) {
      match this
      case BySlot(b) => Distinct(b) && InRange(length, b)
      case ByValue(x) => Distinct(x)
    }
  }

  ghost predicate Permutes(n: nat, p: seq<nat>) {
    |p| == n && IsPermutation(p)
  }

  // Slot blocks[k] receives what stood in slot blocks[p[k]]; or value values[k]
  // is replaced by values[p[k]].
  function ActAt<T(==)>(a: Action<T>, p: seq<nat>, w: seq<T>, k: nat): T
    requires k < |w|
  {
    match a
    case BySlot(b) =>
      var j := IndexOf(b, k);
      if j < |b| && j < |p| && p[j] < |b| && b[p[j]] < |w| then w[b[p[j]]] else w[k]
    case ByValue(x) =>
      var j := IndexOf(x, w[k]);
      if j < |x| && j < |p| && p[j] < |x| then x[p[j]] else w[k]
  }

  function Act<T(==)>(a: Action<T>, p: seq<nat>, w: seq<T>): (u: seq<T>)
    ensures |u| == |w| && forall k :: 0 <= k < |w| ==> u[k] == ActAt(a, p, w, k)
  {
    seq(|w|, k requires 0 <= k < |w| => ActAt(a, p, w, k))
  }

  // The contents of slot b[p[k]] go to slot b[k], and no other slot changes.
  ghost predicate SlotsPermuted<T>(b: seq<nat>, p: seq<nat>, w: seq<T>, u: seq<T>)
    requires Permutes(|b|, p) && InRange(|w|, b)
  {
    && |u| == |w|
    && (forall k :: 0 <= k < |b| ==> u[b[k]] == w[b[p[k]]])
    && (forall i :: 0 <= i < |w| && i !in b ==> u[i] == w[i])
  }

  lemma ActPermutesSlots<T>(b: seq<nat>, p: seq<nat>, w: seq<T>)
    requires Permutes(|b|, p) && Distinct(b) && InRange(|w|, b)
    ensures SlotsPermuted(b, p, w, Act(BySlot(b), p, w))
  {
    forall k | 0 <= k < |b| ensures Act(BySlot(b), p, w)[b[k]] == w[b[p[k]]] { IndexOfOwn(b, k); }
  }

  lemma SlotsPermutedOnce<T>(b: seq<nat>, p: seq<nat>, w: seq<T>, u: seq<T>, u': seq<T>)
    requires Permutes(|b|, p) && InRange(|w|, b) && SlotsPermuted(b, p, w, u) && SlotsPermuted(b, p, w, u')
    ensures u == u'
  {
    forall i | 0 <= i < |w| ensures u[i] == u'[i] {
      if i in b {
        var k :| 0 <= k < |b| && b[k] == i;
        assert u[b[k]] == w[b[p[k]]];
      }
    }
  }

  // The contents of slots b[i] and b[j] exchanged.
  lemma ActExchangesSlots<T>(b: seq<nat>, i: nat, j: nat, v: seq<T>)
    requires Distinct(b) && InRange(|v|, b) && i < j < |b|
    ensures Act(BySlot(b), Transposition(|b|, i, j), v) == v[b[i] := v[b[j]]][b[j] := v[b[i]]]
  {
    hide SlotsPermuted, Act, Transposition, Sign;
    var t := Transposition(|b|, i, j);
    TranspositionIs(|b|, i, j);
    ActPermutesSlots(b, t, v);
    ExchangePermutes(b, i, j, v);
    SlotsPermutedOnce(b, t, v, Act(BySlot(b), t, v), v[b[i] := v[b[j]]][b[j] := v[b[i]]]);
  }

  lemma ExchangePermutes<T>(b: seq<nat>, i: nat, j: nat, v: seq<T>)
    requires Distinct(b) && InRange(|v|, b) && i < j < |b| && Permutes(|b|, Transposition(|b|, i, j))
    ensures SlotsPermuted(b, Transposition(|b|, i, j), v, v[b[i] := v[b[j]]][b[j] := v[b[i]]])
  {
    var t, u := Transposition(|b|, i, j), v[b[i] := v[b[j]]][b[j] := v[b[i]]];
    forall k | 0 <= k < |b| ensures u[b[k]] == v[b[t[k]]] {
      assert t[k] == if k == i then j else if k == j then i else k;
    }
  }

  // Every value y[i] replaced by y[j] and the other way round.
  lemma ActExchangesValues<T>(y: seq<T>, i: nat, j: nat, v: seq<T>)
    requires Distinct(y) && i < j < |y|
    ensures forall k :: 0 <= k < |v| ==>
      Act(ByValue(y), Transposition(|y|, i, j), v)[k]
        == if v[k] == y[i] then y[j] else if v[k] == y[j] then y[i] else v[k]
  {
    IndexOfOwn(y, i);
    IndexOfOwn(y, j);
  }

  lemma IndexOfOwn<T>(s: seq<T>, j: nat)
    requires Distinct(s) && j < |s|
    ensures IndexOf(s, s[j]) == j
  {
    assert s[j] in s;
  }

  // Permuting twice is permuting once; the order of the factors depends on
  // whether slots or values are moved.
  function Twice<T>(a: Action<T>, p: seq<nat>, q: seq<nat>): seq<nat>
    requires |p| == |q| && InRange(|p|, p) && InRange(|p|, q)
  {
    match a case BySlot(_) => Compose(q, p) case ByValue(_) => Compose(p, q)
  }

  lemma ActTwiceAt<T>(a: Action<T>, p: seq<nat>, q: seq<nat>, w: seq<T>, k: nat)
    requires a.Proper(|w|) && Permutes(a.Size(), p) && Permutes(a.Size(), q) && k < |w|
    ensures Act(a, p, Act(a, q, w))[k] == Act(a, Twice(a, p, q), w)[k]
  {
    match a
    case BySlot(b) =>
      var j := IndexOf(b, k);
      if j < |b| {
        assert b[p[j]] < |w|;
        IndexOfOwn(b, p[j]);
      }
    case ByValue(x) =>
      var j := IndexOf(x, w[k]);
      if j < |x| { IndexOfOwn(x, q[j]); }
  }

  lemma ActTwice<T>(a: Action<T>, p: seq<nat>, q: seq<nat>, w: seq<T>)
    requires a.Proper(|w|) && Permutes(a.Size(), p) && Permutes(a.Size(), q)
    ensures Act(a, p, Act(a, q, w)) == Act(a, Twice(a, p, q), w)
  {
    forall k | 0 <= k < |w| ensures Act(a, p, Act(a, q, w))[k] == Act(a, Twice(a, p, q), w)[k] {
      ActTwiceAt(a, p, q, w, k);
    }
  }

  lemma ActIdentity<T>(a: Action<T>, w: seq<T>)
    requires a.Proper(|w|)
    ensures Act(a, Identity(a.Size()), w) == w
  {
  }

  function Inverse(p: seq<nat>): (q: seq<nat>)
    ensures |q| == |p|
  {
    Ranks(p, Identity(|p|))
  }

  lemma InverseIs(p: seq<nat>)
    requires IsPermutation(p)
    ensures IsPermutation(Inverse(p))
    ensures Compose(p, Inverse(p)) == Identity(|p|) && Compose(Inverse(p), p) == Identity(|p|)
  {
    var id := Identity(|p|);
    PermutationOnto(p);
    RanksPermutation(p, id);
    forall k | 0 <= k < |p| ensures IndexOf(p, p[k]) == k { IndexOfOwn(p, k); }
    assert Compose(p, Inverse(p)) == id;
    assert Compose(Inverse(p), p) == id;
  }

  // A permutation takes every value.
  lemma PermutationOnto(p: seq<nat>)
    requires IsPermutation(p)
    ensures forall x :: 0 <= x < |p| ==> x in p
  {
    var id := Identity(|p|);
    DistinctSize(id);
    DistinctSize(p);
    assert Elems(p) <= Elems(id) by {
      forall x | x in Elems(p) ensures x in Elems(id) { assert id[x] == x; }
    }
    SubsetSame(Elems(p), Elems(id));
    forall x | 0 <= x < |p| ensures x in p { assert id[x] in Elems(id); }
  }

  lemma {:induction false} DistinctSize(p: seq<nat>)
    requires Distinct(p)
    ensures |Elems(p)| == |p|
  {
    if p == [] {
      assert Elems(p) == {};
    } else {
      var n := |p| - 1;
      DistinctSize(p[..n]);
      assert p == p[..n] + [p[n]];
      assert Elems(p) == Elems(p[..n]) + {p[n]};
    }
  }

  lemma SubsetSame(a: set<nat>, b: set<nat>)
    requires a <= b && |a| == |b|
    ensures a == b
  {
    assert b == a + (b - a);
  }

  lemma ActInverse<T>(a: Action<T>, p: seq<nat>, w: seq<T>)
    requires a.Proper(|w|) && Permutes(a.Size(), p)
    ensures Permutes(a.Size(), Inverse(p))
    ensures Act(a, Inverse(p), Act(a, p, w)) == w && Act(a, p, Act(a, Inverse(p), w)) == w
  {
    InverseIs(p);
    ActTwice(a, Inverse(p), p, w);
    ActTwice(a, p, Inverse(p), w);
    ActIdentity(a, w);
  }

  // Permuting keeps different entries different.
  lemma ActDistinct<T>(a: Action<T>, p: seq<nat>, w: seq<T>)
    requires a.Proper(|w|) && Permutes(a.Size(), p) && Distinct(w)
    ensures Distinct(Act(a, p, w))
  {
    var u := Act(a, p, w);
    match a
    case BySlot(b) =>
      forall i, j | 0 <= i < j < |w| ensures u[i] != u[j] {
        SlotsMove(b, p, w, i, j);
      }
    case ByValue(x) =>
      forall i, j | 0 <= i < j < |w| ensures u[i] != u[j] {
        var k, l := IndexOf(x, w[i]), IndexOf(x, w[j]);
        assert k < |x| ==> x[p[k]] in x;
        assert l < |x| ==> x[p[l]] in x;
      }
  }

  function Source(b: seq<nat>, p: seq<nat>, i: nat): nat
    requires Permutes(|b|, p)
  {
    var k := IndexOf(b, i);
    if k < |b| then b[p[k]] else i
  }

  lemma SlotsMove<T>(b: seq<nat>, p: seq<nat>, w: seq<T>, i: nat, j: nat)
    requires Distinct(b) && InRange(|w|, b) && Permutes(|b|, p) && Distinct(w) && i < j < |w|
    ensures Act(BySlot(b), p, w)[i] != Act(BySlot(b), p, w)[j]
  {
    var k, l := IndexOf(b, i), IndexOf(b, j);
    assert k < |b| ==> b[p[k]] in b;
    assert l < |b| ==> b[p[l]] in b;
    var s, t := Source(b, p, i), Source(b, p, j);
    assert s != t;
    assert s < |w| && t < |w|;
    assert Act(BySlot(b), p, w)[i] == w[s] && Act(BySlot(b), p, w)[j] == w[t];
  }

  // -------------------------------------------------------- Acting on a sum

  function Map<T(==)>(a: Action<T>, p: seq<nat>, s: int, S: seq<Term<T>>): (R: seq<Term<T>>)
    ensures |R| == |S|
    ensures forall i :: 0 <= i < |S| ==> R[i] == Term(Act(a, p, S[i].entries), Signed(s, S[i].factor))
  {
    seq(|S|, i requires 0 <= i < |S| => Term(Act(a, p, S[i].entries), Signed(s, S[i].factor)))
  }

  ghost predicate ProperOn<T>(a: Action<T>, length: nat, S: seq<Term<T>>) {
    a.Proper(length) && forall i :: 0 <= i < |S| ==> |S[i].entries| == length
  }

  lemma {:induction false} CoefMap<T>(a: Action<T>, p: seq<nat>, s: int, length: nat, S: seq<Term<T>>, v: seq<T>)
    requires ProperOn(a, length, S) && |v| == length && Permutes(a.Size(), p)
    ensures Coef(Map(a, p, s, S), v) == Signed(s, Coef(S, Act(a, Inverse(p), v)))
  {
    if S != [] {
      var n := |S| - 1;
      CoefMap(a, p, s, length, S[..n], v);
      assert Map(a, p, s, S)[..n] == Map(a, p, s, S[..n]);
      ActInverse(a, p, S[n].entries);
      ActInverse(a, p, v);
    }
  }

  // ---------------------------------------------------- Sums over permutations

  function SignOf(permutationSign: int, p: seq<nat>): int {
    if permutationSign == -1 then Sign(p) else 1
  }

  // Sum over the listed permutations p of sign(p) * (p applied to S), at v.
  ghost function SumOver<T>(ps: seq<seq<nat>>, a: Action<T>, sign: int, S: seq<Term<T>>, v: seq<T>): int {
    if ps == [] then 0
    else SumOver(ps[..|ps| - 1], a, sign, S, v) +
         Coef(Map(a, ps[|ps| - 1], SignOf(sign, ps[|ps| - 1]), S), v)
  }

  lemma {:induction false} SumOverAppend<T>(ps: seq<seq<nat>>, qs: seq<seq<nat>>, a: Action<T>, sign: int,
      S: seq<Term<T>>, v: seq<T>)
    ensures SumOver(ps + qs, a, sign, S, v) == SumOver(ps, a, sign, S, v) + SumOver(qs, a, sign, S, v)
  {
    if qs == [] {
      assert ps + qs == ps;
    } else {
      var n := |qs| - 1;
      assert (ps + qs)[..|ps| + n] == ps + qs[..n];
      SumOverAppend(ps, qs[..n], a, sign, S, v);
    }
  }

  // The order of summation does not matter.
  lemma {:induction false} SumOverReorder<T>(ps: seq<seq<nat>>, qs: seq<seq<nat>>, a: Action<T>, sign: int,
      S: seq<Term<T>>, v: seq<T>)
    requires multiset(ps) == multiset(qs)
    ensures SumOver(ps, a, sign, S, v) == SumOver(qs, a, sign, S, v)
  {
    if ps == [] {
      assert |multiset(qs)| == 0;
      assert qs == [];
    } else {
      var n := |ps| - 1;
      var j := RemoveLast(ps, qs);
      SumOverReorder(ps[..n], qs[..j] + qs[j + 1..], a, sign, S, v);
      SumOverWithout(qs, j, a, sign, S, v);
    }
  }

  lemma RemoveLast(ps: seq<seq<nat>>, qs: seq<seq<nat>>) returns (j: nat)
    requires multiset(ps) == multiset(qs) && ps != []
    ensures j < |qs| && qs[j] == ps[|ps| - 1]
    ensures multiset(ps[..|ps| - 1]) == multiset(qs[..j] + qs[j + 1..])
  {
    var n := |ps| - 1;
    var x := ps[n];
    assert x in multiset(qs);
    j :| 0 <= j < |qs| && qs[j] == x;
    WithoutOne(ps, n);
    WithoutOne(qs, j);
    assert ps[n + 1..] == [] && ps[..n] + [] == ps[..n];
  }

  lemma WithoutOne<A>(s: seq<A>, j: nat)
    requires j < |s|
    ensures multiset(s[..j] + s[j + 1..]) == multiset(s) - multiset{s[j]}
  {
    assert s == s[..j] + [s[j]] + s[j + 1..];
  }

  lemma SumOverWithout<T>(qs: seq<seq<nat>>, j: nat, a: Action<T>, sign: int, S: seq<Term<T>>, v: seq<T>)
    requires j < |qs|
    ensures SumOver(qs, a, sign, S, v)
         == SumOver(qs[..j] + qs[j + 1..], a, sign, S, v) + Coef(Map(a, qs[j], SignOf(sign, qs[j]), S), v)
  {
    assert qs == qs[..j] + [qs[j]] + qs[j + 1..];
    SumOverAppend(qs[..j], qs[j + 1..], a, sign, S, v);
    SumOverAppend(qs[..j] + [qs[j]], qs[j + 1..], a, sign, S, v);
    SumOverLast(qs[..j], qs[j], a, sign, S, v);
  }

  // ps lists every permutation of n things once.
  ghost predicate AllPermutations(n: nat, ps: seq<seq<nat>>) {
    forall p :: multiset(ps)[p] == if Permutes(n, p) then 1 else 0
  }

  function Transposition(n: nat, i: nat, j: nat): seq<nat>
    requires i < j < n
  {
    Swap(Identity(n), i, j)
  }

  lemma TranspositionIs(n: nat, i: nat, j: nat)
    requires i < j < n
    ensures Permutes(n, Transposition(n, i, j)) && Sign(Transposition(n, i, j)) == -1
    ensures Compose(Transposition(n, i, j), Transposition(n, i, j)) == Identity(n)
  {
    hide Inversions;
    var id := Identity(n);
    assert Sorted(id);
    SortedInversions(id);
    TranspositionSign(id, i, j);
    var t := Transposition(n, i, j);
    forall k | 0 <= k < n ensures t[k] == if k == i then j else if k == j then i else k {}
  }

  // Permute by t after q.
  function After<T>(a: Action<T>, t: seq<nat>, qs: seq<seq<nat>>): (rs: seq<seq<nat>>)
    requires InRange(|t|, t) && forall k :: 0 <= k < |qs| ==> |qs[k]| == |t| && InRange(|t|, qs[k])
    ensures |rs| == |qs| && forall k :: 0 <= k < |qs| ==> rs[k] == Twice(a, t, qs[k])
  {
    seq(|qs|, k requires 0 <= k < |qs| => Twice(a, t, qs[k]))
  }

  ghost predicate Perms(n: nat, ps: seq<seq<nat>>) {
    forall k :: 0 <= k < |ps| ==> Permutes(n, ps[k])
  }

  lemma TwicePermutes<T>(a: Action<T>, t: seq<nat>, p: seq<nat>)
    requires IsPermutation(t) && IsPermutation(p) && |p| == |t|
    ensures Permutes(|t|, Twice(a, t, p)) && Sign(Twice(a, t, p)) == Sign(t) * Sign(p)
  {
    ComposeSign(t, p);
    ComposeSign(p, t);
  }

  lemma TwiceInvolution<T>(a: Action<T>, t: seq<nat>, p: seq<nat>)
    requires IsPermutation(t) && IsPermutation(p) && |p| == |t| && Compose(t, t) == Identity(|t|)
    ensures Permutes(|t|, Twice(a, t, p)) && Twice(a, t, Twice(a, t, p)) == p
  {
    TwicePermutes(a, t, p);
    UndoTwice(t, p);
  }

  lemma UndoTwice(t: seq<nat>, p: seq<nat>)
    requires InRange(|t|, t) && InRange(|t|, p) && |p| == |t| && Compose(t, t) == Identity(|t|)
    ensures Compose(t, Compose(t, p)) == p && Compose(Compose(p, t), t) == p
  {
    hide Compose;
    forall k | 0 <= k < |p| ensures Compose(t, Compose(t, p))[k] == p[k] && Compose(Compose(p, t), t)[k] == p[k] {
      ComposeAt(t, t, k);
      ComposeAt(t, t, p[k]);
      ComposeAt(t, p, k);
      ComposeAt(t, Compose(t, p), k);
      ComposeAt(p, t, t[k]);
      ComposeAt(Compose(p, t), t, k);
    }
  }

  lemma ComposeAt(p: seq<nat>, q: seq<nat>, k: nat)
    requires InRange(|p|, q) && k < |q|
    ensures Compose(p, q)[k] == p[q[k]]
  {
  }

  lemma {:induction false} AfterCount<T>(a: Action<T>, t: seq<nat>, ps: seq<seq<nat>>, p: seq<nat>)
    requires IsPermutation(t) && Compose(t, t) == Identity(|t|) && Perms(|t|, ps) && Permutes(|t|, p)
    ensures Permutes(|t|, Twice(a, t, p))
    ensures multiset(After(a, t, ps))[p] == multiset(ps)[Twice(a, t, p)]
  {
    hide After, Twice, Sign;
    TwiceInvolution(a, t, p);
    if ps == [] {
      AfterNone(a, t);
    } else {
      var n := |ps| - 1;
      AfterCount(a, t, ps[..n], p);
      assert ps == ps[..n] + [ps[n]];
      AfterLast(a, t, ps);
      TwiceBothWays(a, t, ps[n], p);
    }
  }

  lemma AfterNone<T>(a: Action<T>, t: seq<nat>)
    requires InRange(|t|, t)
    ensures After(a, t, []) == []
  {
  }

  lemma AfterLast<T>(a: Action<T>, t: seq<nat>, ps: seq<seq<nat>>)
    requires InRange(|t|, t) && Perms(|t|, ps) && ps != []
    ensures After(a, t, ps) == After(a, t, ps[..|ps| - 1]) + [Twice(a, t, ps[|ps| - 1])]
  {
  }

  lemma TwiceBothWays<T>(a: Action<T>, t: seq<nat>, p: seq<nat>, q: seq<nat>)
    requires IsPermutation(t) && Compose(t, t) == Identity(|t|) && Permutes(|t|, p) && Permutes(|t|, q)
    ensures Twice(a, t, p) == q <==> p == Twice(a, t, q)
  {
    TwiceInvolution(a, t, p);
    TwiceInvolution(a, t, q);
  }

  lemma AfterAll<T>(a: Action<T>, t: seq<nat>, ps: seq<seq<nat>>)
    requires IsPermutation(t) && Compose(t, t) == Identity(|t|) && AllPermutations(|t|, ps)
    ensures Perms(|t|, ps) && multiset(After(a, t, ps)) == multiset(ps)
  {
    forall k | 0 <= k < |ps| ensures Permutes(|t|, ps[k]) { assert ps[k] in multiset(ps); }
    var rs := After(a, t, ps);
    forall k | 0 <= k < |rs| ensures Permutes(|t|, rs[k]) { TwicePermutes(a, t, ps[k]); }
    forall p ensures multiset(rs)[p] == multiset(ps)[p] {
      if Permutes(|t|, p) {
        AfterCount(a, t, ps, p);
      } else {
        assert p !in rs;
      }
    }
  }

  lemma {:induction false} SumOverTransposed<T>(ps: seq<seq<nat>>, a: Action<T>, sign: int, length: nat,
      S: seq<Term<T>>, t: seq<nat>, v: seq<T>)
    requires ProperOn(a, length, S) && |v| == length
    requires Permutes(a.Size(), t) && Compose(t, t) == Identity(|t|) && Perms(|t|, ps)
    requires Sign(t) == -1
    ensures SumOver(ps, a, sign, S, Act(a, t, v))
         == Signed(SignOf(sign, t), SumOver(After(a, t, ps), a, sign, S, v))
  {
    if ps != [] {
      var n := |ps| - 1;
      SumOverTransposed(ps[..n], a, sign, length, S, t, v);
      TransposeOne(ps[n], a, sign, length, S, t, v);
      AfterLast(a, t, ps);
      SumOverLast(After(a, t, ps[..n]), Twice(a, t, ps[n]), a, sign, S, v);
    }
  }

  lemma SumOverLast<T>(qs: seq<seq<nat>>, q: seq<nat>, a: Action<T>, sign: int, S: seq<Term<T>>, v: seq<T>)
    ensures SumOver(qs + [q], a, sign, S, v) == SumOver(qs, a, sign, S, v) + Coef(Map(a, q, SignOf(sign, q), S), v)
  {
    assert (qs + [q])[..|qs|] == qs;
  }

  // sign(p) * (p S) at t v is sign(t) * sign(t p) * ((t p) S) at v.
  lemma TransposeOne<T>(p: seq<nat>, a: Action<T>, sign: int, length: nat, S: seq<Term<T>>, t: seq<nat>, v: seq<T>)
    requires ProperOn(a, length, S) && |v| == length
    requires Permutes(a.Size(), t) && Compose(t, t) == Identity(|t|) && Permutes(|t|, p)
    requires Sign(t) == -1
    ensures Permutes(|t|, Twice(a, t, p))
    ensures Coef(Map(a, p, SignOf(sign, p), S), Act(a, t, v))
         == Signed(SignOf(sign, t), Coef(Map(a, Twice(a, t, p), SignOf(sign, Twice(a, t, p)), S), v))
  {
    var q := Twice(a, t, p);
    TwicePermutes(a, t, p);
    CoefMap(a, p, SignOf(sign, p), length, S, Act(a, t, v));
    CoefMap(a, q, SignOf(sign, q), length, S, v);
    SameInverse(a, p, t, v);
  }

  lemma SameInverse<T>(a: Action<T>, p: seq<nat>, t: seq<nat>, v: seq<T>)
    requires a.Proper(|v|) && Permutes(a.Size(), t) && Compose(t, t) == Identity(|t|) && Permutes(|t|, p)
    ensures Permutes(|t|, Twice(a, t, p))
    ensures Act(a, Inverse(p), Act(a, t, v)) == Act(a, Inverse(Twice(a, t, p)), v)
  {
    var q := Twice(a, t, p);
    TwicePermutes(a, t, p);
    var u := Act(a, Inverse(p), Act(a, t, v));
    ActInverse(a, p, Act(a, t, v));
    assert Act(a, p, u) == Act(a, t, v);
    ActTwice(a, t, p, u);
    ActTwice(a, t, t, v);
    ActIdentity(a, v);
    assert Act(a, q, u) == v;
    ActInverse(a, q, u);
  }

  // (Anti)symmetry: exchanging two permuted slots or values everywhere gives
  // the sum back, with a minus sign when signs are counted.
  lemma SumIsSymmetric<T>(ps: seq<seq<nat>>, a: Action<T>, sign: int, length: nat, S: seq<Term<T>>, i: nat, j: nat,
      v: seq<T>)
    requires ProperOn(a, length, S) && |v| == length && i < j < a.Size() && AllPermutations(a.Size(), ps)
    ensures SumOver(ps, a, sign, S, Act(a, Transposition(a.Size(), i, j), v))
         == Signed(if sign == -1 then -1 else 1, SumOver(ps, a, sign, S, v))
  {
    var t := Transposition(a.Size(), i, j);
    TranspositionIs(a.Size(), i, j);
    AfterAll(a, t, ps);
    SumOverTransposed(ps, a, sign, length, S, t, v);
    SumOverReorder(After(a, t, ps), ps, a, sign, S, v);
  }
}
