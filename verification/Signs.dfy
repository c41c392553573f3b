// Signs of rearrangements: the crossing-off loop of combin::ordersign, and the
// inversion count it is measured against.

module Signs {

  ghost predicate Distinct<T>(s: seq<T>) {
    forall i, j :: 0 <= i < j < |s| ==> s[i] != s[j]
  }

  // -------------------------------------------------------------------- Elements

  function Elems<T>(s: seq<T>): set<T> {
    set x | x in s
  }

  lemma {:induction false} ElemsSize<T>(s: seq<T>)
    ensures |Elems(s)| <= |s|
  {
    if s == [] {
      assert Elems(s) == {};
    } else {
      ElemsSize(s[1..]);
      assert Elems(s) == {s[0]} + Elems(s[1..]);
    }
  }

  lemma {:induction false} SubsetSize<T>(a: set<T>, b: set<T>)
    requires a <= b
    ensures |a| <= |b|
  {
    if a != {} {
      var x :| x in a;
      SubsetSize(a - {x}, b - {x});
    }
  }

  // ---------------------------------------------------------------- Inversions

  // How many entries of s are smaller than x.
  function CountLess(s: seq<int>, x: int): nat {
    if s == [] then 0 else (if s[0] < x then 1 else 0) + CountLess(s[1..], x)
  }

  // Number of pairs i < j with v[i] > v[j].
  function Inversions(v: seq<int>): nat {
    if v == [] then 0 else CountLess(v[1..], v[0]) + Inversions(v[1..])
  }

  function Parity(n: nat): int {
    if n % 2 == 0 then 1 else -1
  }

  function Sign(v: seq<int>): int {
    Parity(Inversions(v))
  }

  // x with the sign s, which is 1 or -1.
  function Signed(s: int, x: int): int {
    if s == 1 then x else -x
  }

  lemma SignedFlip(s: int, n: nat, x: int)
    requires s == 1 || s == -1
    ensures Signed(Flip(n, s), x) == Signed(s, Flip(n, x))
  {
  }

  // x after n changes of sign.
  function Flip(n: nat, x: int): int {
    if n % 2 == 0 then x else -x
  }

  lemma {:induction false} CountLessAppend(a: seq<int>, b: seq<int>, x: int)
    ensures CountLess(a + b, x) == CountLess(a, x) + CountLess(b, x)
  {
    if a == [] {
      assert a + b == b;
    } else {
      CountLessAppend(a[1..], b, x);
      assert (a + b)[1..] == a[1..] + b;
    }
  }

  // Exchanging neighbours that stand in descending order removes one inversion.
  lemma {:induction false} AdjacentInversions(a: seq<int>, x: int, y: int, b: seq<int>)
    requires x > y
    ensures Inversions(a + [x, y] + b) == Inversions(a + [y, x] + b) + 1
  {
    var s, t := a + [x, y] + b, a + [y, x] + b;
    if a == [] {
      assert s[1..] == [y] + b && s[1..][1..] == b;
      assert t[1..] == [x] + b && t[1..][1..] == b;
    } else {
      assert s[1..] == a[1..] + [x, y] + b && t[1..] == a[1..] + [y, x] + b;
      AdjacentInversions(a[1..], x, y, b);
      CountLessAppend(a[1..] + [x, y], b, a[0]);
      CountLessAppend(a[1..] + [y, x], b, a[0]);
      CountLessAppend(a[1..], [x, y], a[0]);
      CountLessAppend(a[1..], [y, x], a[0]);
      assert [x, y][1..] == [y] && [y, x][1..] == [x];
    }
  }

  function Swap<T>(v: seq<T>, i: nat, j: nat): (w: seq<T>)
    requires i < |v| && j < |v|
  {
    v[i := v[j]][j := v[i]]
  }

  lemma AdjacentSign(v: seq<int>, k: nat)
    requires k + 1 < |v| && v[k] != v[k + 1]
    ensures Sign(Swap(v, k, k + 1)) == -Sign(v)
    ensures v[k] > v[k + 1] ==> Inversions(v) == Inversions(Swap(v, k, k + 1)) + 1
  {
    var a, b := v[..k], v[k + 2..];
    assert v == a + [v[k], v[k + 1]] + b;
    assert Swap(v, k, k + 1) == a + [v[k + 1], v[k]] + b;
    if v[k] > v[k + 1] {
      AdjacentInversions(a, v[k], v[k + 1], b);
    } else {
      AdjacentInversions(a, v[k + 1], v[k], b);
    }
  }

  // Any transposition of two different entries flips the sign.
  lemma {:induction false} TranspositionSign(v: seq<int>, i: nat, j: nat)
    requires i < j < |v| && Distinct(v)
    ensures Sign(Swap(v, i, j)) == -Sign(v)
    decreases j - i
  {
    if j == i + 1 {
      AdjacentSign(v, i);
    } else {
      var w1 := Swap(v, i, i + 1);
      AdjacentSign(v, i);
      var w2 := Swap(w1, i + 1, j);
      TranspositionSign(w1, i + 1, j);
      AdjacentSign(w2, i);
      assert Swap(v, i, j) == Swap(w2, i, i + 1);
    }
  }

  // Entries sorted strictly have no inversions, and conversely.
  lemma {:induction false} NoLess(s: seq<int>, x: int)
    ensures CountLess(s, x) == 0 <==> forall i :: 0 <= i < |s| ==> s[i] >= x
  {
    if s != [] {
      NoLess(s[1..], x);
      if CountLess(s, x) == 0 {
        forall i | 0 <= i < |s| ensures s[i] >= x { if i > 0 { assert s[i] == s[1..][i - 1]; } }
      }
      if forall i :: 0 <= i < |s| ==> s[i] >= x {
        forall i | 0 <= i < |s[1..]| ensures s[1..][i] >= x { assert s[1..][i] == s[i + 1]; }
      }
    }
  }

  ghost predicate Sorted(v: seq<int>) {
    forall i, j :: 0 <= i < j < |v| ==> v[i] <= v[j]
  }

  lemma {:induction false} SortedInversions(v: seq<int>)
    ensures Inversions(v) == 0 <==> Sorted(v)
  {
    if v != [] {
      SortedInversions(v[1..]);
      NoLess(v[1..], v[0]);
      if Inversions(v) == 0 {
        forall i, j | 0 <= i < j < |v| ensures v[i] <= v[j] {
          assert v[j] == v[1..][j - 1];
          if i > 0 { assert v[i] == v[1..][i - 1]; }
        }
      }
      if Sorted(v) {
        forall i | 0 <= i < |v[1..]| ensures v[1..][i] >= v[0] { assert v[1..][i] == v[i + 1]; }
        forall i, j | 0 <= i < j < |v[1..]| ensures v[1..][i] <= v[1..][j] {
          assert v[1..][i] == v[i + 1] && v[1..][j] == v[j + 1];
        }
      }
    }
  }

  lemma {:induction false} FindDescent(v: seq<int>) returns (k: nat)
    requires Inversions(v) > 0
    ensures k + 1 < |v| && v[k] > v[k + 1]
  {
    if exists k :: 0 <= k < |v| - 1 && v[k] > v[k + 1] {
      k :| 0 <= k < |v| - 1 && v[k] > v[k + 1];
    } else {
      forall i, j | 0 <= i < j < |v| ensures v[i] <= v[j] { Chain(v, i, j); }
      SortedInversions(v);
      assert false;
    }
  }

  lemma {:induction false} Chain(v: seq<int>, i: nat, j: nat)
    requires i <= j < |v|
    requires forall k :: 0 <= k < |v| - 1 ==> v[k] <= v[k + 1]
    ensures v[i] <= v[j]
    decreases j
  {
    if i < j {
      Chain(v, i, j - 1);
      assert v[j - 1] <= v[j - 1 + 1];
    }
  }

  // -------------------------------------------------------------- Permutations

  // v arranges the numbers below |v|.
  ghost predicate IsPermutation(v: seq<nat>) {
    Distinct(v) && forall k :: 0 <= k < |v| ==> v[k] < |v|
  }

  function Identity(n: nat): (v: seq<nat>)
    ensures |v| == n && forall k :: 0 <= k < n ==> v[k] == k
  {
    seq(n, k => k)
  }

  // The arrangement that has p[q[k]] in slot k.
  function Compose<T>(p: seq<T>, q: seq<nat>): (r: seq<T>)
    requires forall k :: 0 <= k < |q| ==> q[k] < |p|
    ensures |r| == |q| && forall k {:trigger r[k]} :: 0 <= k < |q| ==> r[k] == p[q[k]]
  {
    seq(|q|, k requires 0 <= k < |q| => p[q[k]])
  }

  lemma SortedPermutationIsIdentity(v: seq<nat>)
    requires IsPermutation(v) && Sorted(v)
    ensures v == Identity(|v|)
  {
    forall i | 0 <= i < |v| ensures v[i] == i { SortedEntry(v, i); }
  }

  lemma {:induction false} SortedEntry(v: seq<nat>, i: nat)
    requires IsPermutation(v) && Sorted(v) && i < |v|
    ensures v[i] == i
  {
    AtLeast(v, i);
    AtMost(v, i);
  }

  lemma {:induction false} AtLeast(v: seq<nat>, i: nat)
    requires IsPermutation(v) && Sorted(v) && i < |v|
    ensures v[i] >= i
  {
    if i > 0 {
      AtLeast(v, i - 1);
      assert v[i - 1] != v[i];
    }
  }

  lemma {:induction false} AtMost(v: seq<nat>, i: nat)
    requires IsPermutation(v) && Sorted(v) && i < |v|
    ensures v[i] <= i
    decreases |v| - i
  {
    if i + 1 < |v| {
      AtMost(v, i + 1);
      assert v[i] != v[i + 1];
    }
  }

  // The sign of a composition is the product of the signs.
  lemma {:induction false} ComposeSign(p: seq<nat>, q: seq<nat>)
    requires IsPermutation(p) && IsPermutation(q) && |p| == |q|
    ensures IsPermutation(Compose(p, q)) && Sign(Compose(p, q)) == Sign(p) * Sign(q)
    decreases Inversions(q)
  {
    ComposePermutation(p, q);
    if Inversions(q) == 0 {
      SortedInversions(q);
      SortedPermutationIsIdentity(q);
      assert Compose(p, q) == p;
    } else {
      var k := FindDescent(q);
      var q' := Swap(q, k, k + 1);
      AdjacentSign(q, k);
      ComposeSign(p, q');
      AdjacentSign(Compose(p, q), k);
      assert Swap(Compose(p, q), k, k + 1) == Compose(p, q');
    }
  }

  lemma ComposePermutation(p: seq<nat>, q: seq<nat>)
    requires IsPermutation(p) && IsPermutation(q) && |p| == |q|
    ensures IsPermutation(Compose(p, q))
  {
  }

  // ------------------------------------------------------------- combin::ordersign

  // First position of x in s, or |s|.
  function IndexOf<T(==)>(s: seq<T>, x: T): (i: nat)
    ensures i <= |s| && (i < |s| ==> s[i] == x)
    ensures forall k :: 0 <= k < i ==> s[k] != x
    ensures x in s ==> i < |s|
  {
    if s == [] then 0 else if s[0] == x then 0 else
      var i := IndexOf(s[1..], x);
      assert forall k :: 1 <= k < i + 1 ==> s[k] == s[1..][k - 1];
      1 + i
  }

  function Remove<T>(s: seq<T>, i: nat): (r: seq<T>)
    requires i < |s|
    ensures |r| == |s| - 1
  {
    s[..i] + s[i + 1..]
  }

  // Cross the entries of a off b one at a time; every entry of b that is still
  // standing and is passed on the way costs a sign.
  function CrossSign<T(==)>(a: seq<T>, b: seq<T>): int {
    if a == [] then 1
    else
      var i := IndexOf(b, a[0]);
      Flip(i, CrossSign(a[1..], if i < |b| then Remove(b, i) else b))
  }

  lemma CrossSignStep<T>(a: seq<T>, n: nat, b: seq<T>)
    requires n < |a|
    ensures var i := IndexOf(b, a[n]);
            CrossSign(a[n..], b) == Flip(i, CrossSign(a[n + 1..], if i < |b| then Remove(b, i) else b))
  {
    assert a[n..][0] == a[n] && a[n..][1..] == a[n + 1..];
  }

  // Where the entries of b stand in a.
  function Ranks<T(==)>(a: seq<T>, b: seq<T>): (r: seq<nat>)
    ensures |r| == |b| && forall k :: 0 <= k < |b| ==> r[k] == IndexOf(a, b[k])
  {
    seq(|b|, k requires 0 <= k < |b| => IndexOf(a, b[k]))
  }

  function Shift(v: seq<int>): (w: seq<int>)
    ensures |w| == |v| && forall k :: 0 <= k < |v| ==> w[k] == v[k] + 1
  {
    seq(|v|, k requires 0 <= k < |v| => v[k] + 1)
  }

  lemma {:induction false} ShiftCountLess(v: seq<int>, x: int)
    ensures CountLess(Shift(v), x + 1) == CountLess(v, x)
  {
    if v != [] {
      ShiftCountLess(v[1..], x);
      assert Shift(v)[1..] == Shift(v[1..]);
    }
  }

  lemma {:induction false} ShiftInversions(v: seq<int>)
    ensures Inversions(Shift(v)) == Inversions(v)
  {
    if v != [] {
      ShiftInversions(v[1..]);
      ShiftCountLess(v[1..], v[0]);
      assert Shift(v)[1..] == Shift(v[1..]);
    }
  }

  // A smallest entry standing at position i accounts for i inversions.
  lemma {:induction false} InsertSmallest(u: seq<int>, x: int, w: seq<int>)
    requires forall k :: 0 <= k < |u| ==> u[k] > x
    requires forall k :: 0 <= k < |w| ==> w[k] > x
    ensures Inversions(u + [x] + w) == |u| + Inversions(u + w)
  {
    var s := u + [x] + w;
    if u == [] {
      assert s[1..] == w && u + w == w;
      NoLess(w, x);
    } else {
      assert s[1..] == u[1..] + [x] + w && (u + w)[1..] == u[1..] + w;
      forall k | 0 <= k < |u[1..]| ensures u[1..][k] > x { assert u[1..][k] == u[k + 1]; }
      InsertSmallest(u[1..], x, w);
      CountLessAppend(u[1..] + [x], w, u[0]);
      CountLessAppend(u[1..], [x], u[0]);
      CountLessAppend(u[1..], w, u[0]);
      assert [x][1..] == [];
    }
  }

  // On two orderings of the same different entries, the crossing-off sign is
  // the sign of the permutation that takes one ordering to the other.
  lemma {:induction false} CrossSignIsSign<T>(a: seq<T>, b: seq<T>)
    requires Distinct(a) && Distinct(b) && |a| == |b|
    requires forall x :: x in b ==> x in a
    requires forall x :: x in a ==> x in b
    ensures IsPermutation(Ranks(a, b)) && CrossSign(a, b) == Sign(Ranks(a, b))
  {
    RanksPermutation(a, b);
    if a == [] {
      assert Ranks(a, b) == [];
    } else {
      assert a[0] in b;
      var i := IndexOf(b, a[0]);
      RemoveMembers(a, b, i);
      CrossSignIsSign(a[1..], Remove(b, i));
      SignStep(a, b, i);
    }
  }

  lemma SignStep<T>(a: seq<T>, b: seq<T>, i: nat)
    requires Distinct(b) && i < |b| && a != [] && a[0] == b[i]
    ensures Sign(Ranks(a, b)) == Flip(i, Sign(Ranks(a[1..], Remove(b, i))))
  {
    RanksStep(a, b, i);
    var r, r' := Ranks(a, b), Ranks(a[1..], Remove(b, i));
    InsertSmallest(r[..i], 0, r[i + 1..]);
    ShiftInversions(r');
    ParityStep(i, Inversions(r'));
    assert Inversions(r) == i + Inversions(r');
  }

  lemma ParityStep(m: nat, n: nat)
    ensures Parity(m + n) == Flip(m, Parity(n))
  {
  }

  predicate Positive(v: seq<int>) {
    forall k :: 0 <= k < |v| ==> v[k] > 0
  }

  lemma RanksStep<T>(a: seq<T>, b: seq<T>, i: nat)
    requires Distinct(b) && i < |b| && a != [] && a[0] == b[i]
    ensures var r := Ranks(a, b);
            && r == r[..i] + [0] + r[i + 1..]
            && r[..i] + r[i + 1..] == Shift(Ranks(a[1..], Remove(b, i)))
            && Positive(r[..i]) && Positive(r[i + 1..])
  {
    hide IndexOf, Ranks, Distinct;
    var r, b' := Ranks(a, b), Remove(b, i);
    RanksFromHead(a, b, i);
    assert r == r[..i] + [0] + r[i + 1..];
    var l := Shift(Ranks(a[1..], b'));
    forall k | 0 <= k < |b'| ensures (r[..i] + r[i + 1..])[k] == l[k] {
      assert (r[..i] + r[i + 1..])[k] == r[if k < i then k else k + 1];
      RankOf(a[1..], b', k);
    }
  }

  lemma RankOf<T>(a: seq<T>, b: seq<T>, k: nat)
    requires k < |b|
    ensures Ranks(a, b)[k] == IndexOf(a, b[k])
  {
  }

  lemma RanksFromHead<T>(a: seq<T>, b: seq<T>, i: nat)
    requires Distinct(b) && i < |b| && a != [] && a[0] == b[i]
    ensures Ranks(a, b)[i] == 0
    ensures forall k :: 0 <= k < |b| && k != i ==> Ranks(a, b)[k] == 1 + IndexOf(a[1..], b[k])
  {
  }

  lemma RanksPermutation<T>(a: seq<T>, b: seq<T>)
    requires Distinct(a) && Distinct(b) && |a| == |b|
    requires forall x :: x in b ==> x in a
    ensures IsPermutation(Ranks(a, b))
  {
    var r := Ranks(a, b);
    forall k | 0 <= k < |r| ensures r[k] < |r| && a[r[k]] == b[k] { assert b[k] in a; }
  }

  lemma RemoveMembers<T>(a: seq<T>, b: seq<T>, i: nat)
    requires Distinct(a) && Distinct(b) && |a| == |b| > i && a[0] == b[i]
    requires forall x :: x in b ==> x in a
    requires forall x :: x in a ==> x in b
    ensures Distinct(a[1..]) && Distinct(Remove(b, i))
    ensures forall x :: x in Remove(b, i) ==> x in a[1..]
    ensures forall x :: x in a[1..] ==> x in Remove(b, i)
  {
    var b' := Remove(b, i);
    forall x | x in b' ensures x in a[1..] {
      var k :| 0 <= k < |b'| && b'[k] == x;
      assert x in b && x != b[i];
    }
    forall x | x in a[1..] ensures x in b' {
      assert x in b;
      var k :| 0 <= k < |b| && b[k] == x;
      assert k != i;
      assert b'[if k < i then k else k - 1] == x;
    }
  }

  // Signs compose: going from a to c by way of b multiplies the signs.
  lemma CrossSignMultiplicative<T>(a: seq<T>, b: seq<T>, c: seq<T>)
    requires Distinct(a) && Distinct(b) && Distinct(c) && |a| == |b| == |c|
    requires forall x :: x in a <==> x in b
    requires forall x :: x in b <==> x in c
    ensures CrossSign(a, c) == CrossSign(a, b) * CrossSign(b, c)
  {
    hide CrossSign, Sign, IndexOf, Ranks;
    CrossSignIsSign(a, b);
    CrossSignIsSign(b, c);
    CrossSignIsSign(a, c);
    RanksCompose(a, b, c);
    ComposeSign(Ranks(a, b), Ranks(b, c));
  }

  lemma RanksCompose<T>(a: seq<T>, b: seq<T>, c: seq<T>)
    requires |b| == |c| && forall x :: x in c ==> x in b
    ensures Compose(Ranks(a, b), Ranks(b, c)) == Ranks(a, c)
  {
    var r := Compose(Ranks(a, b), Ranks(b, c));
    forall k | 0 <= k < |c| ensures r[k] == Ranks(a, c)[k] { assert c[k] in b; }
  }

  // Exchanging two entries of the second ordering changes the sign.
  lemma CrossSignTransposition<T>(a: seq<T>, b: seq<T>, i: nat, j: nat)
    requires Distinct(a) && Distinct(b) && |a| == |b| && i < j < |b|
    requires forall x :: x in a <==> x in b
    ensures CrossSign(a, Swap(b, i, j)) == -CrossSign(a, b)
  {
    hide CrossSign, Sign, IndexOf, Ranks;
    var c := Swap(b, i, j);
    SwapMembers(b, i, j);
    CrossSignIsSign(a, b);
    CrossSignIsSign(a, c);
    RanksSwap(a, b, i, j);
    TranspositionSign(Ranks(a, b), i, j);
  }

  lemma RanksSwap<T>(a: seq<T>, b: seq<T>, i: nat, j: nat)
    requires i < j < |b|
    ensures Ranks(a, Swap(b, i, j)) == Swap(Ranks(a, b), i, j)
  {
  }

  lemma SwapMembers<T>(b: seq<T>, i: nat, j: nat)
    requires i < j < |b|
    ensures forall x :: x in b <==> x in Swap(b, i, j)
    ensures Distinct(b) ==> Distinct(Swap(b, i, j))
  {
    var c := Swap(b, i, j);
    forall x | x in b ensures x in c {
      var k :| 0 <= k < |b| && b[k] == x;
      assert c[if k == i then j else if k == j then i else k] == x;
    }
    forall x | x in c ensures x in b {
      var k :| 0 <= k < |c| && c[k] == x;
      assert b[if k == i then j else if k == j then i else k] == x;
    }
  }

  // The loops of combin::ordersign, with one flag per crossed-off entry of b.
  method OrderSign<T(==)>(a: seq<T>, b: seq<T>) returns (sign: int)
    requires |b| <= |a|
    ensures sign == CrossSign(a, b)
  {
    sign := 1;
    var crossedOff := new bool[|a|](_ => false);
    var n := 0;
    Standing0(b, crossedOff[..|b|]);
    while n < |a|
      invariant 0 <= n <= |a|
      invariant sign == 1 || sign == -1
      invariant CrossSign(a, b) == Signed(sign, CrossSign(a[n..], Standing(b, crossedOff[..|b|])))
    {
      ghost var left := Standing(b, crossedOff[..|b|]);
      CrossSignStep(a, n, left);
      ghost var i := IndexOf(left, a[n]);
      SignedFlip(sign, i, CrossSign(a[n + 1..], if i < |left| then Remove(left, i) else left));
      sign := CrossOff(a[n], b, crossedOff, sign);
      n := n + 1;
    }
    assert a[n..] == [];
  }

  // The inner loop: find x among the standing entries, flipping the sign for
  // every standing entry passed, and cross it off.
  method CrossOff<T(==)>(x: T, b: seq<T>, crossedOff: array<bool>, before: int) returns (sign: int)
    requires |b| <= crossedOff.Length
    modifies crossedOff
    ensures var left := old(Standing(b, crossedOff[..|b|]));
            var i := IndexOf(left, x);
            && sign == Flip(i, before)
            && Standing(b, crossedOff[..|b|]) == if i < |left| then Remove(left, i) else left
  {
    sign := before;
    var otherPos := 0;
    ghost var flags := crossedOff[..|b|];
    while otherPos < |b| && !(b[otherPos] == x && !crossedOff[otherPos])
      invariant 0 <= otherPos <= |b|
      invariant crossedOff[..|b|] == flags
      invariant sign == Flip(|Standing(b[..otherPos], flags[..otherPos])|, before)
      invariant x !in Standing(b[..otherPos], flags[..otherPos])
    {
      StandingStep(b, flags, otherPos);
      assert crossedOff[otherPos] == flags[otherPos];
      if !crossedOff[otherPos] {
        sign := -sign;
      }
      otherPos := otherPos + 1;
    }
    if otherPos < |b| {
      assert !flags[otherPos];
      StandingCross(b, flags, otherPos);
      crossedOff[otherPos] := true;
      assert crossedOff[..|b|] == flags[otherPos := true];
    } else {
      assert b[..otherPos] == b && flags[..otherPos] == flags;
    }
  }

  // The entries that are not crossed off.
  ghost function Standing<T>(b: seq<T>, flags: seq<bool>): seq<T>
    requires |b| == |flags|
  {
    if b == [] then [] else Standing(b[..|b| - 1], flags[..|b| - 1]) + (if flags[|b| - 1] then [] else [b[|b| - 1]])
  }

  lemma {:induction false} Standing0<T>(b: seq<T>, flags: seq<bool>)
    requires |b| == |flags| && forall k :: 0 <= k < |b| ==> !flags[k]
    ensures Standing(b, flags) == b
  {
    if b != [] {
      Standing0(b[..|b| - 1], flags[..|b| - 1]);
      assert b == b[..|b| - 1] + [b[|b| - 1]];
    }
  }

  lemma {:induction false} StandingAppend<T>(b: seq<T>, f: seq<bool>, c: seq<T>, g: seq<bool>)
    requires |b| == |f| && |c| == |g|
    ensures Standing(b + c, f + g) == Standing(b, f) + Standing(c, g)
  {
    hide Standing;
    if c == [] {
      assert b + c == b && f + g == f;
      StandingNone(c, g);
    } else {
      var n := |c| - 1;
      StandingAppend(b, f, c[..n], g[..n]);
      assert c == c[..n] + [c[n]] && g == g[..n] + [g[n]];
      assert b + c == (b + c[..n]) + [c[n]] && f + g == (f + g[..n]) + [g[n]];
      StandingOneMore(b + c[..n], f + g[..n], c[n], g[n]);
      StandingOneMore(c[..n], g[..n], c[n], g[n]);
    }
  }

  lemma StandingNone<T>(b: seq<T>, f: seq<bool>)
    requires b == [] && f == []
    ensures Standing(b, f) == []
  {
  }

  lemma StandingOneMore<T>(b: seq<T>, f: seq<bool>, x: T, flag: bool)
    requires |b| == |f|
    ensures Standing(b + [x], f + [flag]) == Standing(b, f) + if flag then [] else [x]
  {
    assert (b + [x])[..|b|] == b && (f + [flag])[..|b|] == f;
  }

  lemma StandingStep<T>(b: seq<T>, flags: seq<bool>, k: nat)
    requires |b| == |flags| && k < |b|
    ensures Standing(b[..k + 1], flags[..k + 1])
         == Standing(b[..k], flags[..k]) + (if flags[k] then [] else [b[k]])
  {
    assert b[..k + 1][..k] == b[..k] && flags[..k + 1][..k] == flags[..k];
  }

  lemma StandingSplit<T>(b: seq<T>, flags: seq<bool>, k: nat)
    requires |b| == |flags| && k < |b|
    ensures Standing(b, flags)
         == Standing(b[..k], flags[..k]) + (if flags[k] then [] else [b[k]]) + Standing(b[k + 1..], flags[k + 1..])
  {
    assert b == b[..k + 1] + b[k + 1..] && flags == flags[..k + 1] + flags[k + 1..];
    StandingAppend(b[..k + 1], flags[..k + 1], b[k + 1..], flags[k + 1..]);
    StandingStep(b, flags, k);
  }

  lemma StandingCross<T>(b: seq<T>, flags: seq<bool>, k: nat)
    requires |b| == |flags| && k < |b| && !flags[k]
    requires b[k] !in Standing(b[..k], flags[..k])
    ensures var s := Standing(b, flags);
            var i := |Standing(b[..k], flags[..k])|;
            i < |s| && IndexOf(s, b[k]) == i && Standing(b, flags[k := true]) == Remove(s, i)
  {
    StandingSplit(b, flags, k);
    var f := flags[k := true];
    StandingSplit(b, f, k);
    assert f[..k] == flags[..k] && f[k + 1..] == flags[k + 1..];
    var p, q := Standing(b[..k], flags[..k]), Standing(b[k + 1..], flags[k + 1..]);
    assert Standing(b, flags) == p + [b[k]] + q;
    FirstIndex(p, b[k], q);
  }

  lemma FirstIndex<T>(p: seq<T>, x: T, q: seq<T>)
    requires x !in p
    ensures IndexOf(p + [x] + q, x) == |p|
    ensures Remove(p + [x] + q, |p|) == p + q
  {
    var s := p + [x] + q;
    assert s[|p|] == x;
    assert x in s;
    var i := IndexOf(s, x);
    assert forall k :: 0 <= k < |p| ==> s[k] == p[k];
  }

  // ------------------------------------------------------------------ std::sort

  function InsertSorted(x: int, s: seq<int>): (r: seq<int>)
    requires Sorted(s)
    ensures Sorted(r) && multiset(r) == multiset(s) + multiset{x}
  {
    if s == [] || x <= s[0] then [x] + s
    else
      var t := InsertSorted(x, s[1..]);
      InsertFront(s[0], t, x, s[1..]);
      assert s == [s[0]] + s[1..];
      [s[0]] + t
  }

  lemma InsertFront(y: int, t: seq<int>, x: int, u: seq<int>)
    requires Sorted(t) && multiset(t) == multiset(u) + multiset{x}
    requires y <= x && forall k :: 0 <= k < |u| ==> y <= u[k]
    ensures Sorted([y] + t)
  {
    forall k | 0 <= k < |t| ensures y <= t[k] {
      assert t[k] in multiset(t);
      assert t[k] in u || t[k] == x;
    }
  }

  lemma HeadMultiset<T>(s: seq<T>)
    requires s != []
    ensures multiset(s) == multiset(s[1..]) + multiset{s[0]}
  {
    assert s == [s[0]] + s[1..];
  }

  function SortAscending(s: seq<int>): (r: seq<int>)
    ensures Sorted(r) && multiset(r) == multiset(s) && |r| == |s|
  {
    if s == [] then []
    else
      var r := InsertSorted(s[0], SortAscending(s[1..]));
      HeadMultiset(s);
      SameSize(r, s);
      r
  }

  lemma SameSize<T>(r: seq<T>, s: seq<T>)
    requires multiset(r) == multiset(s)
    ensures |r| == |s|
  {
    assert |multiset(r)| == |r| && |multiset(s)| == |s|;
  }
}
