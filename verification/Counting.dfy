// How many vectors the generator hands out: total_permutations.

module Counting {
  import opened Signs
  import opened Generator

  // combin::factorial and fact.
  function Factorial(n: nat): (f: nat)
    ensures f > 0
  {
    if n == 0 then 1 else n * Factorial(n - 1)
  }

  // vector_prod_fact over the groups from g on.
  function ProductOfFactorials(sub: seq<nat>, g: nat): (f: nat)
    requires g <= |sub|
    ensures f > 0
    decreases |sub| - g
  {
    if g == |sub| then 1 else Factorial(sub[g]) * ProductOfFactorials(sub, g + 1)
  }

  function Choose(n: nat, k: nat): nat {
    if k == 0 then 1 else if n == 0 then 0 else Choose(n - 1, k - 1) + Choose(n - 1, k)
  }

  lemma {:induction false} ChooseTooMany(n: nat, k: nat)
    requires k > n
    ensures Choose(n, k) == 0
  {
    if n > 0 {
      ChooseTooMany(n - 1, k - 1);
      ChooseTooMany(n - 1, k);
    }
  }

  lemma {:induction false} ChooseAll(n: nat)
    ensures Choose(n, n) == 1
  {
    if n > 0 {
      ChooseTooMany(n - 1, n);
      ChooseAll(n - 1);
    }
  }

  lemma {:induction false} ChooseFactorials(n: nat, k: nat)
    requires k <= n
    ensures Choose(n, k) * Factorial(k) * Factorial(n - k) == Factorial(n)
  {
    if k == 0 {
    } else if k == n {
      ChooseAll(n);
    } else {
      ChooseFactorials(n - 1, k - 1);
      ChooseFactorials(n - 1, k);
      Pascal(Choose(n - 1, k - 1), Choose(n - 1, k), k, n - k, Factorial(k - 1), Factorial(n - k - 1),
        Factorial(n - 1));
    }
  }

  lemma Pascal(a: nat, b: nat, k: nat, l: nat, fk: nat, fl: nat, f: nat)
    requires a * fk * (l * fl) == f && b * (k * fk) * fl == f
    ensures (a + b) * (k * fk) * (l * fl) == (k + l) * f
  {
    calc {
      (a + b) * (k * fk) * (l * fl);
      a * (k * fk) * (l * fl) + b * (k * fk) * (l * fl);
      { assert a * (k * fk) * (l * fl) == k * (a * fk * (l * fl)); }
      k * f + b * (k * fk) * (l * fl);
      { assert b * (k * fk) * (l * fl) == l * (b * (k * fk) * fl); }
      k * f + l * f;
    }
  }

  // Ways to fill the groups from g on out of m elements.
  function Ways(sub: seq<nat>, g: nat, m: nat): nat
    requires g <= |sub|
    decreases |sub| - g
  {
    if g == |sub| then 1
    else if m < sub[g] then 0
    else Choose(m, sub[g]) * Ways(sub, g + 1, m - sub[g])
  }

  // Elements from i on that have not been had.
  function Available(had: set<nat>, n: nat, i: nat): nat
    decreases n - i
  {
    if i >= n then 0 else (if i in had then 0 else 1) + Available(had, n, i + 1)
  }

  lemma {:induction false} AvailableAgree(had: set<nat>, hid: set<nat>, n: nat, i: nat)
    requires forall x :: i <= x < n ==> (x in had <==> x in hid)
    ensures Available(had, n, i) == Available(hid, n, i)
    decreases n - i
  {
    if i < n { AvailableAgree(had, hid, n, i + 1); }
  }

  lemma {:induction false} AvailableTotal(had: set<nat>, n: nat, i: nat)
    requires i <= n
    requires forall x :: x in had ==> i <= x < n
    ensures Available(had, n, i) == n - i - |had|
    decreases n - i
  {
    if i == n {
      assert had == {};
    } else {
      var rest := had - {i};
      AvailableTotal(rest, n, i + 1);
      AvailableAgree(had, rest, n, i + 1);
      assert i in had ==> |rest| == |had| - 1;
      assert i !in had ==> rest == had;
    }
  }

  // The state of nextstep in the middle of group g.
  ghost predicate InGroup(P: Problem, v: seq<nat>, g: nat) {
    && g < |P.sublengths|
    && GroupEnd(P.sublengths, g) <= |v| < GroupEnd(P.sublengths, g + 1)
  }

  ghost function Floor(P: Problem, v: seq<nat>, i: nat): nat {
    if i > Lowest(P, v) then i else Lowest(P, v)
  }

  // What a filled group g leads on to.
  function After(P: Problem, g: nat): nat
    requires g < |P.sublengths|
  {
    var used := GroupEnd(P.sublengths, g + 1);
    if used <= P.n then Ways(P.sublengths, g + 1, P.n - used) else 0
  }

  ghost predicate Had(P: Problem, v: seq<nat>, had: set<nat>) {
    had == Elems(v) && |had| == |v|
  }

  lemma HadMore(P: Problem, v: seq<nat>, had: set<nat>, i: nat)
    requires Had(P, v, had) && i !in had
    ensures Had(P, v + [i], had + {i}) && had - {i} == had
  {
    assert forall x :: x in v + [i] <==> x in v || x == i;
  }

  lemma {:induction false} SearchCount(P: Problem, v: seq<nat>, had: set<nat>, g: nat)
    requires Plain(P) && InRange(P.n, v) && |v| <= P.Length() && Had(P, v, had)
    requires g < |P.sublengths| && |v| == GroupEnd(P.sublengths, g + 1)
    ensures |Search(P, v, had)| == After(P, g)
    decreases P.Length() - |v|, P.n + 2
  {
    if g + 1 < |P.sublengths| {
      GroupEndMonotone(P.sublengths, g + 2, |P.sublengths|);
      BoundaryIn(P.sublengths, g + 1, |v|);
      SearchFromCount(P, v, had, g + 1, 0);
      AvailableTotal(had, P.n, 0);
    }
  }

  lemma {:induction false} SearchInnerCount(P: Problem, v: seq<nat>, had: set<nat>, g: nat)
    requires Plain(P) && InRange(P.n, v) && |v| < P.Length() && Had(P, v, had) && InGroup(P, v, g)
    requires v != [] && |v| > GroupEnd(P.sublengths, g)
    ensures |Search(P, v, had)|
         == Choose(Available(had, P.n, v[|v| - 1] + 1), GroupEnd(P.sublengths, g + 1) - |v|) * After(P, g)
    decreases P.Length() - |v|, P.n + 2
  {
    SearchFromCount(P, v, had, g, 0);
    BoundaryIn(P.sublengths, g, |v|);
    assert v[|v| - 1] in had;
  }

  // How many vectors finish v with a next pick that is at least i.
  ghost function Completions(P: Problem, v: seq<nat>, had: set<nat>, g: nat, i: nat): nat
    requires InGroup(P, v, g)
  {
    Choose(Available(had, P.n, Floor(P, v, i)), GroupEnd(P.sublengths, g + 1) - |v|) * After(P, g)
  }

  ghost function CompletionsPicking(P: Problem, v: seq<nat>, had: set<nat>, g: nat, i: nat): nat
    requires InGroup(P, v, g)
  {
    Choose(Available(had, P.n, i + 1), GroupEnd(P.sublengths, g + 1) - |v| - 1) * After(P, g)
  }

  lemma CompletionsStep(P: Problem, v: seq<nat>, had: set<nat>, g: nat, i: nat)
    requires InGroup(P, v, g) && i < P.n
    ensures Completions(P, v, had, g, i) == Completions(P, v, had, g, i + 1) +
      (if i !in had && i >= Lowest(P, v) then CompletionsPicking(P, v, had, g, i) else 0)
  {
    if i !in had && i >= Lowest(P, v) {
      ChooseStep(Available(had, P.n, i + 1), GroupEnd(P.sublengths, g + 1) - |v|, After(P, g));
    }
  }

  lemma {:induction false} SearchFromCount(P: Problem, v: seq<nat>, had: set<nat>, g: nat, i: nat)
    requires Plain(P) && InRange(P.n, v) && |v| < P.Length() && Had(P, v, had) && InGroup(P, v, g) && i <= P.n
    ensures |SearchFrom(P, v, had, i)| == Completions(P, v, had, g, i)
    decreases P.Length() - |v|, P.n - i
  {
    if i == P.n {
      NoneLeft(P, v, had, g);
    } else {
      if i !in had && i >= Lowest(P, v) { PickCount(P, v, had, g, i); }
      SearchFromCount(P, v, had, g, i + 1);
      SearchFromStep(P, v, had, g, i);
    }
  }

  lemma SearchFromStep(P: Problem, v: seq<nat>, had: set<nat>, g: nat, i: nat)
    requires Plain(P) && InRange(P.n, v) && |v| < P.Length() && Had(P, v, had) && InGroup(P, v, g) && i < P.n
    requires |SearchFrom(P, v, had, i + 1)| == Completions(P, v, had, g, i + 1)
    requires i !in had && i >= Lowest(P, v) ==> |Search(P, v + [i], had + {i})| == CompletionsPicking(P, v, had, g, i)
    ensures |SearchFrom(P, v, had, i)| == Completions(P, v, had, g, i)
  {
    PickAdmissible(P, v, had, i);
    CompletionsStep(P, v, had, g, i);
  }

  lemma NoneLeft(P: Problem, v: seq<nat>, had: set<nat>, g: nat)
    requires InGroup(P, v, g)
    ensures Completions(P, v, had, g, P.n) == 0
  {
  }

  lemma ChooseStep(a: nat, k: nat, r: nat)
    requires k > 0
    ensures Choose(a + 1, k) * r == Choose(a, k - 1) * r + Choose(a, k) * r
  {
    var x, y := Choose(a, k - 1), Choose(a, k);
    assert (x + y) * r == x * r + y * r;
  }

  lemma PickAdmissible(P: Problem, v: seq<nat>, had: set<nat>, i: nat)
    requires Plain(P) && InRange(P.n, v) && |v| < P.Length() && Had(P, v, had) && i < P.n
    ensures Admissible(P, v, had, i) <==> i !in had && i >= Lowest(P, v)
    ensures Admissible(P, v, had, i) ==>
      SearchFrom(P, v, had, i) == Search(P, v + [i], had + {i}) + SearchFrom(P, v, had, i + 1)
    ensures !Admissible(P, v, had, i) ==> SearchFrom(P, v, had, i) == SearchFrom(P, v, had, i + 1)
  {
    assert i !in had ==> had - {i} == had;
  }

  lemma {:induction false} PickCount(P: Problem, v: seq<nat>, had: set<nat>, g: nat, i: nat)
    requires Plain(P) && InRange(P.n, v) && |v| < P.Length() && Had(P, v, had) && InGroup(P, v, g) && i < P.n
    requires i !in had
    ensures |Search(P, v + [i], had + {i})| == CompletionsPicking(P, v, had, g, i)
    decreases P.Length() - |v|, 0
  {
    var w := v + [i];
    HadMore(P, v, had, i);
    GroupEndMonotone(P.sublengths, g + 1, |P.sublengths|);
    if |w| == GroupEnd(P.sublengths, g + 1) {
      SearchCount(P, w, had + {i}, g);
    } else {
      SearchInnerCount(P, w, had + {i}, g);
      AvailableAgree(had, had + {i}, P.n, i + 1);
    }
  }

  lemma {:induction false} WaysFactorials(sub: seq<nat>, g: nat, m: nat, left: nat)
    requires g <= |sub|
    requires m == left + (GroupEnd(sub, |sub|) - GroupEnd(sub, g))
    ensures Ways(sub, g, m) * Factorial(left) * ProductOfFactorials(sub, g) == Factorial(m)
    decreases |sub| - g
  {
    if g < |sub| {
      GroupEndMonotone(sub, g + 1, |sub|);
      var k := sub[g];
      WaysFactorials(sub, g + 1, m - k, left);
      ChooseFactorials(m, k);
      var c, w, fl, pf := Choose(m, k), Ways(sub, g + 1, m - k), Factorial(left), ProductOfFactorials(sub, g + 1);
      calc {
        Ways(sub, g, m) * fl * ProductOfFactorials(sub, g);
        (c * w) * fl * (Factorial(k) * pf);
        { Rearrange(c, w, fl, Factorial(k), pf); }
        c * Factorial(k) * (w * fl * pf);
        c * Factorial(k) * Factorial(m - k);
      }
    }
  }

  lemma Rearrange(c: nat, w: nat, fl: nat, fk: nat, pf: nat)
    ensures (c * w) * fl * (fk * pf) == c * fk * (w * fl * pf)
  {
    calc {
      (c * w) * fl * (fk * pf);
      c * (w * (fl * (fk * pf)));
      { assert w * (fl * (fk * pf)) == fk * (w * fl * pf); }
      c * (fk * (w * fl * pf));
    }
  }

  // total_permutations is n! / ((n - len)! * prod L_j!).
  lemma TotalPermutations(P: Problem)
    requires Plain(P)
    ensures |Generated(P)| * Factorial(P.n - P.Length()) * ProductOfFactorials(P.sublengths, 0) == Factorial(P.n)
  {
    GroupEndMonotone(P.sublengths, 1, |P.sublengths|);
    BoundaryIn(P.sublengths, 0, 0);
    SearchFromCount(P, [], {}, 0, 0);
    AvailableTotal({}, P.n, 0);
    WaysFactorials(P.sublengths, 0, P.n, P.n - P.Length());
  }
}
