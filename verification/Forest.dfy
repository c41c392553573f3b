// What the pointers of a tree stand for: every node has a list of children, and
// all nodes hang below one top.

module Forests {
  import opened Signs

  // top stands for "no node". Its list holds the nodes at the top level. rank
  // falls from a node to its children, so no node is below itself.
  datatype Forest<!N(==)> = Forest(top: N, kids: map<N, seq<N>>, up: map<N, N>, rank: map<N, int>)

  ghost predicate Owns<N>(F: Forest<N>, p: N) {
    p in F.kids && Distinct(F.kids[p]) && forall i :: 0 <= i < |F.kids[p]| ==>
      F.kids[p][i] in F.up && F.up[F.kids[p][i]] == p
  }

  ghost predicate Placed<N>(F: Forest<N>, n: N) {
    n in F.up && F.up[n] in F.kids && n in F.kids[F.up[n]]
  }

  ghost predicate Lower<N>(F: Forest<N>, n: N, p: N) {
    n in F.rank && p in F.rank && F.rank[n] < F.rank[p]
  }

  ghost predicate WellFormed<N>(F: Forest<N>) {
    && F.top !in F.up && F.top in F.kids && F.top in F.rank
    && (forall n :: n in F.kids ==> n == F.top || n in F.up)
    && (forall n :: n in F.up ==> n in F.kids && n in F.rank)
    && (forall p :: p in F.kids ==> Owns(F, p))
    && (forall n :: n in F.up ==> Placed(F, n))
    && (forall n :: n in F.up ==> Lower(F, n, F.up[n]) && Lower(F, n, F.top))
  }

  // ---------------------------------------------------------------- Neighbours

  function NextIn<N(==)>(top: N, s: seq<N>, n: N): N {
    var i := IndexOf(s, n);
    if i + 1 < |s| then s[i + 1] else top
  }

  function PrevIn<N(==)>(top: N, s: seq<N>, n: N): N {
    var i := IndexOf(s, n);
    if 0 < i < |s| then s[i - 1] else top
  }

  function HeadOf<N>(top: N, s: seq<N>): N {
    if s == [] then top else s[0]
  }

  function LastOf<N>(top: N, s: seq<N>): N {
    if s == [] then top else s[|s| - 1]
  }

  function After<N(==)>(F: Forest<N>, n: N): N
    requires n in F.up && F.up[n] in F.kids
  {
    NextIn(F.top, F.kids[F.up[n]], n)
  }

  function Before<N(==)>(F: Forest<N>, n: N): N
    requires n in F.up && F.up[n] in F.kids
  {
    PrevIn(F.top, F.kids[F.up[n]], n)
  }

  // The five pointers of a node.
  datatype Pointers<N> = Pointers(parent: N, prev: N, next: N, first: N, last: N)

  ghost function PointersOf<N>(F: Forest<N>, n: N): Pointers<N>
    requires n in F.up && n in F.kids && F.up[n] in F.kids
  {
    Pointers(F.up[n], Before(F, n), After(F, n), HeadOf(F.top, F.kids[n]), LastOf(F.top, F.kids[n]))
  }

  lemma IndexIs<N>(s: seq<N>, i: nat)
    requires Distinct(s) && i < |s|
    ensures IndexOf(s, s[i]) == i
  {
    var k := IndexOf(s, s[i]);
    assert s[i] in s;
  }

  lemma NeighboursAt<N>(top: N, s: seq<N>, i: nat)
    requires Distinct(s) && i < |s|
    ensures NextIn(top, s, s[i]) == if i + 1 < |s| then s[i + 1] else top
    ensures PrevIn(top, s, s[i]) == if i > 0 then s[i - 1] else top
  {
    IndexIs(s, i);
  }

  // The neighbours of a node of the first of two lists put together.
  lemma NeighboursInFirst<N>(top: N, a: seq<N>, b: seq<N>, n: N)
    requires Distinct(a + b) && n in a
    ensures NextIn(top, a + b, n) == if n == a[|a| - 1] then HeadOf(top, b) else NextIn(top, a, n)
    ensures PrevIn(top, a + b, n) == PrevIn(top, a, n)
  {
    var i := IndexOf(a, n);
    DistinctParts(a, b);
    NeighboursAt(top, a, i);
    NeighboursAt(top, a + b, i);
    if n == a[|a| - 1] { IndexIs(a, |a| - 1); }
  }

  lemma NeighboursInSecond<N>(top: N, a: seq<N>, b: seq<N>, n: N)
    requires Distinct(a + b) && n in b
    ensures NextIn(top, a + b, n) == NextIn(top, b, n)
    ensures PrevIn(top, a + b, n) == if n == b[0] then LastOf(top, a) else PrevIn(top, b, n)
  {
    var i := IndexOf(b, n);
    DistinctParts(a, b);
    NeighboursAt(top, b, i);
    NeighboursAt(top, a + b, |a| + i);
    if n == b[0] { IndexIs(b, 0); }
  }

  lemma DistinctParts<N>(a: seq<N>, b: seq<N>)
    requires Distinct(a + b)
    ensures Distinct(a) && Distinct(b) && forall x :: x in a ==> x !in b
  {
    forall i, j | 0 <= i < j < |a| ensures a[i] != a[j] { assert (a + b)[i] != (a + b)[j]; }
    forall i, j | 0 <= i < j < |b| ensures b[i] != b[j] { assert (a + b)[|a| + i] != (a + b)[|a| + j]; }
    forall x | x in a ensures x !in b {
      var i :| 0 <= i < |a| && a[i] == x;
      forall j | 0 <= j < |b| ensures b[j] != x { assert (a + b)[i] != (a + b)[|a| + j]; }
    }
  }

  lemma DistinctTogether<N>(a: seq<N>, b: seq<N>)
    requires Distinct(a) && Distinct(b) && forall x :: x in a ==> x !in b
    ensures Distinct(a + b)
  {
    forall i, j | 0 <= i < j < |a + b| ensures (a + b)[i] != (a + b)[j] {
      assert i < |a| ==> (a + b)[i] in a;
    }
  }

  // -------------------------------------------------------------------- Splices

  // The list of a node's siblings up to it, and after it.
  function UpTo<N(==)>(F: Forest<N>, x: N): seq<N>
    requires x in F.up && F.up[x] in F.kids
  {
    var s := F.kids[F.up[x]];
    var i := IndexOf(s, x);
    if i < |s| then s[..i] else s
  }

  function Beyond<N(==)>(F: Forest<N>, x: N): seq<N>
    requires x in F.up && F.up[x] in F.kids
  {
    var s := F.kids[F.up[x]];
    var i := IndexOf(s, x);
    if i < |s| then s[i + 1..] else []
  }

  lemma Around<N>(F: Forest<N>, x: N)
    requires WellFormed(F) && x in F.up
    ensures F.kids[F.up[x]] == UpTo(F, x) + [x] + Beyond(F, x) && Distinct(F.kids[F.up[x]])
    ensures After(F, x) == HeadOf(F.top, Beyond(F, x)) && Before(F, x) == LastOf(F.top, UpTo(F, x))
  {
    assert Placed(F, x) && Owns(F, F.up[x]);
    var s := F.kids[F.up[x]];
    NeighboursAt(F.top, s, IndexOf(s, x));
  }

  // ------------------------------------------------------------------- flatten

  // The children of x become its next siblings.
  function Flattened<N(==)>(F: Forest<N>, x: N): Forest<N>
    requires x in F.up && F.up[x] in F.kids && x in F.kids
  {
    F.(kids := F.kids[F.up[x] := UpTo(F, x) + [x] + F.kids[x] + Beyond(F, x)][x := []],
       up := map n | n in F.up :: if F.up[n] == x then F.up[x] else F.up[n])
  }

  lemma SelfDiffers<N>(F: Forest<N>, x: N)
    requires WellFormed(F) && x in F.up
    ensures F.up[x] != x && x != F.top && F.up[x] in F.kids && x in F.kids
    ensures forall c :: c in F.kids[x] ==> c != F.up[x] && c != x
  {
    assert Lower(F, x, F.up[x]) && Owns(F, x);
    forall c | c in F.kids[x] ensures c != F.up[x] && c != x { assert Lower(F, c, F.up[c]); }
  }

  lemma OwnsAt<N>(F: Forest<N>, q: N)
    requires WellFormed(F)
    ensures q in F.kids ==> Owns(F, q)
  {
  }

  lemma PlacedAt<N>(F: Forest<N>, n: N)
    requires WellFormed(F)
    ensures n in F.up ==> Placed(F, n) && Lower(F, n, F.up[n]) && Lower(F, n, F.top)
  {
  }

  lemma TopIsNoChild<N>(F: Forest<N>, p: N)
    requires WellFormed(F) && p in F.kids
    ensures F.top !in F.kids[p]
  {
    assert Owns(F, p);
  }

  lemma ListsApart<N>(F: Forest<N>, p: N, q: N, n: N)
    requires WellFormed(F) && p in F.kids && q in F.kids && p != q && n in F.kids[p]
    ensures n !in F.kids[q] && n in F.up && F.up[n] == p
  {
    assert Owns(F, p) && Owns(F, q);
  }

  lemma FlattenedDistinct<N>(F: Forest<N>, x: N)
    requires WellFormed(F) && x in F.up
    ensures F.up[x] in F.kids && x in F.kids && Distinct(UpTo(F, x) + [x] + F.kids[x] + Beyond(F, x))
  {
    SelfDiffers(F, x);
    Around(F, x);
    var a, b, cs := UpTo(F, x) + [x], Beyond(F, x), F.kids[x];
    assert Owns(F, x);
    forall n | n in cs ensures n !in a && n !in b {
      ListsApart(F, x, F.up[x], n);
      assert a + b == F.kids[F.up[x]];
    }
    DistinctParts(a, b);
    DistinctTogether(a, cs);
    DistinctTogether(a + cs, b);
  }

  lemma FlattenedWellFormed<N>(F: Forest<N>, x: N)
    requires WellFormed(F) && x in F.up && F.kids[x] != []
    ensures WellFormed(Flattened(F, x))
  {
    var G := Flattened(F, x);
    FlattenedKeys(F, x);
    forall q | q in G.kids ensures Owns(G, q) { FlattenedOwns(F, x, q); }
    forall n | n in G.up ensures Placed(G, n) && Lower(G, n, G.up[n]) && Lower(G, n, G.top) {
      FlattenedPlaced(F, x, n);
    }
  }

  lemma FlattenedKeys<N>(F: Forest<N>, x: N)
    requires WellFormed(F) && x in F.up
    ensures x in F.kids && F.up[x] in F.kids
    ensures var G := Flattened(F, x);
      G.top == F.top && G.up.Keys == F.up.Keys && G.kids.Keys == F.kids.Keys
      && G.rank == F.rank
  {
    hide UpTo, Beyond;
    PlacedAt(F, x);
  }

  lemma FlattenedOwns<N>(F: Forest<N>, x: N, q: N)
    requires WellFormed(F) && x in F.up && q in F.kids
    ensures x in F.kids && F.up[x] in F.kids && Owns(Flattened(F, x), q)
  {
    hide WellFormed;
    FlattenedKeys(F, x);
    SelfDiffers(F, x);
    Around(F, x);
    FlattenedDistinct(F, x);
    OwnsAt(F, q);
    OwnsAt(F, x);
    var G, p := Flattened(F, x), F.up[x];
    if q == p {
      forall n | n in G.kids[p] ensures n in G.up && G.up[n] == p {
        assert n in F.kids[x] || n in F.kids[p];
      }
    }
  }

  lemma FlattenedPlaced<N>(F: Forest<N>, x: N, n: N)
    requires WellFormed(F) && x in F.up && n in F.up
    ensures x in F.kids && F.up[x] in F.kids
    ensures var G := Flattened(F, x); Placed(G, n) && Lower(G, n, G.up[n]) && Lower(G, n, G.top)
  {
    hide WellFormed;
    FlattenedKeys(F, x);
    SelfDiffers(F, x);
    Around(F, x);
    PlacedAt(F, n);
    PlacedAt(F, x);
  }

  // How the neighbours change: only around x and its former children.
  lemma FlattenedNeighbours<N>(F: Forest<N>, x: N, n: N)
    requires WellFormed(F) && x in F.up && F.kids[x] != [] && n in F.up
    ensures WellFormed(Flattened(F, x))
    ensures var cs := F.kids[x];
            && After(Flattened(F, x), n)
              == (if n == x then cs[0] else if n == cs[|cs| - 1] then After(F, x) else After(F, n))
            && Before(Flattened(F, x), n)
              == (if n == cs[0] then x else if n == After(F, x) then cs[|cs| - 1] else Before(F, n))
  {
    FlattenedWellFormed(F, x);
    SelfDiffers(F, x);
    Around(F, x);
    var G, p, cs := Flattened(F, x), F.up[x], F.kids[x];
    var a, b := UpTo(F, x) + [x], Beyond(F, x);
    assert Placed(F, n) && Placed(G, n) && Owns(F, x) && Owns(F, p) && Owns(G, p);
    if F.up[n] == x {
      SpliceMiddle(F.top, a, cs, b, n);
      ListsApart(F, x, p, n);
      HeadIsMember(F.top, b);
    } else if F.up[n] == p {
      SpliceOutside(F.top, a, cs, b, n);
      ListsApart(F, p, x, n);
    } else {
      assert G.kids[F.up[n]] == F.kids[F.up[n]];
      ListsApart(F, F.up[n], p, n);
      ListsApart(F, F.up[n], x, n);
      HeadIsMember(F.top, b);
    }
  }

  lemma HeadIsMember<N>(top: N, b: seq<N>)
    ensures HeadOf(top, b) == top || HeadOf(top, b) in b
  {
  }

  // A node of the middle one of three lists put together.
  lemma SpliceMiddle<N>(top: N, a: seq<N>, m: seq<N>, b: seq<N>, n: N)
    requires Distinct(a + m + b) && n in m
    ensures NextIn(top, a + m + b, n) == if n == m[|m| - 1] then HeadOf(top, b) else NextIn(top, m, n)
    ensures PrevIn(top, a + m + b, n) == if n == m[0] then LastOf(top, a) else PrevIn(top, m, n)
  {
    assert a + m + b == a + (m + b);
    NeighboursInSecond(top, a, m + b, n);
    DistinctParts(a, m + b);
    NeighboursInFirst(top, m, b, n);
  }

  // A node beside the middle list, compared with leaving that out.
  lemma SpliceOutside<N>(top: N, a: seq<N>, m: seq<N>, b: seq<N>, n: N)
    requires Distinct(a + m + b) && Distinct(a + b) && m != [] && (n in a || n in b)
    ensures NextIn(top, a + m + b, n) == if a != [] && n == a[|a| - 1] then m[0] else NextIn(top, a + b, n)
    ensures PrevIn(top, a + m + b, n) == if b != [] && n == b[0] then m[|m| - 1] else PrevIn(top, a + b, n)
  {
    assert a + m + b == a + (m + b);
    DistinctParts(a, b);
    DistinctParts(a + m, b);
    if n in a {
      NeighboursInFirst(top, a, m + b, n);
      NeighboursInFirst(top, a, b, n);
    } else {
      NeighboursInSecond(top, a + m, b, n);
      NeighboursInSecond(top, a, b, n);
    }
  }

  // How the pointers of n change when x is flattened.
  ghost function FlattenedPointers<N>(F: Forest<N>, x: N, n: N): Pointers<N>
    requires WellFormed(F) && x in F.up && n in F.up && F.kids[x] != []
  {
    SelfDiffers(F, x);
    SelfDiffers(F, n);
    var was, cs := PointersOf(F, n), F.kids[x];
    Pointers(
      if n in cs then F.up[x] else was.parent,
      if n == cs[0] then x else if n == After(F, x) then cs[|cs| - 1] else was.prev,
      if n == x then cs[0] else if n == cs[|cs| - 1] then After(F, x) else was.next,
      if n == x then F.top else was.first,
      if n == x then F.top else if n == F.up[x] && After(F, x) == F.top then cs[|cs| - 1] else was.last)
  }

  lemma FlattenedPointersAre<N>(F: Forest<N>, x: N, n: N)
    requires WellFormed(F) && x in F.up && n in F.up && F.kids[x] != []
    ensures WellFormed(Flattened(F, x))
    ensures n in Flattened(F, x).kids && Flattened(F, x).up[n] in Flattened(F, x).kids
    ensures PointersOf(Flattened(F, x), n) == FlattenedPointers(F, x, n)
  {
    hide WellFormed, After, Before;
    FlattenedNeighbours(F, x, n);
    SelfDiffers(F, x);
    SelfDiffers(F, n);
    SelfDiffers(Flattened(F, x), n);
    Around(F, x);
    NotTop(F, x);
    ChildrenAre(F, x, n);
  }

  lemma ChildrenAre<N>(F: Forest<N>, x: N, n: N)
    requires WellFormed(F) && x in F.up && n in F.up
    ensures x in F.kids && (n in F.kids[x] <==> F.up[n] == x)
  {
    assert Owns(F, x) && Placed(F, n);
  }

  lemma NotTop<N>(F: Forest<N>, x: N)
    requires WellFormed(F) && x in F.up
    ensures F.top !in Beyond(F, x) && F.top !in UpTo(F, x)
  {
    Around(F, x);
    assert Owns(F, F.up[x]);
  }
}
