// The operations on forests, said in terms of plain lists of children and paths to
// the top.

module ForestMeanings {
  import opened Signs
  import opened Forests
  import opened ForestEdits
  import opened ForestMoves

  // The pointers of the children of p, from the list of p: the parent is p, the
  // neighbours are those in the list, and p points to both ends.
  lemma PointersMean<N>(F: Forest<N>, p: N, i: nat)
    requires WellFormed(F) && p in F.up && i < |F.kids[p]|
    ensures p in F.kids && F.up[p] in F.kids && F.kids[p][i] in F.up && F.kids[p][i] in F.kids
    ensures F.up[F.kids[p][i]] in F.kids
    ensures var s := F.kids[p];
      && PointersOf(F, p).first == s[0] && PointersOf(F, p).last == s[|s| - 1]
      && PointersOf(F, s[i]).parent == p
      && PointersOf(F, s[i]).prev == (if i == 0 then F.top else s[i - 1])
      && PointersOf(F, s[i]).next == (if i == |s| - 1 then F.top else s[i + 1])
  {
    SelfDiffers(F, p);
    assert Owns(F, p);
    SelfDiffers(F, F.kids[p][i]);
    NeighboursAt(F.top, F.kids[p], i);
  }

  lemma NoChildrenMeans<N>(F: Forest<N>, p: N)
    requires WellFormed(F) && p in F.up
    ensures p in F.kids && F.up[p] in F.kids
    ensures F.kids[p] == [] <==> PointersOf(F, p).first == F.top
    ensures F.kids[p] == [] <==> PointersOf(F, p).last == F.top
  {
    SelfDiffers(F, p);
    assert Owns(F, p);
  }

  // x splits the list it stands in in one way only.
  lemma SplitOnce<N>(F: Forest<N>, x: N, a: seq<N>, b: seq<N>)
    requires WellFormed(F) && x in F.up && F.up[x] in F.kids && F.kids[F.up[x]] == a + [x] + b
    ensures UpTo(F, x) == a && Beyond(F, x) == b
  {
    Around(F, x);
    hide WellFormed;
    var s := a + [x] + b;
    assert s[|a|] == x && s[..|a|] == a && s[|a| + 1..] == b;
    IndexIs(s, |a|);
  }

  // flatten: the children of x follow x in its list, x has none left, and no other
  // list changes.
  lemma FlattenedMeans<N>(F: Forest<N>, x: N, a: seq<N>, b: seq<N>)
    requires WellFormed(F) && x in F.up && F.up[x] in F.kids && F.kids[F.up[x]] == a + [x] + b
    ensures x in F.kids && F.up[x] != x
    ensures var G := Flattened(F, x);
      && G.kids.Keys == F.kids.Keys && G.up.Keys == F.up.Keys && G.top == F.top
      && G.kids[F.up[x]] == a + [x] + F.kids[x] + b && G.kids[x] == []
      && (forall q :: q in F.kids && q != x && q != F.up[x] ==> G.kids[q] == F.kids[q])
      && (forall n :: n in F.up ==> G.up[n] == if n in F.kids[x] then F.up[x] else F.up[n])
  {
    SelfDiffers(F, x);
    SplitOnce(F, x, a, b);
    assert Owns(F, x);
    forall n | n in F.up ensures F.up[n] == x <==> n in F.kids[x] { PlacedAt(F, n); }
  }

  // erase of a childless node, or its replacement by a new one, in its list.
  lemma PutMeans<N>(F: Forest<N>, x: N, m: seq<N>, a: seq<N>, b: seq<N>)
    requires CanPut(F, x, m) && F.up[x] in F.kids && F.kids[F.up[x]] == a + [x] + b
    ensures var G := Put(F, x, m);
      && F.up[x] in G.kids && G.kids[F.up[x]] == a + m + b && x !in G.kids && x !in G.up && G.top == F.top
      && (forall y :: y in m ==> y in G.kids && G.kids[y] == [] && y in G.up && G.up[y] == F.up[x])
      && (forall q :: q in F.kids && q != x && q != F.up[x] ==> q in G.kids && G.kids[q] == F.kids[q])
      && (forall n :: n in F.up && n != x ==> n in G.up && G.up[n] == F.up[n])
      && G.up.Keys == F.up.Keys - {x} + Elems(m)
  {
    hide UpTo, Beyond;
    SelfDiffers(F, x);
    SplitOnce(F, x, a, b);
  }

  // append_child: one more child, at the end.
  lemma AppendedMeans<N>(F: Forest<N>, p: N, c: N)
    requires CanAppend(F, p, c)
    ensures p in F.kids && p in F.rank
    ensures var G := Appended(F, p, c);
      && G.kids[p] == F.kids[p] + [c] && G.kids[c] == [] && c in G.up && G.up[c] == p && G.top == F.top
      && (forall q :: q in F.kids && q != p ==> q in G.kids && G.kids[q] == F.kids[q])
      && (forall n :: n in F.up ==> n in G.up && G.up[n] == F.up[n])
      && G.up.Keys == F.up.Keys + {c}
  {
    SelfDiffers(F, p);
    PlacedAt(F, p);
  }

  // reparent: the range leaves its list and becomes the end of the list of pos.
  lemma MovedMeans<N>(F: Forest<N>, pos: N, p: N, a: seq<N>, m: seq<N>, b: seq<N>)
    requires CanMove(F, pos, p, a, m, b)
    ensures pos in F.kids
    ensures var G := Moved(F, pos, p, a, m, b);
      && G.kids.Keys == F.kids.Keys && G.up.Keys == F.up.Keys && G.top == F.top
      && G.kids[pos] == (if pos == p then a + b else F.kids[pos]) + m
      && (p != pos ==> G.kids[p] == a + b)
      && (forall q :: q in F.kids && q != p && q != pos ==> G.kids[q] == F.kids[q])
      && (forall n :: n in F.up ==> G.up[n] == if n in m then pos else F.up[n])
  {
    PlacedAt(F, pos);
  }

  // ---------------------------------------------------------------------- Below

  // path climbs from x, parent by parent, to a node of M.
  ghost predicate Climbs<N>(F: Forest<N>, path: seq<N>, x: N, M: set<N>) {
    && |path| > 1 && path[0] == x && path[|path| - 1] in M
    && forall i :: 0 <= i < |path| - 1 ==> path[i] in F.up && F.up[path[i]] == path[i + 1]
  }

  lemma {:induction false} ClimbsIsBelow<N>(F: Forest<N>, path: seq<N>, x: N, M: set<N>)
    requires WellFormed(F) && Climbs(F, path, x, M)
    ensures BelowAny(F, x, M)
    decreases |path|
  {
    hide WellFormed, BelowAny;
    BelowIs(F, x, M);
    if |path| > 2 {
      assert F.up[path[0]] == path[1] && path[0] in F.up;
      forall i | 0 <= i < |path[1..]| - 1 ensures path[1..][i] in F.up && F.up[path[1..][i]] == path[1..][i + 1] {
        assert path[i + 1] in F.up && F.up[path[i + 1]] == path[i + 1 + 1];
      }
      ClimbsIsBelow(F, path[1..], F.up[x], M);
    } else {
      assert F.up[path[0]] == path[1] && path[0] in F.up;
    }
  }

  lemma {:induction false} BelowClimbs<N>(F: Forest<N>, x: N, M: set<N>) returns (path: seq<N>)
    requires WellFormed(F) && BelowAny(F, x, M)
    ensures Climbs(F, path, x, M)
    decreases if x in F.up then F.rank[F.top] - F.rank[x] else 0
  {
    PlacedAt(F, x);
    hide WellFormed, BelowAny;
    BelowIs(F, x, M);
    if F.up[x] in M {
      path := [x, F.up[x]];
    } else {
      var rest := BelowClimbs(F, F.up[x], M);
      path := [x] + rest;
    }
  }

  // erase_children: exactly the nodes from which one climbs to M are gone, the nodes
  // of M have no children left, and no other list changes.
  lemma CutMeans<N(!new)>(F: Forest<N>, M: set<N>)
    requires WellFormed(F)
    ensures var G := CutBelow(F, M);
      && G.top == F.top
      && (forall n :: n in G.up <==> n in F.up && !exists path :: Climbs(F, path, n, M))
      && (forall n :: n in G.up ==> G.up[n] == F.up[n])
      && (forall q :: q in G.kids <==> q in F.kids && !exists path :: Climbs(F, path, q, M))
      && (forall q :: q in G.kids ==> G.kids[q] == if q in M then [] else F.kids[q])
  {
    forall n ensures BelowAny(F, n, M) <==> exists path :: Climbs(F, path, n, M) {
      hide WellFormed, BelowAny, Climbs;
      if BelowAny(F, n, M) { var path := BelowClimbs(F, n, M); }
      if path :| Climbs(F, path, n, M) { ClimbsIsBelow(F, path, n, M); }
    }
    hide BelowAny, Climbs, WellFormed;
  }
}
