// Moving a range of siblings below another node, and adding a child.

module ForestMoves {
  import opened Signs
  import opened Forests
  import opened ForestEdits

  // ------------------------------------------------------------- append_child

  ghost function Appended<N>(F: Forest<N>, p: N, c: N): Forest<N>
    requires p in F.kids && p in F.rank
  {
    F.(kids := F.kids[p := F.kids[p] + [c]][c := []], up := F.up[c := p], rank := F.rank[c := F.rank[p] - 1])
  }

  ghost predicate CanAppend<N>(F: Forest<N>, p: N, c: N) {
    WellFormed(F) && p in F.up && c !in F.kids
  }

  lemma AppendedKeys<N>(F: Forest<N>, p: N, c: N)
    requires CanAppend(F, p, c)
    ensures p in F.kids && p in F.rank
    ensures var G := Appended(F, p, c);
            && G.top == F.top && G.up.Keys == F.up.Keys + {c} && G.kids.Keys == F.kids.Keys + {c} && c !in F.up
              && c != p
  {
    PlacedAt(F, p);
  }

  lemma AppendedOwns<N>(F: Forest<N>, p: N, c: N, q: N)
    requires CanAppend(F, p, c) && q in F.kids
    ensures p in F.kids && p in F.rank && Owns(Appended(F, p, c), q)
  {
    hide WellFormed;
    AppendedKeys(F, p, c);
    OwnsAt(F, q);
    if q == p { DistinctTogether(F.kids[p], [c]); }
  }

  lemma AppendedPlaced<N>(F: Forest<N>, p: N, c: N, n: N)
    requires CanAppend(F, p, c) && (n in F.up || n == c)
    ensures p in F.kids && p in F.rank
    ensures var G := Appended(F, p, c); Placed(G, n) && Lower(G, n, G.up[n]) && Lower(G, n, G.top)
  {
    hide WellFormed;
    AppendedKeys(F, p, c);
    PlacedAt(F, n);
    PlacedAt(F, p);
    SelfDiffers(F, p);
    if n == c {
      assert c in F.kids[p] + [c];
    } else if F.up[n] == p {
      assert n in F.kids[p] + [c];
    }
    NotInRank(F, c, n);
  }

  lemma NotInRank<N>(F: Forest<N>, c: N, n: N)
    requires WellFormed(F) && c !in F.kids
    ensures c != F.top && c !in F.up && (n in F.up ==> F.up[n] != c)
  {
    PlacedAt(F, n);
  }

  lemma AppendedWellFormed<N>(F: Forest<N>, p: N, c: N)
    requires CanAppend(F, p, c)
    ensures p in F.kids && p in F.rank && WellFormed(Appended(F, p, c))
  {
    AppendedKeys(F, p, c);
    var G := Appended(F, p, c);
    forall q | q in G.kids ensures Owns(G, q) { if q != c { AppendedOwns(F, p, c, q); } }
    forall n | n in G.up ensures Placed(G, n) && Lower(G, n, G.up[n]) && Lower(G, n, G.top) {
      AppendedPlaced(F, p, c, n);
    }
  }

  ghost function AppendedPointers<N>(F: Forest<N>, p: N, c: N, n: N): Pointers<N>
    requires CanAppend(F, p, c) && (n in F.up || n == c)
  {
    AppendedKeys(F, p, c);
    var l := LastOf(F.top, F.kids[p]);
    if n == c then Pointers(p, l, F.top, F.top, F.top)
    else
      SelfDiffers(F, n);
      var was := PointersOf(F, n);
      was.(next := if n == l then c else was.next,
           first := if n == p && F.kids[p] == [] then c else was.first,
           last := if n == p then c else was.last)
  }

  lemma AppendedPointersAre<N>(F: Forest<N>, p: N, c: N, n: N)
    requires CanAppend(F, p, c) && (n in F.up || n == c)
    ensures p in F.kids && p in F.rank
    ensures var G := Appended(F, p, c);
            && n in G.up && n in G.kids && G.up[n] in G.kids && PointersOf(G, n) == AppendedPointers(F, p, c, n)
  {
    hide WellFormed;
    AppendedKeys(F, p, c);
    AppendedWellFormed(F, p, c);
    var G := Appended(F, p, c);
    SelfDiffers(G, n);
    PlacedAt(F, n);
    OwnsAt(G, p);
    LastIsMember(F.top, F.kids[p]);
    NotInRank(F, c, n);
    if n == c {
      NeighboursInSecond(F.top, F.kids[p], [c], c);
    } else {
      SelfDiffers(F, n);
      if F.up[n] == p {
        NeighboursInFirst(F.top, F.kids[p], [c], n);
      } else {
        ListsApart(F, F.up[n], p, n);
      }
    }
  }

  // ------------------------------------------------------------------ reparent

  // The range m of the list a + m + b of p becomes the end of the list of pos,
  // which is not among or below the nodes of m.
  ghost predicate CanMove<N>(F: Forest<N>, pos: N, p: N, a: seq<N>, m: seq<N>, b: seq<N>) {
    && WellFormed(F) && p in F.kids && F.kids[p] == a + m + b && m != []
    && pos in F.up && pos !in m && !BelowAny(F, pos, Elems(m))
  }

  // How far the rest has to be lifted for the rank to fall below pos.
  function Lift<N>(F: Forest<N>, pos: N, p: N): nat
    requires pos in F.rank && p in F.rank
  {
    if F.rank[p] > F.rank[pos] then F.rank[p] - F.rank[pos] else 0
  }

  // The list of pos without the range, before it is added at the end.
  function Target<N(==)>(F: Forest<N>, pos: N, p: N, a: seq<N>, b: seq<N>): seq<N>
    requires pos in F.kids
  {
    if pos == p then a + b else F.kids[pos]
  }

  ghost function Moved<N>(F: Forest<N>, pos: N, p: N, a: seq<N>, m: seq<N>, b: seq<N>): Forest<N>
    requires CanMove(F, pos, p, a, m, b)
  {
    PlacedAt(F, pos);
    F.(kids := F.kids[p := a + b][pos := Target(F, pos, p, a, b) + m],
       up := map n | n in F.up :: if n in m then pos else F.up[n],
       rank := map n | n in F.rank && (n in F.up || n == F.top) ::
         if n in m || BelowAny(F, n, Elems(m)) then F.rank[n] else F.rank[n] + Lift(F, pos, p))
  }

  lemma MovedParts<N>(F: Forest<N>, pos: N, p: N, a: seq<N>, m: seq<N>, b: seq<N>)
    requires CanMove(F, pos, p, a, m, b)
    ensures pos in F.kids && p in F.rank && pos in F.rank
    ensures Distinct(a + m + b) && Distinct(a + b) && Distinct(Target(F, pos, p, a, b) + m)
    ensures forall n :: n in a || n in m || n in b ==> n in F.up && F.up[n] == p
    ensures forall n :: n in m ==> n !in a && n !in b && n !in Target(F, pos, p, a, b)
  {
    hide WellFormed, BelowAny;
    UpIsThere(F, pos);
    OwnsAt(F, p);
    OwnsAt(F, pos);
    DistinctParts(a + m, b);
    DistinctParts(a, m);
    ThreeParts(a, m, b);
    DistinctTogether(a, b);
    forall n | n in a || n in m || n in b ensures n in F.up && F.up[n] == p { assert n in a + m + b; }
    forall n | n in m ensures n !in Target(F, pos, p, a, b) {
      if pos != p { ListsApart(F, p, pos, n); }
    }
    DistinctTogether(Target(F, pos, p, a, b), m);
    InTheForest(F, p);
  }

  lemma UpIsThere<N>(F: Forest<N>, x: N)
    requires WellFormed(F) && x in F.up
    ensures x in F.kids && x in F.rank
  {
  }

  lemma InTheForest<N>(F: Forest<N>, p: N)
    requires WellFormed(F) && p in F.kids
    ensures p in F.rank && (p in F.up || p == F.top)
  {
  }

  lemma ThreeParts<N>(a: seq<N>, m: seq<N>, b: seq<N>)
    requires Distinct(a + m + b)
    ensures forall n :: n in a ==> n !in b
    ensures forall n :: n in m ==> n !in b
  {
    DistinctParts(a + m, b);
  }

  lemma MovedOwns<N>(F: Forest<N>, pos: N, p: N, a: seq<N>, m: seq<N>, b: seq<N>, q: N)
    requires CanMove(F, pos, p, a, m, b) && q in F.kids
    ensures Owns(Moved(F, pos, p, a, m, b), q)
  {
    hide WellFormed, BelowAny;
    MovedParts(F, pos, p, a, m, b);
    OwnsAt(F, q);
    if q != p && q != pos {
      forall n | n in F.kids[q] ensures n !in m { ListsApart(F, q, p, n); }
    }
  }

  lemma MovedPlaced<N>(F: Forest<N>, pos: N, p: N, a: seq<N>, m: seq<N>, b: seq<N>, n: N)
    requires CanMove(F, pos, p, a, m, b) && n in F.up
    ensures Placed(Moved(F, pos, p, a, m, b), n)
  {
    hide WellFormed, BelowAny;
    MovedParts(F, pos, p, a, m, b);
    PlacedAt(F, n);
    var G := Moved(F, pos, p, a, m, b);
    if n in m {
      assert n in Target(F, pos, p, a, b) + m;
    } else if F.up[n] == pos {
      assert n in Target(F, pos, p, a, b);
    }
  }

  // The rank still falls from parents to children.
  lemma MovedLower<N>(F: Forest<N>, pos: N, p: N, a: seq<N>, m: seq<N>, b: seq<N>, n: N)
    requires CanMove(F, pos, p, a, m, b) && n in F.up
    ensures var G := Moved(F, pos, p, a, m, b); n in G.up && Lower(G, n, G.up[n]) && Lower(G, n, G.top)
  {
    hide WellFormed, BelowAny;
    MovedParts(F, pos, p, a, m, b);
    PlacedAt(F, n);
    InTheForest(F, F.up[n]);
    BelowIs(F, n, Elems(m));
    BelowIs(F, F.top, Elems(m));
    NotTopMember(F, m, n);
  }

  lemma NotTopMember<N>(F: Forest<N>, m: seq<N>, n: N)
    requires WellFormed(F) && n in F.up && forall x :: x in m ==> x in F.up
    ensures F.top !in m && F.top in F.rank && F.top !in F.up && n != F.top
  {
  }

  lemma MovedKeys<N>(F: Forest<N>, pos: N, p: N, a: seq<N>, m: seq<N>, b: seq<N>)
    requires CanMove(F, pos, p, a, m, b)
    ensures var G := Moved(F, pos, p, a, m, b);
            && G.kids.Keys == F.kids.Keys && G.up.Keys == F.up.Keys && G.top == F.top
            && G.top !in G.up && G.top in G.kids && G.top in G.rank
            && (forall n :: n in G.kids ==> n == G.top || n in G.up)
            && (forall n :: n in G.up ==> n in G.kids && n in G.rank)
  {
    hide BelowAny;
    MovedParts(F, pos, p, a, m, b);
  }

  lemma MovedWellFormed<N>(F: Forest<N>, pos: N, p: N, a: seq<N>, m: seq<N>, b: seq<N>)
    requires CanMove(F, pos, p, a, m, b)
    ensures WellFormed(Moved(F, pos, p, a, m, b))
  {
    var G := Moved(F, pos, p, a, m, b);
    MovedKeys(F, pos, p, a, m, b);
    forall q | q in G.kids ensures Owns(G, q) { MovedOwns(F, pos, p, a, m, b, q); }
    forall n | n in G.up ensures Placed(G, n) && Lower(G, n, G.up[n]) && Lower(G, n, G.top) {
      MovedPlaced(F, pos, p, a, m, b, n);
      MovedLower(F, pos, p, a, m, b, n);
    }
  }

  ghost function MovedPointers<N>(F: Forest<N>, pos: N, p: N, a: seq<N>, m: seq<N>, b: seq<N>, n: N): Pointers<N>
    requires CanMove(F, pos, p, a, m, b) && n in F.up
  {
    MovedParts(F, pos, p, a, m, b);
    SelfDiffers(F, n);
    var f, l, L, R := m[0], m[|m| - 1], LastOf(F.top, a), HeadOf(F.top, b);
    var W := Target(F, pos, p, a, b);
    var was := PointersOf(F, n);
    Pointers(
      if n in m then pos else was.parent,
      if n == f then LastOf(F.top, W) else if n == R then L else was.prev,
      if n == l then F.top else if n == LastOf(F.top, W) then f else if n == L then R else was.next,
      if n == pos && W == [] then f else if n == p && L == F.top then R else was.first,
      if n == pos then l else if n == p && R == F.top then L else was.last)
  }

  // Leaving the middle list out.
  lemma RemoveMiddle<N>(top: N, a: seq<N>, m: seq<N>, b: seq<N>, n: N)
    requires Distinct(a + m + b) && Distinct(a + b) && m != [] && (n in a || n in b) && top !in a && top !in b
    ensures NextIn(top, a + b, n) == if n == LastOf(top, a) then HeadOf(top, b) else NextIn(top, a + m + b, n)
    ensures PrevIn(top, a + b, n) == if n == HeadOf(top, b) then LastOf(top, a) else PrevIn(top, a + m + b, n)
  {
    SpliceOutside(top, a, m, b, n);
    assert a + [] + b == a + b;
    PutOutside(top, a, [], b, n);
  }

  // The list a node is in afterwards.
  lemma MovedList<N>(F: Forest<N>, pos: N, p: N, a: seq<N>, m: seq<N>, b: seq<N>, n: N)
    requires CanMove(F, pos, p, a, m, b) && n in F.up
    ensures var G := Moved(F, pos, p, a, m, b);
      n in G.up && G.up[n] in G.kids && n in G.kids && F.up[n] in F.kids
      && pos in F.kids
    ensures var G := Moved(F, pos, p, a, m, b);
            G.kids[G.up[n]] == if n in m || F.up[n] == pos then Target(F, pos, p, a, b) + m
                               else if F.up[n] == p then a + b else F.kids[F.up[n]]
    ensures F.top !in a && F.top !in b && F.top !in m && F.top !in Target(F, pos, p, a, b)
  {
    hide WellFormed, BelowAny;
    MovedParts(F, pos, p, a, m, b);
    PlacedAt(F, n);
    UpIsThere(F, n);
    OwnsAt(F, pos);
    TopIsNoChild(F, p);
    TopIsNoChild(F, pos);
  }

  lemma MovedNeighbours<N>(F: Forest<N>, pos: N, p: N, a: seq<N>, m: seq<N>, b: seq<N>, n: N)
    requires CanMove(F, pos, p, a, m, b) && n in F.up
    ensures var G := Moved(F, pos, p, a, m, b); n in G.up && G.up[n] in G.kids
    ensures var G, w := Moved(F, pos, p, a, m, b), MovedPointers(F, pos, p, a, m, b, n);
            After(G, n) == w.next && Before(G, n) == w.prev
  {
    hide WellFormed, BelowAny, Moved;
    MovedParts(F, pos, p, a, m, b);
    MovedList(F, pos, p, a, m, b, n);
    PlacedAt(F, n);
    MovedTop(F, pos, p, a, m, b);
    var W := Target(F, pos, p, a, b);
    LastIsMember(F.top, W);
    LastIsMember(F.top, a);
    HeadIsMember(F.top, b);
    if n in m {
      MiddleMoved(F.top, W, a, m, b, n);
    } else if F.up[n] == pos {
      NeighboursInFirst(F.top, W, m, n);
      if pos == p { RemoveMiddle(F.top, a, m, b, n); }
    } else if F.up[n] == p {
      RemoveMiddle(F.top, a, m, b, n);
      NotInList(F, pos, p, n);
    } else {
      NotInList(F, pos, p, n);
    }
  }

  // A moved node, in its new list and in its old one.
  lemma MiddleMoved<N>(top: N, W: seq<N>, a: seq<N>, m: seq<N>, b: seq<N>, n: N)
    requires Distinct(W + m) && Distinct(a + m + b) && n in m
    ensures NextIn(top, W + m, n) == if n == m[|m| - 1] then top else NextIn(top, a + m + b, n)
    ensures PrevIn(top, W + m, n) == if n == m[0] then LastOf(top, W) else PrevIn(top, a + m + b, n)
  {
    NeighboursInSecond(top, W, m, n);
    SpliceMiddle(top, a, m, b, n);
    DistinctParts(W, m);
    NeighboursAt(top, m, |m| - 1);
  }

  lemma NotInList<N>(F: Forest<N>, pos: N, p: N, n: N)
    requires WellFormed(F) && p in F.kids && pos in F.kids && n in F.up
    ensures F.up[n] != p ==> n !in F.kids[p]
    ensures F.up[n] != pos ==> n !in F.kids[pos]
  {
    assert Owns(F, p) && Owns(F, pos);
  }

  lemma MovedTop<N>(F: Forest<N>, pos: N, p: N, a: seq<N>, m: seq<N>, b: seq<N>)
    requires CanMove(F, pos, p, a, m, b)
    ensures Moved(F, pos, p, a, m, b).top == F.top
  {
  }

  lemma MovedPointersAre<N>(F: Forest<N>, pos: N, p: N, a: seq<N>, m: seq<N>, b: seq<N>, n: N)
    requires CanMove(F, pos, p, a, m, b) && n in F.up
    ensures var G := Moved(F, pos, p, a, m, b);
            && n in G.up && n in G.kids && G.up[n] in G.kids && PointersOf(G, n) == MovedPointers(F, pos, p, a, m, b, n)
  {
    hide WellFormed, BelowAny, After, Before;
    MovedNeighbours(F, pos, p, a, m, b, n);
    MovedList(F, pos, p, a, m, b, n);
    MovedParts(F, pos, p, a, m, b);
  }

  // ---------------------------------------------------- flatten, then erase

  lemma {:induction false} NoneBelowLeaf<N>(F: Forest<N>, x: N, z: N)
    requires WellFormed(F) && x in F.kids && F.kids[x] == []
    ensures !BelowAny(F, z, {x})
    decreases if z in F.up then F.rank[F.top] - F.rank[z] else 0
  {
    hide WellFormed;
    PlacedAt(F, z);
    BelowIs(F, z, {x});
    if z in F.up { NoneBelowLeaf(F, x, F.up[z]); }
  }

  // Below a childless node there is nothing to cut.
  lemma CutLeaf<N>(F: Forest<N>, x: N)
    requires WellFormed(F) && x in F.kids && F.kids[x] == []
    ensures CutBelow(F, {x}) == F
  {
    hide WellFormed, BelowAny;
    var G := CutBelow(F, {x});
    forall z | z in F.kids || z in F.up || z in F.rank ensures !BelowAny(F, z, {x}) { NoneBelowLeaf(F, x, z); }
    assert G.kids == F.kids && G.up == F.up && G.rank == F.rank;
  }

  // flatten followed by erase replaces a node by its children in the list of
  // its parent, and changes no other list.
  lemma FlattenThenErase<N>(F: Forest<N>, x: N, G: Forest<N>)
    requires WellFormed(F) && x in F.up && x in F.kids && F.up[x] in F.kids
    requires WellFormed(G) && G == if F.kids[x] == [] then F else Flattened(F, x)
    ensures CanPut(CutBelow(G, {x}), x, [])
    ensures Put(CutBelow(G, {x}), x, []).kids == (F.kids - {x})[F.up[x] := UpTo(F, x) + F.kids[x] + Beyond(F, x)]
  {
    hide *;
    FlattenedIs(F, x, G);
    CutLeaf(G, x);
    FlattenedSides(F, x, G);
    LeafCanGo(G, x);
    PutKids(G, x);
    MapWithout(F.kids, G.kids, x, F.up[x], UpTo(F, x) + [x] + F.kids[x] + Beyond(F, x), [],
      UpTo(F, x) + F.kids[x] + Beyond(F, x));
  }

  lemma FlattenedIs<N>(F: Forest<N>, x: N, G: Forest<N>)
    requires WellFormed(F) && x in F.up && x in F.kids && F.up[x] in F.kids
    requires G == if F.kids[x] == [] then F else Flattened(F, x)
    ensures WellFormed(G) && x in G.up && F.up[x] != x && G.up[x] == F.up[x] && G.up[x] in G.kids && x in G.kids
      && G.kids[x] == []
    ensures G.kids == F.kids || G.kids == F.kids[F.up[x] := UpTo(F, x) + [x] + F.kids[x] + Beyond(F, x)][x := []]
  {
    hide WellFormed, UpTo, Beyond;
    if F.kids[x] != [] {
      FlattenedWellFormed(F, x);
      FlattenedKeys(F, x);
    }
    SelfDiffers(F, x);
  }

  lemma LeafCanGo<N>(G: Forest<N>, x: N)
    requires WellFormed(G) && x in G.up && x in G.kids && G.kids[x] == []
    ensures CanPut(G, x, [])
  {
  }

  lemma PutKids<N>(G: Forest<N>, x: N)
    requires CanPut(G, x, [])
    ensures G.up[x] in G.kids
    ensures Put(G, x, []).kids == (G.kids - {x})[G.up[x] := UpTo(G, x) + Beyond(G, x)]
  {
    hide UpTo, Beyond;
    SelfDiffers(G, x);
    assert UpTo(G, x) + [] + Beyond(G, x) == UpTo(G, x) + Beyond(G, x);
  }

  lemma MapWithout<N, V>(m: map<N, V>, g: map<N, V>, x: N, p: N, s: V, t: V, u: V)
    requires p != x && (g == m || g == m[p := s][x := t])
    ensures (g - {x})[p := u] == (m - {x})[p := u]
  {
  }

  lemma FlattenedSides<N>(F: Forest<N>, x: N, G: Forest<N>)
    requires WellFormed(F) && x in F.up && x in F.kids && F.up[x] in F.kids && F.up[x] != x
    requires G == if F.kids[x] == [] then F else Flattened(F, x)
    requires WellFormed(G) && x in G.up && G.up[x] in G.kids
    ensures G.up[x] == F.up[x] && UpTo(G, x) + Beyond(G, x) == UpTo(F, x) + F.kids[x] + Beyond(F, x)
  {
    hide WellFormed, UpTo, Beyond, After, Before;
    Around(F, x);
    OwnsAt(G, F.up[x]);
    if F.kids[x] != [] {
      FlattenedOver(F, x);
      SidesAre(G, x, UpTo(F, x), F.kids[x] + Beyond(F, x));
    }
  }

  lemma FlattenedOver<N>(F: Forest<N>, x: N)
    requires x in F.up && x in F.kids && F.up[x] in F.kids && F.up[x] != x
    ensures Flattened(F, x).up[x] == F.up[x]
    ensures Flattened(F, x).kids[F.up[x]] == UpTo(F, x) + [x] + (F.kids[x] + Beyond(F, x))
  {
    hide UpTo, Beyond;
  }

  lemma SidesAre<N>(G: Forest<N>, x: N, a: seq<N>, b: seq<N>)
    requires x in G.up && G.up[x] in G.kids && G.kids[G.up[x]] == a + [x] + b && Distinct(G.kids[G.up[x]])
    ensures UpTo(G, x) == a && Beyond(G, x) == b
  {
    hide Distinct;
    var s := a + [x] + b;
    assert s[..|a|] == a && s[|a|] == x && s[|a| + 1..] == b;
    IndexIs(s, |a|);
  }
}
