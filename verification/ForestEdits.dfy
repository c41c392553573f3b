// Putting nodes into a forest and taking them out, and what that does to the
// pointers of the others.

module ForestEdits {
  import opened Signs
  import opened Forests

  // ----------------------------------------------- A childless node replaced

  // x gives way to the node in m, or to nothing.
  ghost function Put<N>(F: Forest<N>, x: N, m: seq<N>): Forest<N>
    requires WellFormed(F) && x in F.up && |m| <= 1
  {
    SelfDiffers(F, x);
    var p := F.up[x];
    var kids := (F.kids - {x})[p := UpTo(F, x) + m + Beyond(F, x)];
    if m == [] then F.(kids := kids, up := F.up - {x}, rank := F.rank - {x})
    else F.(kids := kids[m[0] := []], up := (F.up - {x})[m[0] := p], rank := (F.rank - {x})[m[0] := F.rank[x]])
  }

  // x has no children and m, if any, is new.
  ghost predicate CanPut<N>(F: Forest<N>, x: N, m: seq<N>) {
    WellFormed(F) && x in F.up && F.kids[x] == [] && |m| <= 1 && forall y :: y in m ==> y !in F.kids
  }

  lemma PutDistinct<N>(F: Forest<N>, x: N, m: seq<N>)
    requires CanPut(F, x, m)
    ensures Distinct(UpTo(F, x) + m + Beyond(F, x)) && Distinct(UpTo(F, x) + Beyond(F, x))
    ensures x !in UpTo(F, x) + m + Beyond(F, x)
  {
    SelfDiffers(F, x);
    Around(F, x);
    var a, b := UpTo(F, x), Beyond(F, x);
    DistinctParts(a + [x], b);
    DistinctParts(a, [x]);
    assert Owns(F, F.up[x]);
    forall y | y in m ensures y !in a && y !in b { assert a + [x] + b == F.kids[F.up[x]]; }
    DistinctTogether(a, b);
    DistinctTogether(a, m);
    DistinctTogether(a + m, b);
  }

  lemma PutWellFormed<N>(F: Forest<N>, x: N, m: seq<N>)
    requires CanPut(F, x, m)
    ensures WellFormed(Put(F, x, m))
  {
    var G := Put(F, x, m);
    PutKeys(F, x, m);
    forall q | q in G.kids ensures Owns(G, q) { PutOwns(F, x, m, q); }
    forall n | n in G.up ensures Placed(G, n) && Lower(G, n, G.up[n]) && Lower(G, n, G.top) { PutPlaced(F, x, m, n); }
  }

  lemma PutKeys<N>(F: Forest<N>, x: N, m: seq<N>)
    requires CanPut(F, x, m)
    ensures var G := Put(F, x, m);
            && G.top == F.top && G.top !in G.up && G.top in G.kids && G.top in G.rank
            && (forall n :: n in G.kids ==> n == G.top || n in G.up)
            && (forall n :: n in G.up ==> n in G.kids && n in G.rank)
    ensures forall n :: n in Put(F, x, m).up ==> n in m || (n in F.up && n != x)
    ensures forall n :: n in m || (n in F.up && n != x) ==> n in Put(F, x, m).up
  {
    hide UpTo, Beyond;
    SelfDiffers(F, x);
  }

  lemma PutOwns<N>(F: Forest<N>, x: N, m: seq<N>, q: N)
    requires CanPut(F, x, m) && q in Put(F, x, m).kids
    ensures Owns(Put(F, x, m), q)
  {
    hide WellFormed;
    SelfDiffers(F, x);
    PutKeys(F, x, m);
    var G, p := Put(F, x, m), F.up[x];
    if q !in m {
      OwnsAt(F, q);
      if q == p {
        Around(F, x);
        PutDistinct(F, x, m);
        forall n | n in G.kids[p] ensures n in G.up && G.up[n] == p { assert n in m || n in F.kids[p]; }
      } else {
        PutElsewhere(F, x, m, q);
      }
    }
  }

  lemma PutElsewhere<N>(F: Forest<N>, x: N, m: seq<N>, q: N)
    requires CanPut(F, x, m) && q in F.kids && q !in m && q != x && q != F.up[x]
    ensures q in Put(F, x, m).kids && Put(F, x, m).kids[q] == F.kids[q]
    ensures forall n :: n in F.kids[q] ==> n in Put(F, x, m).up && Put(F, x, m).up[n] == q
  {
    hide UpTo, Beyond;
    SelfDiffers(F, x);
    assert Owns(F, q);
  }

  lemma PutPlaced<N>(F: Forest<N>, x: N, m: seq<N>, n: N)
    requires CanPut(F, x, m) && n in Put(F, x, m).up
    ensures var G := Put(F, x, m); Placed(G, n) && Lower(G, n, G.up[n]) && Lower(G, n, G.top)
  {
    hide WellFormed;
    SelfDiffers(F, x);
    PutKeys(F, x, m);
    PlacedAt(F, x);
    PlacedAt(F, n);
    Around(F, x);
    if n !in m { assert F.up[n] != x; }
  }

  ghost function PutPointers<N>(F: Forest<N>, x: N, m: seq<N>, n: N): Pointers<N>
    requires CanPut(F, x, m) && (n in m || n in F.up)
  {
    SelfDiffers(F, x);
    var p, l, r := F.up[x], Before(F, x), After(F, x);
    if n in m then Pointers(p, l, r, F.top, F.top)
    else
      SelfDiffers(F, n);
      var was := PointersOf(F, n);
      Pointers(was.parent,
        if n == r then (if m == [] then l else m[0]) else was.prev,
        if n == l then (if m == [] then r else m[0]) else was.next,
        if n == p && l == F.top then (if m == [] then r else m[0]) else was.first,
        if n == p && r == F.top then (if m == [] then l else m[0]) else was.last)
  }

  lemma PutPointersAre<N>(F: Forest<N>, x: N, m: seq<N>, n: N)
    requires CanPut(F, x, m) && n in Put(F, x, m).up
    ensures WellFormed(Put(F, x, m)) && (n in m || n in F.up)
    ensures n in Put(F, x, m).kids && Put(F, x, m).up[n] in Put(F, x, m).kids
    ensures PointersOf(Put(F, x, m), n) == PutPointers(F, x, m, n)
  {
    hide After, Before, WellFormed;
    PutWellFormed(F, x, m);
    SelfDiffers(Put(F, x, m), n);
    if n in m {
      PutNew(F, x, m, n);
    } else {
      SelfDiffers(F, x);
      SelfDiffers(F, n);
      PutNeighbours(F, x, m, n);
      PutChildren(F, x, m, n);
    }
  }

  lemma PutNew<N>(F: Forest<N>, x: N, m: seq<N>, n: N)
    requires CanPut(F, x, m) && n in m && WellFormed(Put(F, x, m))
    ensures F.up[x] in F.kids
    ensures n in Put(F, x, m).up && n in Put(F, x, m).kids && Put(F, x, m).up[n] in Put(F, x, m).kids
    ensures PointersOf(Put(F, x, m), n) == Pointers(F.up[x], Before(F, x), After(F, x), F.top, F.top)
  {
    SelfDiffers(F, x);
    Around(F, x);
    PutDistinct(F, x, m);
    SpliceMiddle(F.top, UpTo(F, x), m, Beyond(F, x), n);
  }

  lemma PutNeighbours<N>(F: Forest<N>, x: N, m: seq<N>, n: N)
    requires CanPut(F, x, m) && n in F.up && n != x && n !in m && WellFormed(Put(F, x, m))
    ensures F.up[x] in F.kids && F.up[n] in F.kids && n in Put(F, x, m).up && Put(F, x, m).up[n] in Put(F, x, m).kids
    ensures After(Put(F, x, m), n) == if n == Before(F, x) then (if m == [] then After(F, x) else m[0]) else After(F, n)
    ensures Before(Put(F, x, m), n) ==
      if n == After(F, x) then (if m == [] then Before(F, x) else m[0]) else Before(F, n)
  {
    hide WellFormed, Put, UpTo, Beyond;
    SelfDiffers(F, x);
    SelfDiffers(F, n);
    Around(F, x);
    NotTop(F, x);
    var G, p, a, b := Put(F, x, m), F.up[x], UpTo(F, x), Beyond(F, x);
    PutDistinct(F, x, m);
    PutTop(F, x, m, n);
    PlacedAt(F, n);
    if F.up[n] == p {
      SpliceOutside(F.top, a, [x], b, n);
      PutOutside(F.top, a, m, b, n);
    } else {
      ListsApart(F, F.up[n], p, n);
      HeadIsMember(F.top, b);
      LastIsMember(F.top, a);
    }
  }

  lemma PutTop<N>(F: Forest<N>, x: N, m: seq<N>, n: N)
    requires CanPut(F, x, m) && n in F.up && n != x && n !in m
    ensures Put(F, x, m).top == F.top && n in Put(F, x, m).up && Put(F, x, m).up[n] == F.up[n]
      && F.up[n] in Put(F, x, m).kids
    ensures F.up[x] in F.kids && F.up[n] in F.kids
    ensures Put(F, x, m).kids[F.up[n]] == if F.up[n] == F.up[x] then UpTo(F, x) + m + Beyond(F, x) else F.kids[F.up[n]]
  {
    hide UpTo, Beyond;
    SelfDiffers(F, x);
    assert Placed(F, n);
  }

  // A node beside the middle list, which has at most one entry.
  lemma PutOutside<N>(top: N, a: seq<N>, m: seq<N>, b: seq<N>, n: N)
    requires Distinct(a + m + b) && Distinct(a + b) && |m| <= 1 && (n in a || n in b) && top !in a && top !in b
    ensures NextIn(top, a + m + b, n) ==
      if n == LastOf(top, a) then (if m == [] then HeadOf(top, b) else m[0]) else NextIn(top, a + b, n)
    ensures PrevIn(top, a + m + b, n) ==
      if n == HeadOf(top, b) then (if m == [] then LastOf(top, a) else m[0]) else PrevIn(top, a + b, n)
  {
    if m == [] {
      assert a + m + b == a + b;
      DistinctParts(a, b);
      if n in a { NeighboursInFirst(top, a, b, n); } else { NeighboursInSecond(top, a, b, n); }
    } else {
      SpliceOutside(top, a, m, b, n);
    }
  }

  lemma LastIsMember<N>(top: N, a: seq<N>)
    ensures LastOf(top, a) == top || LastOf(top, a) in a
  {
  }

  lemma PutChildren<N>(F: Forest<N>, x: N, m: seq<N>, n: N)
    requires CanPut(F, x, m) && n in F.up && n != x && n !in m
    ensures n in F.kids && F.up[x] in F.kids && n in Put(F, x, m).kids && Put(F, x, m).up[n] == F.up[n]
    ensures HeadOf(F.top, Put(F, x, m).kids[n])
         == if n == F.up[x] && Before(F, x) == F.top then (if m == [] then After(F, x) else m[0])
           else HeadOf(F.top, F.kids[n])
    ensures LastOf(F.top, Put(F, x, m).kids[n])
         == if n == F.up[x] && After(F, x) == F.top then (if m == [] then Before(F, x) else m[0])
           else LastOf(F.top, F.kids[n])
  {
    hide WellFormed, After, Before, Put;
    SelfDiffers(F, x);
    SelfDiffers(F, n);
    PutAt(F, x, m, n);
    Around(F, x);
    NotTop(F, x);
  }

  lemma PutAt<N>(F: Forest<N>, x: N, m: seq<N>, n: N)
    requires CanPut(F, x, m) && n in F.up && n != x && n !in m
    ensures n in F.kids && F.up[x] in F.kids && n in Put(F, x, m).kids && Put(F, x, m).up[n] == F.up[n]
    ensures Put(F, x, m).kids[n] == if n == F.up[x] then UpTo(F, x) + m + Beyond(F, x) else F.kids[n]
  {
  }

  // ------------------------------------------------------- Subtrees cut off

  // Some node of M lies above x.
  ghost predicate BelowAny<N>(F: Forest<N>, x: N, M: set<N>)
    requires WellFormed(F)
    decreases if x in F.up then F.rank[F.top] - F.rank[x] else 0
  {
    x in F.up && (F.up[x] in M
      || (Placed(F, x) && Lower(F, x, F.up[x]) && Lower(F, x, F.top) && BelowAny(F, F.up[x], M)))
  }

  // Everything below the nodes of M is gone.
  ghost function CutBelow<N>(F: Forest<N>, M: set<N>): Forest<N>
    requires WellFormed(F)
  {
    Forest(F.top,
      map p | p in F.kids && !BelowAny(F, p, M) :: if p in M then [] else F.kids[p],
      map n | n in F.up && !BelowAny(F, n, M) :: F.up[n],
      map n | n in F.rank && !BelowAny(F, n, M) :: F.rank[n])
  }

  lemma BelowIs<N>(F: Forest<N>, x: N, M: set<N>)
    requires WellFormed(F)
    ensures BelowAny(F, x, M) <==> x in F.up && (F.up[x] in M || BelowAny(F, F.up[x], M))
  {
    PlacedAt(F, x);
  }

  lemma CutOwns<N>(F: Forest<N>, M: set<N>, p: N)
    requires WellFormed(F) && p in CutBelow(F, M).kids
    ensures Owns(CutBelow(F, M), p)
  {
    hide WellFormed;
    OwnsAt(F, p);
    if p !in M {
      forall n | n in F.kids[p] ensures !BelowAny(F, n, M) { BelowIs(F, n, M); }
    }
  }

  lemma CutPlaced<N>(F: Forest<N>, M: set<N>, n: N)
    requires WellFormed(F) && n in CutBelow(F, M).up
    ensures var G := CutBelow(F, M); Placed(G, n) && Lower(G, n, G.up[n]) && Lower(G, n, G.top) && G.up[n] !in M
  {
    PlacedAt(F, n);
    BelowIs(F, n, M);
    BelowIs(F, F.top, M);
  }

  lemma CutWellFormed<N>(F: Forest<N>, M: set<N>)
    requires WellFormed(F)
    ensures WellFormed(CutBelow(F, M))
  {
    var G := CutBelow(F, M);
    BelowIs(F, F.top, M);
    forall p | p in G.kids ensures Owns(G, p) { CutOwns(F, M, p); }
    forall n | n in G.up ensures Placed(G, n) && Lower(G, n, G.up[n]) && Lower(G, n, G.top) { CutPlaced(F, M, n); }
  }

  // The pointers of the nodes left are as before, but the nodes of M have no
  // children.
  lemma CutPointers<N>(F: Forest<N>, M: set<N>, n: N)
    requires WellFormed(F) && n in CutBelow(F, M).up
    ensures var G := CutBelow(F, M);
            && n in F.up && n in F.kids && F.up[n] in F.kids && n in G.kids && G.up[n] in G.kids
            && PointersOf(G, n) == if n in M then PointersOf(F, n).(first := F.top, last := F.top) else PointersOf(F, n)
  {
    hide WellFormed;
    PlacedAt(F, n);
    CutPlaced(F, M, n);
    CutWellFormed(F, M);
    SelfDiffers(F, n);
    SelfDiffers(CutBelow(F, M), n);
  }

  // Being below c is the same before and after cutting elsewhere.
  lemma {:induction false} BelowAfterCut<N>(F: Forest<N>, M: set<N>, x: N, c: N)
    requires WellFormed(F) && WellFormed(CutBelow(F, M)) && !BelowAny(F, x, M)
    ensures BelowAny(CutBelow(F, M), x, {c}) <==> BelowAny(F, x, {c})
    decreases if x in F.up then F.rank[F.top] - F.rank[x] else 0
  {
    hide WellFormed;
    BelowIs(F, x, M);
    BelowIs(F, x, {c});
    BelowIs(CutBelow(F, M), x, {c});
    PlacedAt(F, x);
    if x in F.up { BelowAfterCut(F, M, F.up[x], c); }
  }

  lemma {:induction false} BelowMore<N>(F: Forest<N>, M: set<N>, x: N, c: N)
    requires WellFormed(F)
    ensures BelowAny(F, x, M + {c}) <==> BelowAny(F, x, M) || BelowAny(F, x, {c})
    decreases if x in F.up then F.rank[F.top] - F.rank[x] else 0
  {
    hide WellFormed;
    BelowIs(F, x, M);
    BelowIs(F, x, {c});
    BelowIs(F, x, M + {c});
    PlacedAt(F, x);
    if x in F.up { BelowMore(F, M, F.up[x], c); }
  }

  lemma CutMore<N>(F: Forest<N>, M: set<N>, c: N)
    requires WellFormed(F) && WellFormed(CutBelow(F, M))
    ensures CutBelow(CutBelow(F, M), {c}) == CutBelow(F, M + {c})
  {
    hide WellFormed;
    var G, A, B := CutBelow(F, M), CutBelow(CutBelow(F, M), {c}), CutBelow(F, M + {c});
    forall x ensures (!BelowAny(F, x, M) && !BelowAny(G, x, {c})) <==> !BelowAny(F, x, M + {c}) {
      BelowMore(F, M, x, c);
      if !BelowAny(F, x, M) { BelowAfterCut(F, M, x, c); }
    }
    assert A.kids == B.kids;
    assert A.up == B.up;
    assert A.rank == B.rank;
  }

  // Below a node are its children and what is below them.
  lemma {:induction false} BelowChildren<N>(F: Forest<N>, p: N, x: N)
    requires WellFormed(F) && p in F.kids
    ensures BelowAny(F, x, {p}) <==> x in F.kids[p] || BelowAny(F, x, Elems(F.kids[p]))
    decreases if x in F.up then F.rank[F.top] - F.rank[x] else 0
  {
    hide WellFormed;
    var M := Elems(F.kids[p]);
    BelowIs(F, x, {p});
    BelowIs(F, x, M);
    PlacedAt(F, x);
    OwnsAt(F, p);
    if x in F.up { BelowChildren(F, p, F.up[x]); }
  }

  lemma NotBelowSelf<N>(F: Forest<N>, x: N)
    requires WellFormed(F)
    ensures !BelowAny(F, x, {x})
  {
    if BelowAny(F, x, {x}) { BelowIsLower(F, x, x); }
  }

  lemma {:induction false} BelowIsLower<N>(F: Forest<N>, x: N, p: N)
    requires WellFormed(F) && BelowAny(F, x, {p})
    ensures x in F.up && Lower(F, x, p)
    decreases if x in F.up then F.rank[F.top] - F.rank[x] else 0
  {
    PlacedAt(F, x);
    if F.up[x] != p { BelowIsLower(F, F.up[x], p); }
  }

  lemma {:induction false} BelowNone<N>(F: Forest<N>, x: N)
    requires WellFormed(F)
    ensures !BelowAny(F, x, {})
    decreases if x in F.up then F.rank[F.top] - F.rank[x] else 0
  {
    PlacedAt(F, x);
    BelowIs(F, x, {});
    if x in F.up { BelowNone(F, F.up[x]); }
  }

  lemma CutNothing<N>(F: Forest<N>)
    requires WellFormed(F)
    ensures CutBelow(F, {}) == F
  {
    hide WellFormed, BelowAny;
    var G := CutBelow(F, {});
    forall x | x in F.kids || x in F.up || x in F.rank ensures !BelowAny(F, x, {}) { BelowNone(F, x); }
    assert G.kids == F.kids && G.up == F.up && G.rank == F.rank;
  }

  // No child is below its siblings, or its parent below its children.
  lemma {:induction false} NotBelowKids<N>(F: Forest<N>, p: N, M: set<N>, x: N)
    requires WellFormed(F) && p in F.kids && M <= Elems(F.kids[p]) && (x == p || x in F.kids[p])
    ensures !BelowAny(F, x, M)
  {
    OwnsAt(F, p);
    if BelowAny(F, x, M) {
      var c := BelowOne(F, x, M);
      BelowIsLower(F, x, c);
      PlacedAt(F, c);
      BelowIs(F, x, {c});
      if x != p { BelowIsLower(F, p, c); }
    }
  }

  lemma {:induction false} BelowOne<N>(F: Forest<N>, x: N, M: set<N>) returns (c: N)
    requires WellFormed(F) && BelowAny(F, x, M)
    ensures c in M && BelowAny(F, x, {c}) && c in F.kids
    decreases if x in F.up then F.rank[F.top] - F.rank[x] else 0
  {
    PlacedAt(F, x);
    if F.up[x] in M { c := F.up[x]; } else { c := BelowOne(F, F.up[x], M); }
    BelowIs(F, x, {c});
  }

  // One round of the loop in erase_children.
  lemma EraseRound<N>(F: Forest<N>, p: N, i: nat)
    requires WellFormed(F) && p in F.up && p in F.kids && i < |F.kids[p]|
    ensures var cs := F.kids[p]; var M, c := Elems(cs[..i]), cs[i]; var G := CutBelow(F, M);
            && WellFormed(G) && c in G.up && p in G.up && G.up[c] == p && p in G.kids && G.kids[p] == cs
            && CutBelow(G, {c}) == CutBelow(F, Elems(cs[..i + 1]))
            && !BelowAny(F, p, Elems(cs[..i + 1]))
            && After(G, c) == if i + 1 < |cs| then cs[i + 1] else F.top
  {
    hide WellFormed, CutBelow, BelowAny;
    var cs := F.kids[p];
    var M, c := Elems(cs[..i]), cs[i];
    CutWellFormed(F, M);
    CutMore(F, M, c);
    assert Elems(cs[..i + 1]) == M + {c};
    OwnsAt(F, p);
    NotBelowKids(F, p, M, p);
    NotBelowKids(F, p, M, c);
    NotBelowKids(F, p, M + {c}, p);
    assert c in F.up && F.up[c] == p;
    CutKeeps(F, M, p);
    CutKeeps(F, M, c);
    NotOwnKid(F, p, M);
    NeighboursAt(F.top, cs, i);
  }

  lemma NotOwnKid<N>(F: Forest<N>, p: N, M: set<N>)
    requires WellFormed(F) && p in F.up && p in F.kids && M <= Elems(F.kids[p])
    ensures p !in M
  {
    SelfDiffers(F, p);
  }

  lemma CutKeeps<N>(F: Forest<N>, M: set<N>, x: N)
    requires WellFormed(F) && x in F.up && !BelowAny(F, x, M)
    ensures var G := CutBelow(F, M); G.top == F.top && x in G.up && G.up[x] == F.up[x] && x in G.kids && x in F.kids
    ensures CutBelow(F, M).kids[x] == if x in M then [] else F.kids[x]
  {
    PlacedAt(F, x);
  }

  // Which nodes are left after a round.
  lemma LeftAfterRound<N>(F: Forest<N>, p: N, i: nat, n: N)
    requires WellFormed(F) && p in F.kids && i < |F.kids[p]| && WellFormed(CutBelow(F, Elems(F.kids[p][..i])))
    ensures var cs := F.kids[p]; var M, c := Elems(cs[..i]), cs[i];
            && (BelowAny(F, n, Elems(cs[..i + 1])) <==> BelowAny(F, n, M) || BelowAny(CutBelow(F, M), n, {c}))
            && (BelowAny(CutBelow(F, M), n, {c}) ==> BelowAny(F, n, {p}))
  {
    hide WellFormed, CutBelow;
    var cs := F.kids[p];
    var M, c := Elems(cs[..i]), cs[i];
    assert Elems(cs[..i + 1]) == M + {c};
    BelowMore(F, M, n, c);
    if BelowAny(F, n, M) {
      GoneAfterCut(F, M, n, {c});
    } else {
      BelowAfterCut(F, M, n, c);
      BelowViaKid(F, p, c, n);
    }
  }

  lemma GoneAfterCut<N>(F: Forest<N>, M: set<N>, n: N, S: set<N>)
    requires WellFormed(F) && BelowAny(F, n, M) && WellFormed(CutBelow(F, M))
    ensures !BelowAny(CutBelow(F, M), n, S)
  {
    BelowIs(CutBelow(F, M), n, S);
  }

  lemma {:induction false} BelowViaKid<N>(F: Forest<N>, p: N, c: N, n: N)
    requires WellFormed(F) && p in F.kids && c in F.kids[p]
    ensures BelowAny(F, n, {c}) ==> BelowAny(F, n, {p})
  {
    OwnsAt(F, p);
    if BelowAny(F, n, {c}) { BelowClimbs(F, n, c, p); }
  }

  lemma {:induction false} BelowClimbs<N>(F: Forest<N>, n: N, c: N, p: N)
    requires WellFormed(F) && BelowAny(F, n, {c}) && c in F.up && F.up[c] == p
    ensures BelowAny(F, n, {p})
    decreases if n in F.up then F.rank[F.top] - F.rank[n] else 0
  {
    PlacedAt(F, n);
    BelowIs(F, n, {p});
    BelowIs(F, c, {p});
    if F.up[n] != c { BelowClimbs(F, F.up[n], c, p); }
  }

  // After the last round only the children themselves are still there.
  lemma EraseEnd<N>(F: Forest<N>, p: N, n: N)
    requires WellFormed(F) && p in F.up && p in F.kids
    ensures var M := Elems(F.kids[p]);
            BelowAny(F, n, {p}) <==> BelowAny(F, n, M) || n in M
    ensures n in F.up && !BelowAny(F, n, {p}) ==>
      var G, H := CutBelow(F, Elems(F.kids[p])), CutBelow(F, {p});
      && n in G.up && n in G.kids && G.up[n] in G.kids && n in H.up && n in H.kids && H.up[n] in H.kids
      && PointersOf(H, n) == if n == p then PointersOf(G, n).(first := F.top, last := F.top) else PointersOf(G, n)
  {
    hide WellFormed, PointersOf, BelowAny;
    var M := Elems(F.kids[p]);
    BelowChildren(F, p, n);
    if n in F.up && !BelowAny(F, n, {p}) {
      NotOwnKid(F, p, M);
      CutKeeps(F, M, n);
      CutKeeps(F, {p}, n);
      CutPointers(F, M, n);
      CutPointers(F, {p}, n);
    }
  }
}
