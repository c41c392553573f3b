// replace: a subtree is copied over a node in one walk along the pointers.

module TreeCopy {
  import opened Forests
  import opened ForestEdits
  import opened ForestMoves
  import opened ForestCopy
  import opened Trees

  // Being below c does not change for the other nodes when y replaces x.
  lemma {:induction false} PutBelow<N>(F: Forest<N>, x: N, y: N, z: N, c: N)
    requires CanPut(F, x, [y]) && WellFormed(Put(F, x, [y])) && z in F.kids && z != x && c != x && c != y
    ensures BelowAny(Put(F, x, [y]), z, {c}) <==> BelowAny(F, z, {c})
    decreases if z in F.up then F.rank[F.top] - F.rank[z] else 0
  {
    hide WellFormed, BelowAny;
    PlacedAt(F, z);
    BelowIs(F, z, {c});
    BelowIs(Put(F, x, [y]), z, {c});
    PutKeys(F, x, [y]);
    NotInKids(F, x, y, z);
    if z in F.up {
      PutTop(F, x, [y], z);
      PutBelow(F, x, y, F.up[z], c);
    }
  }

  lemma NotInKids<N>(F: Forest<N>, x: N, y: N, z: N)
    requires CanPut(F, x, [y]) && z in F.kids
    ensures z != y && y !in F.up && (z in F.up ==> F.up[z] in F.kids && F.up[z] != x)
  {
    PlacedAt(F, z);
  }

  // What y is below, once it replaces x.
  lemma PutBelowNew<N>(F: Forest<N>, x: N, y: N, c: N)
    requires CanPut(F, x, [y]) && WellFormed(Put(F, x, [y])) && c != x && c != y
    ensures BelowAny(Put(F, x, [y]), y, {c}) <==> BelowAny(F, x, {c})
  {
    SelfDiffers(F, x);
    BelowIs(F, x, {c});
    BelowIs(Put(F, x, [y]), y, {c});
    PutBelow(F, x, y, F.up[x], c);
  }

  // The shape when copying begins: nothing below position, tmp in its place.
  ghost function Cleared<N>(F: Forest<N>, position: N, tmp: N): Forest<N>
    requires WellFormed(F) && CanPut(CutBelow(F, {position}), position, [tmp])
  {
    Put(CutBelow(F, {position}), position, [tmp])
  }

  ghost predicate Disjoint<N>(F: Forest<N>, position: N, from: N) {
    && WellFormed(F) && position in F.up && from in F.up && position != from
    && !BelowAny(F, position, {from}) && !BelowAny(F, from, {position})
  }

  lemma CopyIsReady<N>(F: Forest<N>, position: N, from: N, tmp: N)
    requires Disjoint(F, position, from) && CanPut(CutBelow(F, {position}), position, [tmp]) && tmp !in F.kids
    ensures Ready(Job(Cleared(F, position, tmp), from, tmp))
  {
    hide WellFormed, BelowAny, Put, CutBelow;
    var C := CutBelow(F, {position});
    NotBelowSelf(F, position);
    CutWellFormed(F, {position});
    CutKeeps(F, {position}, position);
    CutKeeps(F, {position}, from);
    PutWellFormed(C, position, [tmp]);
    PutKeys(C, position, [tmp]);
    PutNew(C, position, [tmp], tmp);
    BelowAfterCut(F, {position}, position, from);
    PutBelowNew(C, position, tmp, from);
    PutEmpty(C, position, tmp);
  }

  lemma PutEmpty<N>(F: Forest<N>, x: N, y: N)
    requires CanPut(F, x, [y])
    ensures y in Put(F, x, [y]).kids && Put(F, x, [y]).kids[y] == [] && y != F.top
  {
  }

  // The source is still there when copying begins.
  lemma SourceKept<N>(F: Forest<N>, position: N, from: N, tmp: N, x: N)
    requires Disjoint(F, position, from) && CanPut(CutBelow(F, {position}), position, [tmp]) && tmp !in F.kids
    requires x in F.up && (x == from || BelowAny(F, x, {from}))
    ensures var G := Cleared(F, position, tmp);
            WellFormed(G) && InSource(Job(G, from, tmp), x) && x in G.kids && x in F.kids && G.kids[x] == F.kids[x]
  {
    hide WellFormed, BelowAny, Put, CutBelow;
    var C := CutBelow(F, {position});
    CopyIsReady(F, position, from, tmp);
    CutWellFormed(F, {position});
    if BelowAny(F, x, {position}) { Comparable(F, x, position, from); }
    CutKeeps(F, {position}, x);
    CutKeeps(F, {position}, position) by { NotBelowSelf(F, position); }
    if x != from { BelowAfterCut(F, {position}, x, from); }
    PutWellFormed(C, position, [tmp]);
    CutKeeps(F, {position}, from);
    if x != from { PutBelow(C, position, tmp, x, from); }
    PutKeys(C, position, [tmp]);
    BelowIs(F, position, {from});
    PutAt(C, position, [tmp], x);
  }

  // Two nodes above x are one above the other.
  lemma {:induction false} Comparable<N>(F: Forest<N>, x: N, p: N, q: N)
    requires WellFormed(F) && BelowAny(F, x, {p}) && (x == q || BelowAny(F, x, {q}))
    ensures p == q || BelowAny(F, p, {q}) || BelowAny(F, q, {p})
    decreases if x in F.up then F.rank[F.top] - F.rank[x] else 0
  {
    PlacedAt(F, x);
    BelowIs(F, x, {p});
    BelowIs(F, x, {q});
    if x != q && F.up[x] != p { Comparable(F, F.up[x], p, q); }
  }

  method Replace<T>(tree: Tree<T>, position: TreeNode<T>, from: TreeNode<T>)
    returns (result: TreeNode<T>, ghost copy: map<TreeNode?<T>, TreeNode?<T>>)
    requires tree.Valid() && position in tree.nodes && from in tree.nodes && Disjoint(tree.shape, position, from)
    modifies tree, tree.nodes
    ensures tree.Valid() && CanPut(CutBelow(old(tree.shape), {position}), position, [result])
    ensures var J := Job(Cleared(old(tree.shape), position, result), from, result);
            Ready(J) && Framed(J, tree.shape, copy) && Copies(J, tree.shape, copy) && Copied(J, tree.shape, copy)
    ensures CopiesData(tree, copy)
    ensures forall n :: n in old(tree.nodes) && n in tree.nodes ==> n.data == old(n.data)
  {
    hide WellFormed, BelowAny, PointersOf, CutBelow, Put, CanPut, Ready, Framed, Copies, Copied, CopiesData, Cleared,
      Tree.Valid;
    ghost var F := tree.shape;
    result := Clear(tree, position, from);
    CopyIsReady(F, position, from, result);
    copy := CopyChildren(tree, from, result);
  }

  // The head of the replacement takes the place of position.
  method Clear<T>(tree: Tree<T>, position: TreeNode<T>, from: TreeNode<T>) returns (result: TreeNode<T>)
    requires tree.Valid() && position in tree.nodes && from in tree.nodes && Disjoint(tree.shape, position, from)
    modifies tree, tree.nodes
    ensures tree.Valid() && CanPut(CutBelow(old(tree.shape), {position}), position, [result])
      && result !in old(tree.shape).kids
    ensures tree.shape == Cleared(old(tree.shape), position, result)
    ensures from in tree.nodes && result in tree.nodes && fresh(tree.nodes - old(tree.nodes))
      && result.data == from.data
    ensures forall n :: n in old(tree.nodes) && n in tree.nodes ==> n.data == old(n.data)
  {
    hide *;
    ghost var F, all := tree.shape, tree.nodes;
    IsShaped(tree);
    DisjointLeft(F, all, position, from);
    tree.EraseChildren(position);
    result := tree.ReplaceLeaf(position, from.data);
    assert result !in all;
    OutsideForest(F, result);
    ClearedIs(F, position, result);
  }

  lemma IsShaped<T>(tree: Tree<T>)
    requires tree.Valid()
    ensures WellFormed(tree.shape) && tree.shape.top == null && forall n :: n in tree.shape.up ==> n in tree.nodes
  {
  }

  lemma ClearedIs<N>(F: Forest<N>, position: N, tmp: N)
    requires WellFormed(F) && CanPut(CutBelow(F, {position}), position, [tmp])
    ensures Cleared(F, position, tmp) == Put(CutBelow(F, {position}), position, [tmp])
  {
  }

  lemma DisjointLeft<T>(F: Forest<TreeNode?<T>>, all: set<TreeNode<T>>, position: TreeNode<T>, from: TreeNode<T>)
    requires Disjoint(F, position, from) && position in all && from in all
    ensures position in Left(F, all, {position}) && from in Left(F, all, {position}) && position != from
    ensures position in CutBelow(F, {position}).kids && CutBelow(F, {position}).kids[position] == []
  {
    StillThere(F, position);
  }

  // Every copy holds the data of its original.
  ghost predicate CopiesData<T>(tree: Tree<T>, copy: map<TreeNode?<T>, TreeNode?<T>>)
    reads tree, tree.nodes
  {
    forall x :: x in copy ==>
      x != null && copy[x] != null && x in tree.nodes && copy[x] in tree.nodes
      && copy[x].data == x.data
  }

  // The loop of replace.
  method CopyChildren<T>(tree: Tree<T>, from: TreeNode<T>, to: TreeNode<T>)
      returns (ghost copy: map<TreeNode?<T>, TreeNode?<T>>)
    requires tree.Valid() && from in tree.nodes && to in tree.nodes && Ready(Job(tree.shape, from, to))
      && to.data == from.data
    modifies tree, tree.nodes
    ensures tree.Valid()
    ensures var J := Job(old(tree.shape), from, to);
            Framed(J, tree.shape, copy) && Copies(J, tree.shape, copy) && Copied(J, tree.shape, copy)
    ensures CopiesData(tree, copy) && fresh(tree.nodes - old(tree.nodes))
    ensures forall n :: n in old(tree.nodes) ==> n in tree.nodes && n.data == old(n.data)
  {
    hide WellFormed, BelowAny, PointersOf, Ready, Walking, Framed, Copies, Copied, Arrived, Leaving, Tree.Valid,
      NextChild, InSource;
    ghost var J := Job(tree.shape, from, to);
    copy := map[from := to];
    ghost var path: seq<TreeNode?<T>> := [from];
    WalkStarts(J);
    var last := from.nextSibling;
    SourcePointers(tree, J, copy, path);
    CurrentIsInside(J, tree.shape, copy, path);
    var currentFrom: TreeNode?<T> := from;
    var toit: TreeNode<T> := to;
    while currentFrom != last
      invariant tree.Valid() && CopiesData(tree, copy)
      invariant forall n :: n in old(tree.nodes) ==> n in tree.nodes && n.data == old(n.data)
      invariant fresh(tree.nodes - old(tree.nodes))
      invariant currentFrom != last ==> AtNode(tree, J, copy, path, currentFrom, toit)
      invariant currentFrom == last ==> Leaving(J, tree.shape, copy, path) && |path| == 1
      decreases J.F.up.Keys - copy.Keys, currentFrom != last
    {
      FirstIsNext(J, tree.shape, copy, path);
      SourcePointers(tree, J, copy, path);
      LeafIsDone(J, tree.shape, copy, path);
      FirstInNodes(tree, J, copy, path);
      if currentFrom.firstChild != null {
        currentFrom := currentFrom.firstChild;
        toit, copy, path := CopyNext(tree, J, copy, path, |path| - 1, toit, currentFrom);
        ArrivedWalks(J, tree.shape, copy, path);
        CurrentIsInside(J, tree.shape, copy, path);
      } else {
        currentFrom, toit, path := ClimbUp(tree, J, copy, path, currentFrom, toit, from);
        currentFrom, toit, copy, path := CopySibling(tree, J, copy, path, currentFrom, toit, last);
      }
    }
    WalkEnds(J, tree.shape, copy, path);
    LeavingIs(J, tree.shape, copy, path);
  }

  // The walk has just come to currentFrom, whose copy is toit.
  ghost predicate AtNode<T>(tree: Tree<T>, J: Job<TreeNode?<T>>, copy: map<TreeNode?<T>, TreeNode?<T>>,
      path: seq<TreeNode?<T>>, currentFrom: TreeNode?<T>, toit: TreeNode<T>)
    reads tree
  {
    && Arrived(J, tree.shape, copy, path) && |path| > 0 && currentFrom == path[|path| - 1] && currentFrom in copy
      && copy[currentFrom] == toit
  }

  // The pointers the walk follows at its current node.
  lemma SourcePointers<T>(tree: Tree<T>, J: Job<TreeNode?<T>>, copy: map<TreeNode?<T>, TreeNode?<T>>,
      path: seq<TreeNode?<T>>)
    requires tree.Valid() && CopiesData(tree, copy) && Walking(J, tree.shape, copy, path)
    ensures |path| > 0 && forall i :: 0 <= i < |path| ==> path[i] in copy
    ensures var cur := path[|path| - 1];
            && cur != null && copy[cur] != null && cur in tree.nodes && copy[cur] in tree.nodes
            && cur in J.F.kids && cur in J.F.up && J.F.up[cur] in J.F.kids && J.F.top == null
            && cur.firstChild == HeadOf(null, J.F.kids[cur]) && cur.nextSibling == After(J.F, cur)
            && (|path| > 1 ==> cur.parent == path[|path| - 2] && copy[cur].parent == copy[path[|path| - 2]])
            && (cur == J.from <==> |path| == 1)
  {
    hide WellFormed, BelowAny, Ready, Framed, Copies, Mirrors, Whole, Turns, After, Before;
    var cur := path[|path| - 1];
    SourceStays(J, tree.shape, copy, path, cur);
    assert tree.Linked(cur) && tree.Linked(copy[cur]);
    if |path| > 1 { CopyParent(J, tree.shape, copy, path); }
  }

  // The current node is in the source, hence not the node after it.
  lemma CurrentIsInside<N>(J: Job<N>, G: Forest<N>, copy: map<N, N>, path: seq<N>)
    requires Walking(J, G, copy, path)
    ensures path != [] && path[|path| - 1] in J.F.up && J.from in J.F.up && J.F.up[J.from] in J.F.kids
    ensures path[|path| - 1] != After(J.F, J.from) && J.F.top == G.top
  {
    LastOutside(J, path[|path| - 1]);
  }

  lemma FirstIsNext<N>(J: Job<N>, G: Forest<N>, copy: map<N, N>, path: seq<N>)
    requires Arrived(J, G, copy, path)
    ensures path != [] && path[|path| - 1] in copy && path[|path| - 1] in J.F.kids && copy[path[|path| - 1]] in G.kids
    ensures var cur := path[|path| - 1];
            J.F.kids[cur] != [] ==>
              |G.kids[copy[cur]]| < |J.F.kids[cur]|
              && NextChild(J, G, copy, cur) == J.F.kids[cur][0]
    ensures Walking(J, G, copy, path)
  {
    assert Mirrors(J, G, copy, path[|path| - 1]);
  }

  // Moving on from a node that is done with leads to the next child of its
  // parent, or out of the source.
  lemma NextIsInside<N>(J: Job<N>, G: Forest<N>, copy: map<N, N>, path: seq<N>)
    requires Leaving(J, G, copy, path) && path != [] && path[|path| - 1] in J.F.up
      && J.F.up[path[|path| - 1]] in J.F.kids
    ensures Walking(J, G, copy, path) && J.from in J.F.up && J.F.up[J.from] in J.F.kids
    ensures var cur := path[|path| - 1];
            |path| > 1 && After(J.F, cur) != J.F.top ==>
              var p := path[|path| - 2];
              && After(J.F, cur) != After(J.F, J.from) && p in copy && copy[p] in G.kids && p in J.F.kids
              && |G.kids[copy[p]]| < |J.F.kids[p]| && NextChild(J, G, copy, p) == After(J.F, cur)
              && Whole(J, G, copy, cur)
  {
    LastOutside(J, J.from);
    if |path| > 1 && After(J.F, path[|path| - 1]) != J.F.top {
      NextOrUp(J, G, copy, path);
      ChildInSource(J, path[|path| - 2], After(J.F, path[|path| - 1]));
      LastOutside(J, After(J.F, path[|path| - 1]));
    }
  }

  lemma ChildInSource<N>(J: Job<N>, p: N, c: N)
    requires WellFormed(J.F) && InSource(J, p) && p in J.F.kids && c in J.F.kids[p]
    ensures InSource(J, c)
  {
    OwnsAt(J.F, p);
    BelowIs(J.F, c, {J.from});
  }

  lemma LeavingIs<N>(J: Job<N>, G: Forest<N>, copy: map<N, N>, path: seq<N>)
    requires Leaving(J, G, copy, path)
    ensures Framed(J, G, copy) && Copies(J, G, copy)
  {
  }

  // The inner loop of replace: up as long as there is no next sibling.
  method ClimbUp<T>(tree: Tree<T>, ghost J: Job<TreeNode?<T>>, ghost copy: map<TreeNode?<T>, TreeNode?<T>>,
      ghost path: seq<TreeNode?<T>>, from: TreeNode<T>, to: TreeNode<T>, startFrom: TreeNode<T>)
    returns (currentFrom: TreeNode<T>, toit: TreeNode<T>, ghost road: seq<TreeNode?<T>>)
    requires tree.Valid() && CopiesData(tree, copy) && Leaving(J, tree.shape, copy, path)
    requires |path| > 0 && from == path[|path| - 1] && from in copy && copy[from] == to && startFrom == J.from
    ensures Leaving(J, tree.shape, copy, road) && |road| > 0 && currentFrom == road[|road| - 1] && currentFrom in copy
    ensures copy[currentFrom] == toit
    ensures currentFrom.nextSibling != null || currentFrom == J.from
  {
    hide WellFormed, BelowAny, PointersOf, Walking, Leaving;
    currentFrom, toit, road := from, to, path;
    while currentFrom.nextSibling == null && currentFrom != startFrom
      invariant Leaving(J, tree.shape, copy, road) && |road| > 0 && currentFrom == road[|road| - 1]
        && currentFrom in copy
      invariant copy[currentFrom] == toit
      decreases |road|
    {
      LeavingWalks(J, tree.shape, copy, road);
      SourcePointers(tree, J, copy, road);
      NextOrUp(J, tree.shape, copy, road);
      road := road[..|road| - 1];
      currentFrom := currentFrom.parent;
      toit := toit.parent;
    }
  }

  // ... and on to the next sibling, which is copied unless it is `last`.
  method CopySibling<T>(tree: Tree<T>, ghost J: Job<TreeNode?<T>>, ghost copy: map<TreeNode?<T>, TreeNode?<T>>,
      ghost path: seq<TreeNode?<T>>, from: TreeNode<T>, to: TreeNode<T>, last: TreeNode?<T>)
    returns (currentFrom: TreeNode?<T>, toit: TreeNode<T>, ghost more: map<TreeNode?<T>, TreeNode?<T>>,
        ghost road: seq<TreeNode?<T>>)
    requires tree.Valid() && CopiesData(tree, copy) && Leaving(J, tree.shape, copy, path)
    requires |path| > 0 && from == path[|path| - 1] && from in copy && copy[from] == to
    requires from.nextSibling != null || from == J.from
    requires J.from in J.F.up && J.F.up[J.from] in J.F.kids && last == After(J.F, J.from)
    modifies tree, tree.nodes
    ensures tree.Valid() && CopiesData(tree, more)
    ensures currentFrom != last ==> AtNode(tree, J, more, road, currentFrom, toit)
    ensures currentFrom != last ==> currentFrom !in copy && currentFrom in J.F.up && more == copy[currentFrom := toit]
    ensures currentFrom == last ==> more == copy && Leaving(J, tree.shape, more, road) && |road| == 1
    ensures fresh(tree.nodes - old(tree.nodes)) && forall n :: n in old(tree.nodes) ==>
      n in tree.nodes && n.data == old(n.data)
  {
    hide WellFormed, BelowAny, PointersOf, Ready, Walking, Framed, Copies, Copied, Arrived, Leaving, Tree.Valid,
      InSource, After, Whole, NextChild;
    toit, more, road := to, copy, path;
    LeavingWalks(J, tree.shape, copy, path);
    SourcePointers(tree, J, copy, path);
    NextIsInside(J, tree.shape, copy, path);
    currentFrom := from.nextSibling;
    if currentFrom != last {
      ParentInNodes(tree, J, copy, path);
      toit, more, road := CopyNext(tree, J, copy, path, |path| - 2, toit.parent, currentFrom);
      ArrivedWalks(J, tree.shape, more, road);
      CurrentIsInside(J, tree.shape, more, road);
    }
  }

  lemma ParentInNodes<T>(tree: Tree<T>, J: Job<TreeNode?<T>>, copy: map<TreeNode?<T>, TreeNode?<T>>,
      path: seq<TreeNode?<T>>)
    requires tree.Valid() && CopiesData(tree, copy) && Walking(J, tree.shape, copy, path) && |path| > 1
    requires path[|path| - 1] in J.F.up && J.F.up[path[|path| - 1]] in J.F.kids && After(J.F, path[|path| - 1]) != null
    ensures path[|path| - 2] in copy && copy[path[|path| - 2]] != null && copy[path[|path| - 2]] in tree.nodes
    ensures After(J.F, path[|path| - 1]) in tree.nodes
  {
    var cur := path[|path| - 1];
    AroundDiffers(J.F, cur);
    assert After(J.F, cur) in tree.shape.up;
  }

  lemma FirstInNodes<T>(tree: Tree<T>, J: Job<TreeNode?<T>>, copy: map<TreeNode?<T>, TreeNode?<T>>,
      path: seq<TreeNode?<T>>)
    requires tree.Valid() && Walking(J, tree.shape, copy, path)
    ensures path != [] && path[|path| - 1] in J.F.kids
    ensures var cs := J.F.kids[path[|path| - 1]]; HeadOf(null, cs) == null <==> cs == []
    ensures var cs := J.F.kids[path[|path| - 1]]; cs != [] ==> cs[0] != null && cs[0] in tree.nodes && cs[0] in J.F.up
  {
    var cur := path[|path| - 1];
    SourceStays(J, tree.shape, copy, path, cur);
    OwnsAt(J.F, cur);
    if J.F.kids[cur] != [] {
      assert J.F.kids[cur][0] in tree.shape.up;
    }
  }

  lemma ArrivedWalks<N>(J: Job<N>, G: Forest<N>, copy: map<N, N>, path: seq<N>)
    requires Arrived(J, G, copy, path)
    ensures Walking(J, G, copy, path)
  {
  }

  lemma LeavingWalks<N>(J: Job<N>, G: Forest<N>, copy: map<N, N>, path: seq<N>)
    requires Leaving(J, G, copy, path)
    ensures Walking(J, G, copy, path)
  {
  }

  lemma NewNode<N>(J: Job<N>, G: Forest<N>, copy: map<N, N>, path: seq<N>, k: nat, source: N, y: N)
    requires Walking(J, G, copy, path) && k < |path| && path[k] in copy && copy[path[k]] in G.kids
      && path[k] in J.F.kids
    requires |G.kids[copy[path[k]]]| < |J.F.kids[path[k]]| && source == NextChild(J, G, copy, path[k])
    requires CanAppend(G, copy[path[k]], y) && forall i :: k < i < |path| ==> Whole(J, G, copy, path[i])
    ensures copy[path[k]] in G.rank && source !in copy
    ensures Arrived(J, Appended(G, copy[path[k]], y), copy[source := y], path[..k + 1] + [source])
  {
    hide WellFormed, Walking, Arrived, Appended, Whole;
    NextIsNew(J, G, copy, path, path[k], y);
    CopyWalks(J, G, copy, path, k, y);
  }

  // One new node, the copy of `source`.
  method CopyNext<T>(tree: Tree<T>, ghost J: Job<TreeNode?<T>>, ghost copy: map<TreeNode?<T>, TreeNode?<T>>,
      ghost path: seq<TreeNode?<T>>, ghost k: nat, target: TreeNode<T>, source: TreeNode<T>)
    returns (tmp: TreeNode<T>, ghost more: map<TreeNode?<T>, TreeNode?<T>>, ghost road: seq<TreeNode?<T>>)
    requires tree.Valid() && CopiesData(tree, copy) && Walking(J, tree.shape, copy, path) && k < |path|
    requires forall i :: k < i < |path| ==> Whole(J, tree.shape, copy, path[i])
    requires path[k] in copy && copy[path[k]] == target && target in tree.nodes && source in tree.nodes
    requires target in tree.shape.kids && path[k] in J.F.kids && |tree.shape.kids[target]| < |J.F.kids[path[k]]|
    requires NextChild(J, tree.shape, copy, path[k]) == source
    modifies tree, tree.nodes
    ensures tree.Valid() && CopiesData(tree, more) && more == copy[source := tmp] && road == path[..k + 1] + [source]
    ensures AtNode(tree, J, more, road, source, tmp)
    ensures source !in copy
    ensures tree.nodes == old(tree.nodes) + {tmp} && fresh(tmp)
    ensures forall n :: n in old(tree.nodes) ==> n.data == old(n.data)
  {
    hide WellFormed, BelowAny, PointersOf, Ready, Walking, Framed, Copies, Copied, Arrived, Appended, CanAppend,
      Whole, Leads, InSource, Tree.Valid, NextChild;
    ghost var G := tree.shape;
    tmp := tree.AppendChild(target, source.data);
    NewNode(J, G, copy, path, k, source, tmp);
    more, road := copy[source := tmp], path[..k + 1] + [source];
  }

  lemma OutsideForest<N>(F: Forest<N>, n: N)
    requires WellFormed(F) && F.top != n && n !in F.up
    ensures n !in F.kids
  {
  }
}
