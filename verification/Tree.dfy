// The tree of linked nodes: every node points to its parent, its first and last
// child and its neighbours.

module Trees {
  import opened Signs
  import opened Forests
  import opened ForestEdits
  import opened ForestMoves

  class TreeNode<T> {
    var parent: TreeNode?<T>
    var firstChild: TreeNode?<T>
    var lastChild: TreeNode?<T>
    var prevSibling: TreeNode?<T>
    var nextSibling: TreeNode?<T>
    var data: T

    constructor (x: T)
      ensures data == x && parent == null && firstChild == null && lastChild == null
      ensures prevSibling == null && nextSibling == null
    {
      data, parent, firstChild, lastChild, prevSibling, nextSibling := x, null, null, null, null, null;
    }

    ghost function Stored(): Pointers<TreeNode?<T>>
      reads this
    {
      Pointers(parent, prevSibling, nextSibling, firstChild, lastChild)
    }
  }

  // The nodes that are not below M, and those that are below one node.
  ghost function Left<T>(F: Forest<TreeNode?<T>>, all: set<TreeNode<T>>, M: set<TreeNode?<T>>): (r: set<TreeNode<T>>)
    requires WellFormed(F)
    ensures r <= all
  {
    set n | n in all && !BelowAny(F, n, M)
  }

  ghost function BelowIn<T>(F: Forest<TreeNode?<T>>, all: set<TreeNode<T>>, p: TreeNode<T>): set<TreeNode<T>>
    requires WellFormed(F)
  {
    set n | n in all && BelowAny(F, n, {p})
  }

  lemma LeftNothing<T>(F: Forest<TreeNode?<T>>, all: set<TreeNode<T>>)
    requires WellFormed(F)
    ensures Left(F, all, {}) == all
  {
    forall n | n in all ensures !BelowAny(F, n, {}) { BelowNone(F, n); }
  }

  class Tree<T> {
    // The nodes in use, and the shape their pointers have.
    ghost var nodes: set<TreeNode<T>>
    ghost var shape: Forest<TreeNode?<T>>

    ghost predicate Shaped()
      reads this
    {
      && shape.top == null && WellFormed(shape)
      && (forall n :: n in shape.up ==> n != null && n in nodes)
      && (forall n :: n in nodes ==> n in shape.up)
    }

    // All pointers of a node are as the shape says.
    ghost predicate Linked(n: TreeNode<T>)
      reads this, n
    {
      n in shape.up && n in shape.kids && shape.up[n] in shape.kids && n.Stored() == PointersOf(shape, n)
    }

    // What debug_verify_consistency checks, and that the nodes form a tree.
    ghost predicate Valid()
      reads this, nodes
    {
      Shaped() && forall n :: n in nodes ==> Linked(n)
    }

    // All children become next siblings of the node itself.
    method Flatten(position: TreeNode<T>)
      requires Valid() && position in nodes && (position.parent != null || position.nextSibling != null)
      modifies `shape, nodes
      ensures Valid() && nodes == old(nodes)
      ensures old(shape.kids[position]) == [] ==> shape == old(shape)
      ensures old(shape.kids[position]) != [] ==> shape == Flattened(old(shape), position)
      ensures forall n :: n in nodes ==> n.data == old(n.data)
    {
      hide WellFormed, PointersOf, Flattened, FlattenedPointers;
      NoChildren(shape, position);
      if position.firstChild == null { return; }
      ghost var F := shape;
      UnfoldChildren(position);
      shape := Flattened(F, position);
      assert Shaped() by {
        FlattenedWellFormed(F, position);
        FlattenedKeys(F, position);
      }
      forall n | n in nodes ensures Linked(n) {
        FlattenedPointersAre(F, position, n);
      }
    }

    // Everything below the node is destroyed.
    method EraseChildren(it: TreeNode<T>)
      requires Valid() && it in nodes
      modifies `shape, `nodes, nodes`firstChild, nodes`lastChild
      ensures Valid() && nodes == Left(old(shape), old(nodes), {it}) && shape == CutBelow(old(shape), {it})
      decreases BelowIn(shape, nodes, it), 1
    {
      hide WellFormed, After, Before, CutBelow, BelowAny, Left;
      ghost var F, all := shape, nodes;
      ghost var cs := F.kids[it];
      ghost var i := 0;
      NoChildren(F, it);
      OwnsAt(F, it);
      CutNothing(F);
      LeftNothing(F, all);
      assert Linked(it);
      var cur := it.firstChild;
      assert cs[..0] == [] && Elems<TreeNode?<T>>([]) == {};
      while cur != null
        invariant i <= |cs| && cur == if i < |cs| then cs[i] else null
        invariant Valid() && it in nodes && shape == CutBelow(F, Elems(cs[..i]))
          && nodes == Left(F, all, Elems(cs[..i]))
        decreases |cs| - i
      {
        var prev := cur;
        EraseRound(F, it, i);
        assert Linked(prev);
        cur := cur.nextSibling;
        EraseChild(prev, F, all, it, i);
        i := i + 1;
      }
      assert cs[..i] == cs;
      DropChildren(it, F, all);
    }

    // One round of its loop.
    method EraseChild(prev: TreeNode<T>, ghost F: Forest<TreeNode?<T>>, ghost all: set<TreeNode<T>>,
        ghost it: TreeNode<T>, ghost i: nat)
      requires Valid() && WellFormed(F) && it in nodes && it in F.up && it in F.kids && i < |F.kids[it]|
        && prev == F.kids[it][i]
      requires shape == CutBelow(F, Elems(F.kids[it][..i])) && nodes == Left(F, all, Elems(F.kids[it][..i]))
        && prev in nodes
      modifies `shape, `nodes, nodes`firstChild, nodes`lastChild
      ensures Valid() && it in nodes
      ensures shape == CutBelow(F, Elems(F.kids[it][..i + 1])) && nodes == Left(F, all, Elems(F.kids[it][..i + 1]))
      decreases BelowIn(F, all, it), 0
    {
      hide WellFormed, PointersOf, CutBelow, BelowAny;
      ghost var G := shape;
      EraseRound(F, it, i);
      forall n: TreeNode<T> | n in all
        ensures BelowAny(F, n, Elems(F.kids[it][..i + 1]))
          <==> BelowAny(F, n, Elems(F.kids[it][..i])) || BelowAny(G, n, {prev})
        ensures BelowAny(G, n, {prev}) ==> BelowAny(F, n, {it})
      {
        LeftAfterRound(F, it, i, n);
      }
      NotBelowSelf(G, prev);
      BelowIs(F, prev, {it});
      OwnsAt(F, it);
      assert prev in BelowIn(F, all, it) && prev !in BelowIn(G, nodes, prev);
      EraseChildren(prev);
    }

    // The end of erase_children: the children themselves go.
    method DropChildren(it: TreeNode<T>, ghost F: Forest<TreeNode?<T>>, ghost all: set<TreeNode<T>>)
      requires Valid() && WellFormed(F) && it in nodes && it in F.up && it in F.kids && F.top == null
      requires shape == CutBelow(F, Elems(F.kids[it])) && nodes == Left(F, all, Elems(F.kids[it]))
      requires forall n :: n in F.up <==> n != null && n in all
      modifies `shape, `nodes, it`firstChild, it`lastChild
      ensures Valid() && nodes == Left(F, all, {it}) && shape == CutBelow(F, {it})
    {
      hide WellFormed, PointersOf, CutBelow, BelowAny;
      it.firstChild := null;
      it.lastChild := null;
      ghost var before := nodes;
      shape := CutBelow(F, {it});
      nodes := Left(F, all, {it});
      assert Shaped() by { CutShaped(F, {it}); }
      forall n | n in nodes ensures Linked(n) {
        EraseEnd(F, it, n);
        assert n in before && old(Linked(n));
      }
    }

    // erase, for a node without children.
    method EraseLeaf(cur: TreeNode<T>)
      requires Valid() && cur in nodes && shape.kids[cur] == []
      requires cur.parent != null || (cur.prevSibling != null && cur.nextSibling != null)
      modifies `shape, `nodes, nodes
      ensures nodes == old(nodes) - {cur} && CanPut(old(shape), cur, []) && shape == Put(old(shape), cur, [])
      ensures Valid()
      ensures forall n :: n in nodes ==> n.data == old(n.data)
    {
      hide WellFormed, PointersOf, Put, PutPointers, CanPut;
      ghost var F := shape;
      assert CanPut(F, cur, []) by { EmptyPut(F, cur); }
      UnlinkLeaf(cur);
      shape := Put(F, cur, []);
      nodes := nodes - {cur};
      assert Shaped() by {
        PutWellFormed(F, cur, []);
        PutKeys(F, cur, []);
      }
      forall n | n in nodes ensures Linked(n) {
        PutKeys(F, cur, []);
        PutPointersAre(F, cur, [], n);
      }
    }

    method UnlinkLeaf(cur: TreeNode<T>)
      requires Valid() && cur in nodes && CanPut(shape, cur, [])
      requires cur.parent != null || (cur.prevSibling != null && cur.nextSibling != null)
      modifies nodes
      ensures forall n :: n in nodes && n != cur ==>
        n.data == old(n.data) && n.Stored() == PutPointers(shape, cur, [], n)
    {
      hide WellFormed, After, Before;
      Points(cur);
      Unlink(cur, nodes);
      forall n | n in nodes && n != cur ensures n.Stored() == PutPointers(shape, cur, [], n) {
        assert old(Linked(n));
        assert old(Linked(cur));
      }
    }

    // The first half of replace: x in place of a node without children.
    method ReplaceLeaf(cur: TreeNode<T>, x: T) returns (tmp: TreeNode<T>)
      requires Valid() && cur in nodes && shape.kids[cur] == []
      modifies `shape, `nodes, nodes
      ensures fresh(tmp) && tmp.data == x && nodes == old(nodes) - {cur} + {tmp}
      ensures CanPut(old(shape), cur, [tmp]) && shape == Put(old(shape), cur, [tmp])
      ensures Valid()
      ensures forall n :: n in nodes && n != tmp ==> n.data == old(n.data)
    {
      hide WellFormed, PointersOf, Put, PutPointers, CanPut;
      ghost var F := shape;
      tmp := LinkForLeaf(cur, x);
      shape := Put(F, cur, [tmp]);
      nodes := nodes - {cur} + {tmp};
      assert Shaped() by {
        PutWellFormed(F, cur, [tmp]);
        PutKeys(F, cur, [tmp]);
      }
      forall n | n in nodes ensures Linked(n) {
        PutKeys(F, cur, [tmp]);
        PutPointersAre(F, cur, [tmp], n);
      }
    }

    method LinkForLeaf(cur: TreeNode<T>, x: T) returns (tmp: TreeNode<T>)
      requires Valid() && cur in nodes && shape.kids[cur] == []
      modifies nodes
      ensures fresh(tmp) && tmp.data == x && CanPut(shape, cur, [tmp])
        && tmp.Stored() == PutPointers(shape, cur, [tmp], tmp)
      ensures forall n :: n in nodes && n != cur ==>
        n.data == old(n.data) && n.Stored() == PutPointers(shape, cur, [tmp], n)
    {
      hide WellFormed, After, Before;
      Points(cur);
      tmp := LinkInstead(cur, x, nodes);
      assert old(Linked(cur));
      NotThere(shape, tmp);
      forall n | n in nodes && n != cur ensures n.Stored() == PutPointers(shape, cur, [tmp], n) {
        assert old(Linked(n));
      }
    }

    // A node and everything below it is destroyed.
    method Erase(cur: TreeNode<T>)
      requires Valid() && cur in nodes
      requires cur.parent != null || (cur.prevSibling != null && cur.nextSibling != null)
      modifies `shape, `nodes, nodes
      ensures Valid() && nodes == Left(old(shape), old(nodes), {cur}) - {cur}
      ensures CanPut(CutBelow(old(shape), {cur}), cur, []) && shape == Put(CutBelow(old(shape), {cur}), cur, [])
      ensures forall n :: n in nodes ==> n.data == old(n.data)
    {
      hide WellFormed, PointersOf, CutBelow, Put, BelowAny;
      StillThere(shape, cur);
      EraseChildren(cur);
      EraseLeaf(cur);
    }

    method AppendChild(position: TreeNode<T>, x: T) returns (tmp: TreeNode<T>)
      requires Valid() && position in nodes
      modifies `shape, `nodes, nodes
      ensures fresh(tmp) && tmp.data == x && nodes == old(nodes) + {tmp}
      ensures CanAppend(old(shape), position, tmp) && shape == Appended(old(shape), position, tmp)
      ensures Valid()
      ensures forall n :: n in nodes && n != tmp ==> n.data == old(n.data)
    {
      hide WellFormed, PointersOf, Appended, AppendedPointers, CanAppend, HeadOf, LastOf;
      ghost var F := shape;
      tmp := LinkChild(position, x);
      AppendedNodes(F, nodes, position, tmp);
      shape := Appended(F, position, tmp);
      nodes := nodes + {tmp};
      assert Shaped();
      forall n | n in nodes ensures Linked(n) {
        AppendedPointersAre(F, position, tmp, n);
      }
    }

    method LinkChild(position: TreeNode<T>, x: T) returns (tmp: TreeNode<T>)
      requires Valid() && position in nodes
      modifies nodes
      ensures fresh(tmp) && tmp.data == x && CanAppend(shape, position, tmp)
      ensures tmp.Stored() == AppendedPointers(shape, position, tmp, tmp)
      ensures forall n :: n in nodes ==>
        n.data == old(n.data) && n.Stored() == AppendedPointers(shape, position, tmp, n)
    {
      hide WellFormed, After, Before;
      assert Linked(position);
      LastPoints(shape, position);
      tmp := new TreeNode(x);
      NotThere(shape, tmp);
      tmp.parent := position;
      if position.lastChild != null {
        position.lastChild.nextSibling := tmp;
      } else {
        position.firstChild := tmp;
      }
      tmp.prevSibling := position.lastChild;
      position.lastChild := tmp;
      tmp.nextSibling := null;
      forall n | n in nodes ensures n.Stored() == AppendedPointers(shape, position, tmp, n) {
        assert old(Linked(n));
      }
    }

    // The range from begin up to, not including, end goes to the end of the list
    // of position. It is the part m of the list a + m + b of the node p.
    method Reparent(position: TreeNode<T>, begin: TreeNode<T>, end: TreeNode?<T>, ghost p: TreeNode?<T>,
        ghost a: seq<TreeNode?<T>>, ghost m: seq<TreeNode?<T>>, ghost b: seq<TreeNode?<T>>)
      returns (first: TreeNode<T>)
      requires Valid() && begin == HeadOf(null, m + b) && end == HeadOf(null, b)
      requires m != [] ==> CanMove(shape, position, p, a, m, b) && (p != null || (a != [] && b != []))
      modifies `shape, nodes
      ensures first == begin && nodes == old(nodes)
      ensures shape == if m == [] then old(shape) else Moved(old(shape), position, p, a, m, b)
      ensures Valid()
      ensures forall n :: n in nodes ==> n.data == old(n.data)
    {
      hide WellFormed, PointersOf, Moved, BelowAny;
      first := begin;
      if m != [] { MoveFacts(shape, position, p, a, m, b); }
      EmptyRange<TreeNode?<T>>(null, m, b);
      if begin == end { return; }
      MoveSome(position, begin, end, p, a, m, b);
    }

    // All children of `from` go to the end of the list of position.
    method ReparentChildren(position: TreeNode<T>, from: TreeNode<T>)
      requires Valid() && from in nodes
      requires shape.kids[from] != [] ==> CanMove(shape, position, from, [], shape.kids[from], [])
      modifies `shape, nodes
      ensures nodes == old(nodes)
      ensures shape == if old(shape.kids[from]) == [] then old(shape)
                       else Moved(old(shape), position, from, [], old(shape.kids[from]), [])
      ensures Valid()
      ensures forall n :: n in nodes ==> n.data == old(n.data)
    {
      hide WellFormed, After, Before, Moved, CanMove;
      ghost var cs := shape.kids[from];
      NoChildren(shape, from);
      if from.firstChild == null { return; }
      assert cs + [] == cs;
      var first := Reparent(position, from.firstChild, null, from, [], cs, []);
    }

    method MoveSome(position: TreeNode<T>, begin: TreeNode<T>, end: TreeNode?<T>, ghost p: TreeNode?<T>,
        ghost a: seq<TreeNode?<T>>, ghost m: seq<TreeNode?<T>>, ghost b: seq<TreeNode?<T>>)
      requires Valid() && begin == HeadOf(null, m + b) && end == HeadOf(null, b)
      requires CanMove(shape, position, p, a, m, b) && (p != null || (a != [] && b != []))
      modifies `shape, nodes
      ensures Valid() && shape == Moved(old(shape), position, p, a, m, b)
      ensures forall n :: n in nodes ==> n.data == old(n.data)
    {
      hide WellFormed, PointersOf, Moved, MovedPointers, BelowAny, CanMove, HeadOf;
      ghost var F := shape;
      MoveRange(position, begin, end, p, a, m, b);
      shape := Moved(F, position, p, a, m, b);
      assert Shaped() by {
        MovedKeys(F, position, p, a, m, b);
        MovedWellFormed(F, position, p, a, m, b);
      }
      forall n | n in nodes ensures Linked(n) {
        MovedPointersAre(F, position, p, a, m, b, n);
      }
    }

    method MoveRange(position: TreeNode<T>, begin: TreeNode<T>, end: TreeNode?<T>, ghost p: TreeNode?<T>,
        ghost a: seq<TreeNode?<T>>, ghost m: seq<TreeNode?<T>>, ghost b: seq<TreeNode?<T>>)
      requires Valid() && begin == HeadOf(null, m + b) && end == HeadOf(null, b)
      requires CanMove(shape, position, p, a, m, b) && (p != null || (a != [] && b != []))
      modifies nodes
      ensures forall n :: n in nodes ==>
        n.data == old(n.data) && n.Stored() == MovedPointers(shape, position, p, a, m, b, n)
    {
      hide WellFormed, After, Before, BelowAny, MovedPointers;
      MoveFacts(shape, position, p, a, m, b);
      RangeLinks(position, p, a, m, b);
      var last := LastOfRange(begin, end, m, nodes);
      SpliceRange(position, begin, last, p, a, m, b);
    }

    // The range m as the pointers see it.
    lemma RangeLinks(position: TreeNode<T>, p: TreeNode?<T>, a: seq<TreeNode?<T>>, m: seq<TreeNode?<T>>,
        b: seq<TreeNode?<T>>)
      requires Valid() && CanMove(shape, position, p, a, m, b)
      ensures forall i :: 0 <= i < |m| ==> m[i] != null && m[i] in nodes && m[i].parent == p
      ensures forall i :: 0 <= i < |m| ==> Follows(m, HeadOf(null, b), i)
      ensures m[0].prevSibling == LastOf(null, a)
    {
      hide WellFormed, After, Before, BelowAny;
      MoveFacts(shape, position, p, a, m, b);
      forall i | 0 <= i < |m|
        ensures m[i] != null && m[i] in nodes && m[i].parent == p
        ensures Follows(m, HeadOf(null, b), i)
      {
        assert MoveAt(shape, p, a, m, b, i);
        assert Linked(m[i]);
      }
      assert Linked(m[0]);
    }

    method SpliceRange(position: TreeNode<T>, first: TreeNode<T>, last: TreeNode<T>, ghost p: TreeNode?<T>,
        ghost a: seq<TreeNode?<T>>, ghost m: seq<TreeNode?<T>>, ghost b: seq<TreeNode?<T>>)
      requires Valid() && CanMove(shape, position, p, a, m, b) && first == m[0] && last == m[|m| - 1]
      requires p != null || (a != [] && b != [])
      modifies nodes
      ensures forall n :: n in nodes ==>
        n.data == old(n.data) && n.Stored() == MovedPointers(shape, position, p, a, m, b, n)
    {
      hide WellFormed, After, Before, BelowAny, MovedPointers, Relinked;
      ghost var F := shape;
      MoveFacts(F, position, p, a, m, b);
      TargetEnds(F, position, p, a, m, b);
      RangeLinks(position, p, a, m, b);
      TopLevelEnds(F, position, p, a, m, b);
      assert Linked(position) && Follows(m, HeadOf(null, b), |m| - 1);
      CutOut(position, first, last, m, nodes);
      forall n | n in nodes ensures n.Stored() == MovedPointers(F, position, p, a, m, b, n) {
        assert old(Linked(n));
        RelinkedIsMoved(F, position, p, a, m, b, n);
      }
    }

    lemma Points(x: TreeNode<T>)
      requires Valid() && x in nodes
      ensures x.parent != null ==> x.parent in nodes
      ensures x.prevSibling != null ==> x.prevSibling in nodes
      ensures x.nextSibling != null ==> x.nextSibling in nodes
      ensures x !in {x.parent, x.prevSibling, x.nextSibling}
    {
      hide WellFormed, After, Before;
      AroundPoints(shape, x);
      assert Linked(x);
    }

    // ... as long as there are children.
    method UnfoldChildren(position: TreeNode<T>)
      requires Valid() && position in nodes && (position.parent != null || position.nextSibling != null)
      requires shape.kids[position] != []
      modifies nodes
      ensures forall n :: n in nodes ==> n.data == old(n.data) && n.Stored() == FlattenedPointers(shape, position, n)
    {
      hide WellFormed, After, Before, Flattened;
      ghost var F, cs := shape, shape.kids[position];
      FlattenPoints(F, position);
      forall i | 0 <= i < |cs|
        ensures cs[i] != null && cs[i] in nodes && cs[i].nextSibling == if i + 1 < |cs| then cs[i + 1] else null
      {
        assert ChildAt(F, position, i);
        assert Linked(cs[i]);
      }
      assert ChildAt(F, position, |cs| - 1) && cs[|cs| - 1] == position.lastChild;
      SetParents(position, cs, nodes);
      Unfold(position, nodes);
      forall n | n in nodes ensures n.Stored() == FlattenedPointers(F, position, n) {
        assert old(Linked(n));
        ChildrenAre(F, position, n);
      }
    }
  }

  // The end of erase: a node without children is taken out.
  method Unlink<T>(cur: TreeNode<T>, ghost nodes: set<TreeNode<T>>)
    requires cur in nodes && (cur.parent != null ==> cur.parent in nodes)
    requires if cur.prevSibling != null then cur.prevSibling in nodes else cur.parent != null
    requires if cur.nextSibling != null then cur.nextSibling in nodes else cur.parent != null
    requires cur !in {cur.parent, cur.prevSibling, cur.nextSibling}
    modifies nodes
    ensures forall n :: n in nodes ==> n.parent == old(n.parent) && n.data == old(n.data)
    ensures forall n :: n in nodes ==>
      n.nextSibling == if n == old(cur.prevSibling) then old(cur.nextSibling) else old(n.nextSibling)
    ensures forall n :: n in nodes ==>
      n.prevSibling == if n == old(cur.nextSibling) then old(cur.prevSibling) else old(n.prevSibling)
    ensures forall n :: n in nodes ==> (n.firstChild ==
      if n == old(cur.parent) && old(cur.prevSibling) == null then old(cur.nextSibling) else old(n.firstChild))
    ensures forall n :: n in nodes ==> (n.lastChild ==
      if n == old(cur.parent) && old(cur.nextSibling) == null then old(cur.prevSibling) else old(n.lastChild))
  {
    if cur.prevSibling == null {
      cur.parent.firstChild := cur.nextSibling;
    } else {
      cur.prevSibling.nextSibling := cur.nextSibling;
    }
    if cur.nextSibling == null {
      cur.parent.lastChild := cur.prevSibling;
    } else {
      cur.nextSibling.prevSibling := cur.prevSibling;
    }
  }

  // The start of replace: a new node takes the place of one without children.
  method LinkInstead<T>(cur: TreeNode<T>, x: T, ghost nodes: set<TreeNode<T>>) returns (tmp: TreeNode<T>)
    requires cur in nodes && (cur.parent != null ==> cur.parent in nodes)
    requires cur.prevSibling != null ==> cur.prevSibling in nodes
    requires cur.nextSibling != null ==> cur.nextSibling in nodes
    requires cur !in {cur.parent, cur.prevSibling, cur.nextSibling}
    modifies nodes
    ensures fresh(tmp) && tmp.data == x
    ensures tmp.Stored() == Pointers(old(cur.parent), old(cur.prevSibling), old(cur.nextSibling), null, null)
    ensures forall n :: n in nodes ==> n.parent == old(n.parent) && n.data == old(n.data)
    ensures forall n :: n in nodes ==> n.nextSibling == if n == old(cur.prevSibling) then tmp else old(n.nextSibling)
    ensures forall n :: n in nodes ==> n.prevSibling == if n == old(cur.nextSibling) then tmp else old(n.prevSibling)
    ensures forall n :: n in nodes ==> (n.firstChild ==
      if n == old(cur.parent) && old(cur.prevSibling) == null then tmp else old(n.firstChild))
    ensures forall n :: n in nodes ==> (n.lastChild ==
      if n == old(cur.parent) && old(cur.nextSibling) == null then tmp else old(n.lastChild))
  {
    tmp := new TreeNode(x);
    if cur.prevSibling == null {
      if cur.parent != null { cur.parent.firstChild := tmp; }
    } else {
      cur.prevSibling.nextSibling := tmp;
    }
    tmp.prevSibling := cur.prevSibling;
    if cur.nextSibling == null {
      if cur.parent != null { cur.parent.lastChild := tmp; }
    } else {
      cur.nextSibling.prevSibling := tmp;
    }
    tmp.nextSibling := cur.nextSibling;
    tmp.parent := cur.parent;
  }

  // Where the neighbours and the parent of a node are.
  lemma AroundPoints<N>(F: Forest<N>, x: N)
    requires WellFormed(F) && x in F.up
    ensures F.up[x] in F.kids && (F.up[x] in F.up || F.up[x] == F.top) && F.up[x] != x
    ensures After(F, x) == F.top || (After(F, x) in F.up && After(F, x) != x)
    ensures Before(F, x) == F.top || (Before(F, x) in F.up && Before(F, x) != x)
  {
    SelfDiffers(F, x);
    Around(F, x);
    OwnsAt(F, F.up[x]);
    DistinctParts(UpTo(F, x) + [x], Beyond(F, x));
    DistinctParts(UpTo(F, x), [x]);
    HeadIsMember(F.top, Beyond(F, x));
    LastIsMember(F.top, UpTo(F, x));
  }

  lemma CutShaped<N>(F: Forest<N>, M: set<N>)
    requires WellFormed(F)
    ensures var G := CutBelow(F, M);
            WellFormed(G) && G.top == F.top && forall n :: n in G.up <==> n in F.up && !BelowAny(F, n, M)
  {
    hide WellFormed;
    CutWellFormed(F, M);
  }

  lemma AppendedNodes<T>(F: Forest<TreeNode?<T>>, nodes: set<TreeNode<T>>, p: TreeNode<T>, c: TreeNode<T>)
    requires CanAppend(F, p, c) && F.top == null
    requires forall n :: n in F.up ==> n != null && n in nodes
    requires forall n :: n in nodes ==> n in F.up
    ensures p in F.kids && p in F.rank
    ensures var G := Appended(F, p, c);
            && WellFormed(G) && G.top == null
            && (forall n :: n in G.up ==> n != null && n in nodes + {c})
            && (forall n :: n in nodes + {c} ==> n in G.up)
  {
    AppendedKeys(F, p, c);
    AppendedWellFormed(F, p, c);
  }

  lemma EmptyPut<N>(F: Forest<N>, x: N)
    requires WellFormed(F) && x in F.up
    ensures x in F.kids && (F.kids[x] == [] ==> CanPut(F, x, []))
  {
  }

  lemma NotThere<N>(F: Forest<N>, y: N)
    requires WellFormed(F) && y != F.top && y !in F.up
    ensures y !in F.kids
  {
  }

  lemma EmptyRange<N>(top: N, m: seq<N>, b: seq<N>)
    ensures HeadOf(top, m + b) == HeadOf(top, b) && Distinct(m + b) && top !in m ==> m == []
    ensures m == [] ==> HeadOf(top, m + b) == HeadOf(top, b)
  {
    assert m == [] ==> m + b == b;
    HeadIsMember(top, b);
    if m != [] && Distinct(m + b) { DistinctParts(m, b); }
  }

  ghost predicate MoveAt<N>(F: Forest<N>, p: N, a: seq<N>, m: seq<N>, b: seq<N>, i: nat) {
    && i < |m| && m[i] in F.up && F.up[m[i]] == p && p in F.kids
    && After(F, m[i]) == if i + 1 < |m| then m[i + 1] else HeadOf(F.top, b)
  }

  // What reparent may rely on when it follows the pointers.
  lemma MoveFacts<N>(F: Forest<N>, pos: N, p: N, a: seq<N>, m: seq<N>, b: seq<N>)
    requires CanMove(F, pos, p, a, m, b)
    ensures forall i :: 0 <= i < |m| ==> MoveAt(F, p, a, m, b, i)
    ensures Distinct(m + b) && Distinct(m) && F.top !in m && HeadOf(F.top, b) !in m && LastOf(F.top, a) !in m
    ensures m[0] in F.up && F.up[m[0]] == p && p in F.kids && Before(F, m[0]) == LastOf(F.top, a)
    ensures (p == F.top || p in F.up) && p !in m
    ensures LastOf(F.top, a) == F.top || (LastOf(F.top, a) in F.up && LastOf(F.top, a) != HeadOf(F.top, b))
    ensures HeadOf(F.top, b) == F.top || HeadOf(F.top, b) in F.up
  {
    hide WellFormed, BelowAny;
    MovedParts(F, pos, p, a, m, b);
    TopIsNoChild(F, p);
    InTheForest(F, p);
    assert a + m + b == a + (m + b);
    DistinctParts(a, m + b);
    DistinctParts(a + m, b);
    DistinctParts(a, m);
    DistinctParts(a, b);
    HeadIsMember(F.top, b);
    LastIsMember(F.top, a);
    forall i | 0 <= i < |m| ensures MoveAt(F, p, a, m, b, i) {
      NeighboursAt(F.top, a + m + b, |a| + i);
    }
    NeighboursAt(F.top, a + m + b, |a|);
    SelfDiffers(F, m[0]);
    forall n | n in m ensures n != p { SelfDiffers(F, n); }
  }

  // What the surgery of reparent makes of the pointers `was` of a node n.
  ghost function Relinked<N>(top: N, pos: N, p: N, m: seq<N>, L: N, R: N, Q: N, E: N, was: Pointers<N>,
      n: N): Pointers<N>
    requires m != []
  {
    Pointers(
      if n in m then pos else was.parent,
      if n == m[0] then Q else if n == R then L else was.prev,
      if n == m[|m| - 1] then top else if n == Q then m[0] else if n == L then R else was.next,
      if n == pos && E == top then m[0] else if n == p && L == top then R else was.first,
      if n == pos then m[|m| - 1] else if n == p && R == top then L else was.last)
  }

  lemma RelinkedIsMoved<N>(F: Forest<N>, pos: N, p: N, a: seq<N>, m: seq<N>, b: seq<N>, n: N)
    requires CanMove(F, pos, p, a, m, b) && n in F.up
    ensures n in F.kids && F.up[n] in F.kids && pos in F.kids
    ensures var L, R := LastOf(F.top, a), HeadOf(F.top, b);
            var Q := if pos == p && R == F.top then L else LastOf(F.top, F.kids[pos]);
            var E := if pos == p && L == F.top then R else HeadOf(F.top, F.kids[pos]);
            Relinked(F.top, pos, p, m, L, R, Q, E, PointersOf(F, n), n) == MovedPointers(F, pos, p, a, m, b, n)
  {
    hide WellFormed, BelowAny, After, Before;
    TargetEnds(F, pos, p, a, m, b);
    SelfDiffers(F, n);
  }

  // What reparent reads at position.
  lemma TargetEnds<N>(F: Forest<N>, pos: N, p: N, a: seq<N>, m: seq<N>, b: seq<N>)
    requires CanMove(F, pos, p, a, m, b)
    ensures pos in F.kids && pos in F.up && (pos == p ==> F.kids[pos] != [])
    ensures LastOf(F.top, Target(F, pos, p, a, b))
         == if pos == p && HeadOf(F.top, b) == F.top then LastOf(F.top, a) else LastOf(F.top, F.kids[pos])
    ensures Target(F, pos, p, a, b) == []
       <==> (if pos == p && LastOf(F.top, a) == F.top then HeadOf(F.top, b) else HeadOf(F.top, F.kids[pos])) == F.top
    ensures LastOf(F.top, F.kids[pos]) == F.top || LastOf(F.top, F.kids[pos]) in F.up
    ensures LastOf(F.top, F.kids[pos]) in m ==> pos == p && HeadOf(F.top, b) == F.top
    ensures HeadOf(F.top, F.kids[pos]) == F.top <==> LastOf(F.top, F.kids[pos]) == F.top
    ensures pos == p ==> HeadOf(F.top, F.kids[pos]) != F.top
  {
    hide WellFormed, BelowAny;
    MovedParts(F, pos, p, a, m, b);
    MoveFacts(F, pos, p, a, m, b);
    TopIsNoChild(F, pos);
    TopIsNoChild(F, p);
    OwnsAt(F, pos);
    LastIsMember(F.top, F.kids[pos]);
    HeadIsMember(F.top, F.kids[pos]);
    LastIsMember(F.top, a);
    HeadIsMember(F.top, b);
  }

  lemma TopLevelEnds<N>(F: Forest<N>, pos: N, p: N, a: seq<N>, m: seq<N>, b: seq<N>)
    requires CanMove(F, pos, p, a, m, b)
    ensures (a != [] ==> LastOf(F.top, a) != F.top) && (b != [] ==> HeadOf(F.top, b) != F.top) && pos !in m
  {
    TopIsNoChild(F, p);
  }

  // The node after m[i] is the next one of the list, and end after the last.
  ghost predicate Follows<T>(m: seq<TreeNode?<T>>, end: TreeNode?<T>, i: nat)
    requires i < |m| && m[i] != null
    reads m[i]
  {
    m[i].nextSibling == if i + 1 < |m| then m[i + 1] else end
  }

  // Walk to the last node of the range.
  method LastOfRange<T>(begin: TreeNode<T>, end: TreeNode?<T>, ghost m: seq<TreeNode?<T>>,
      ghost nodes: set<TreeNode<T>>) returns (last: TreeNode<T>)
    requires m != [] && begin == m[0] && end !in m
    requires forall i :: 0 <= i < |m| ==> m[i] != null && m[i] in nodes
    requires forall i :: 0 <= i < |m| ==> Follows(m, end, i)
    ensures last == m[|m| - 1]
  {
    last := begin;
    var it := begin.nextSibling;
    ghost var i := 0;
    assert Follows(m, end, 0);
    while it != end
      invariant i < |m| && last == m[i] && it == if i + 1 < |m| then m[i + 1] else end
      decreases |m| - i
    {
      assert Follows(m, end, i);
      assert i + 1 < |m| ==> Follows(m, end, i + 1);
      last := last.nextSibling;
      it := it.nextSibling;
      i := i + 1;
    }
  }

  // The pointer surgery of reparent.
  method CutOut<T>(position: TreeNode<T>, first: TreeNode<T>, last: TreeNode<T>, ghost m: seq<TreeNode?<T>>,
      ghost nodes: set<TreeNode<T>>)
    requires m != [] && first == m[0] && last == m[|m| - 1] && Distinct(m)
    requires forall i :: 0 <= i < |m| ==> m[i] != null && m[i] in nodes
    requires forall i :: 0 <= i < |m| ==> Follows(m, last.nextSibling, i)
    requires first.prevSibling !in m
      && (position.lastChild in m ==> position == first.parent && last.nextSibling == null)
    requires position in nodes && first in nodes && last in nodes && first.parent == last.parent
    requires first.parent != null ==> first.parent in nodes
    requires if first.prevSibling != null then first.prevSibling in nodes else first.parent != null
    requires if last.nextSibling != null then last.nextSibling in nodes else first.parent != null
    requires position.lastChild != null ==> position.lastChild in nodes
    requires position !in {first, last} && first.parent !in {first, last}
    requires first.prevSibling !in {first, last} && last.nextSibling !in {first, last}
    requires first.prevSibling != null ==> first.prevSibling != last.nextSibling
    requires position.firstChild == null <==> position.lastChild == null
    requires position == first.parent ==> position.firstChild != null
    modifies nodes
    ensures forall n :: n in nodes ==> n.data == old(n.data)
    ensures var L, R, p := old(first.prevSibling), old(last.nextSibling), old(first.parent);
            var Q := if position == p && R == null then L else old(position.lastChild);
            var E := if position == p && L == null then R else old(position.firstChild);
            forall n :: n in nodes ==> n.Stored() == Relinked(null, position, p, m, L, R, Q, E, old(n.Stored()), n)
  {
    ghost var end, L, p := last.nextSibling, first.prevSibling, first.parent;
    ghost var Q := if position == p && end == null then L else position.lastChild;
    ghost var E := if position == p && L == null then end else position.firstChild;
    Rejoin(position, first, last, nodes);
    forall i | 0 <= i < |m| ensures Follows(m, null, i) {
      assert old(Follows(m, end, i));
    }
    SetParentsUpTo(position, first, last, m, nodes);
    forall n | n in nodes ensures n.Stored() == Relinked(null, position, p, m, L, end, Q, E, old(n.Stored()), n) {}
  }

  method Rejoin<T>(position: TreeNode<T>, first: TreeNode<T>, last: TreeNode<T>, ghost nodes: set<TreeNode<T>>)
    requires position in nodes && first in nodes && last in nodes && first.parent == last.parent
    requires first.parent != null ==> first.parent in nodes
    requires if first.prevSibling != null then first.prevSibling in nodes else first.parent != null
    requires if last.nextSibling != null then last.nextSibling in nodes else first.parent != null
    requires position.lastChild != null ==> position.lastChild in nodes
    requires position !in {first, last} && first.parent !in {first, last}
    requires first.prevSibling !in {first, last} && last.nextSibling !in {first, last}
    requires first.prevSibling != null ==> first.prevSibling != last.nextSibling
    requires position.lastChild in {first, last} ==> position == first.parent && last.nextSibling == null
    requires position.firstChild == null <==> position.lastChild == null
    requires position == first.parent ==> position.firstChild != null
    modifies nodes
    ensures forall n :: n in nodes ==> n.parent == old(n.parent) && n.data == old(n.data)
    ensures var L, R, p := old(first.prevSibling), old(last.nextSibling), old(first.parent);
            var Q := if position == p && R == null then L else old(position.lastChild);
            var E := if position == p && L == null then R else old(position.firstChild);
      && (forall n :: n in nodes ==>
        n.nextSibling == if n == last then null else if n == Q then first else if n == L then R else old(n.nextSibling))
      && (forall n :: n in nodes ==>
        n.prevSibling == if n == first then Q else if n == R then L else old(n.prevSibling))
      && (forall n :: n in nodes ==>
        n.firstChild ==
          (if n == position && E == null then first else if n == p && L == null then R else old(n.firstChild)))
      && (forall n :: n in nodes ==>
        n.lastChild == if n == position then last else if n == p && R == null then L else old(n.lastChild))
  {
    Detach(first, last, nodes);
    Attach(position, first, last, nodes);
  }

  // The nodes from first to last leave their list ...
  method Detach<T>(first: TreeNode<T>, last: TreeNode<T>, ghost nodes: set<TreeNode<T>>)
    requires first in nodes && last in nodes && first.parent == last.parent
    requires first.parent != null ==> first.parent in nodes
    requires if first.prevSibling != null then first.prevSibling in nodes else first.parent != null
    requires if last.nextSibling != null then last.nextSibling in nodes else first.parent != null
    requires first.prevSibling !in {first, last} && last.nextSibling !in {first, last}
    modifies nodes
    ensures forall n :: n in nodes ==> n.parent == old(n.parent) && n.data == old(n.data)
    ensures var L, R, p := old(first.prevSibling), old(last.nextSibling), old(first.parent);
      && (forall n :: n in nodes ==> n.nextSibling == if n == L then R else old(n.nextSibling))
      && (forall n :: n in nodes ==> n.prevSibling == if n == R then L else old(n.prevSibling))
      && (forall n :: n in nodes ==> n.firstChild == if n == p && L == null then R else old(n.firstChild))
      && (forall n :: n in nodes ==> n.lastChild == if n == p && R == null then L else old(n.lastChild))
  {
    if first.prevSibling == null {
      first.parent.firstChild := last.nextSibling;
    } else {
      first.prevSibling.nextSibling := last.nextSibling;
    }
    if last.nextSibling == null {
      last.parent.lastChild := first.prevSibling;
    } else {
      last.nextSibling.prevSibling := first.prevSibling;
    }
  }

  // ... and join the end of another.
  method Attach<T>(position: TreeNode<T>, first: TreeNode<T>, last: TreeNode<T>, ghost nodes: set<TreeNode<T>>)
    requires position in nodes && first in nodes && last in nodes
    requires position.lastChild != null ==> position.lastChild in nodes && position.lastChild !in {first, last}
    requires position.firstChild == null <==> position.lastChild == null
    modifies nodes
    ensures forall n :: n in nodes ==> n.parent == old(n.parent) && n.data == old(n.data)
    ensures var Q, E := old(position.lastChild), old(position.firstChild);
      && (forall n :: n in nodes ==>
        n.nextSibling == if n == last then null else if n == Q then first else old(n.nextSibling))
      && (forall n :: n in nodes ==> n.prevSibling == if n == first then Q else old(n.prevSibling))
      && (forall n :: n in nodes ==> n.firstChild == if n == position && E == null then first else old(n.firstChild))
      && (forall n :: n in nodes ==> n.lastChild == if n == position then last else old(n.lastChild))
  {
    if position.firstChild == null {
      position.firstChild := first;
      position.lastChild := last;
      first.prevSibling := null;
    } else {
      position.lastChild.nextSibling := first;
      first.prevSibling := position.lastChild;
      position.lastChild := last;
    }
    last.nextSibling := null;
  }

  // The loop at the end of reparent.
  method SetParentsUpTo<T>(position: TreeNode<T>, first: TreeNode<T>, last: TreeNode<T>, ghost m: seq<TreeNode?<T>>,
      ghost nodes: set<TreeNode<T>>)
    requires m != [] && first == m[0] && last == m[|m| - 1] && Distinct(m)
    requires forall i :: 0 <= i < |m| ==> m[i] != null && m[i] in nodes
    requires forall i :: 0 <= i < |m| ==> Follows(m, null, i)
    modifies nodes`parent
    ensures forall n :: n in nodes ==> n.parent == if n in m then position else old(n.parent)
  {
    var pos := first;
    ghost var i := 0;
    while true
      invariant i < |m| && pos == m[i]
      invariant forall n :: n in nodes ==> n.parent == if n in m[..i] then position else old(n.parent)
      decreases |m| - i
    {
      assert Follows(m, null, i);
      pos.parent := position;
      if pos == last { break; }
      pos := pos.nextSibling;
      i := i + 1;
    }
    assert m[..i] + [m[i]] == m;
  }

  lemma StillThere<N>(F: Forest<N>, x: N)
    requires WellFormed(F) && x in F.up
    ensures !BelowAny(F, x, {x}) && x in F.kids
    ensures x in CutBelow(F, {x}).up && x in CutBelow(F, {x}).kids && CutBelow(F, {x}).kids[x] == []
  {
    NotBelowSelf(F, x);
    CutKeeps(F, {x}, x);
  }

  lemma LastPoints<N>(F: Forest<N>, p: N)
    requires WellFormed(F) && p in F.up
    ensures p in F.kids && (LastOf(F.top, F.kids[p]) == F.top <==> F.kids[p] == [])
    ensures F.kids[p] != [] ==> LastOf(F.top, F.kids[p]) in F.up && LastOf(F.top, F.kids[p]) != p
  {
    SelfDiffers(F, p);
    OwnsAt(F, p);
  }

  lemma NoChildren<N>(F: Forest<N>, x: N)
    requires WellFormed(F) && x in F.up
    ensures x in F.kids && F.up[x] in F.kids && (HeadOf(F.top, F.kids[x]) == F.top <==> F.kids[x] == [])
    ensures PointersOf(F, x).first == HeadOf(F.top, F.kids[x])
  {
    assert Owns(F, x) && Placed(F, x);
  }

  ghost predicate ChildAt<N>(F: Forest<N>, x: N, i: nat) {
    && x in F.kids && F.kids[x] != [] && i < |F.kids[x]| && F.kids[x][i] in F.up && F.up[F.kids[x][i]] == x
    && x in F.up && F.kids[x][i] != F.up[x]
    && After(F, F.kids[x][i]) == if i + 1 < |F.kids[x]| then F.kids[x][i + 1] else F.top
  }

  // What flatten may rely on when it follows the pointers of x.
  lemma FlattenPoints<N>(F: Forest<N>, x: N)
    requires WellFormed(F) && x in F.up
    ensures F.up[x] in F.up || F.up[x] == F.top
    ensures x in F.kids && Distinct(F.kids[x]) && x !in F.kids[x] && F.up[x] in F.kids && F.up[x] != x
    ensures forall i :: 0 <= i < |F.kids[x]| ==> ChildAt(F, x, i)
    ensures After(F, x) == F.top || (After(F, x) in F.up && After(F, x) !in F.kids[x] && After(F, x) !in {x, F.up[x]})
  {
    SelfDiffers(F, x);
    Around(F, x);
    assert Owns(F, x) && Owns(F, F.up[x]);
    forall i | 0 <= i < |F.kids[x]| ensures ChildAt(F, x, i) {
      NeighboursAt(F.top, F.kids[x], i);
    }
    DistinctParts(UpTo(F, x) + [x], Beyond(F, x));
    HeadIsMember(F.top, Beyond(F, x));
    if After(F, x) != F.top {
      SelfDiffers(F, After(F, x));
      ListsApart(F, F.up[x], x, After(F, x));
    }
  }

  // The loop of flatten over the children cs.
  method SetParents<T>(position: TreeNode<T>, ghost cs: seq<TreeNode?<T>>, ghost nodes: set<TreeNode<T>>)
    requires position in nodes && position.firstChild == HeadOf(null, cs) && Distinct(cs) && position !in cs
    requires forall i :: 0 <= i < |cs| ==> cs[i] != null && cs[i] in nodes
    requires forall i :: 0 <= i < |cs| ==> cs[i].nextSibling == if i + 1 < |cs| then cs[i + 1] else null
    modifies nodes`parent
    ensures forall n :: n in nodes ==> n.parent == if n in cs then old(position.parent) else old(n.parent)
  {
    ghost var i := 0;
    var tmp := position.firstChild;
    while tmp != null
      invariant i <= |cs| && tmp == if i < |cs| then cs[i] else null
      invariant forall n :: n in nodes ==> n.parent == if n in cs[..i] then old(position.parent) else old(n.parent)
      decreases |cs| - i
    {
      tmp.parent := position.parent;
      tmp := tmp.nextSibling;
      i := i + 1;
    }
    assert cs[..i] == cs;
  }

  // flatten after its loop.
  method Unfold<T>(position: TreeNode<T>, ghost nodes: set<TreeNode<T>>)
    requires position.firstChild != null && position.lastChild != null
    requires position in nodes && position.firstChild in nodes && position.lastChild in nodes
    requires position.parent != null ==> position.parent in nodes
    requires if position.nextSibling != null then position.nextSibling in nodes else position.parent != null
    requires position !in {position.firstChild, position.lastChild, position.parent, position.nextSibling}
    requires position.nextSibling !in {position.firstChild, position.lastChild}
    requires position.lastChild.nextSibling == null && position.parent != position.nextSibling
    modifies nodes
    ensures forall n :: n in nodes ==> n.parent == old(n.parent) && n.data == old(n.data)
    ensures forall n :: n in nodes ==> (n.prevSibling ==
      if n == old(position.firstChild) then position
      else if n == old(position.nextSibling) then old(position.lastChild) else old(n.prevSibling))
    ensures forall n :: n in nodes ==> (n.nextSibling ==
      if n == position then old(n.firstChild)
      else if n == old(position.lastChild) then old(position.nextSibling) else old(n.nextSibling))
    ensures forall n :: n in nodes ==> n.firstChild == if n == position then null else old(n.firstChild)
    ensures forall n :: n in nodes ==> (n.lastChild ==
      if n == position then null
      else if n == old(position.parent) && old(position.nextSibling) == null then old(position.lastChild)
      else old(n.lastChild))
  {
    if position.nextSibling != null {
      position.lastChild.nextSibling := position.nextSibling;
      position.nextSibling.prevSibling := position.lastChild;
    } else {
      position.parent.lastChild := position.lastChild;
    }
    position.nextSibling := position.firstChild;
    position.nextSibling.prevSibling := position;
    position.firstChild := null;
    position.lastChild := null;
  }
}
