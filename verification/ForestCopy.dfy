// Copying a subtree in one walk: what holds between two steps.

module ForestCopy {
  import opened Signs
  import opened Forests
  import opened ForestEdits
  import opened ForestMoves

  // The shape before copying, the root of the source, and the childless node
  // that will become its copy.
  datatype Job<!N> = Job(F: Forest<N>, from: N, to: N)

  ghost predicate InSource<N>(J: Job<N>, x: N)
    requires WellFormed(J.F)
  {
    x in J.F.up && (x == J.from || BelowAny(J.F, x, {J.from}))
  }

  ghost predicate Ready<N>(J: Job<N>) {
    && WellFormed(J.F) && J.from in J.F.up && J.to in J.F.up && J.F.kids[J.to] == []
    && J.to != J.from && !BelowAny(J.F, J.to, {J.from})
  }

  // Outside the copy nothing has changed.
  ghost predicate Framed<N>(J: Job<N>, G: Forest<N>, copy: map<N, N>) {
    && WellFormed(J.F) && WellFormed(G) && G.top == J.F.top
    && (forall n :: n in J.F.up ==> n in G.up && G.up[n] == J.F.up[n])
    && (forall p :: p in J.F.kids && p != J.to ==> p in G.kids && G.kids[p] == J.F.kids[p])
    && (forall n :: n in G.up ==> n in J.F.up || exists x :: x in copy && copy[x] == n)
  }

  // copy takes visited nodes of the source to nodes of their own.
  ghost predicate Copies<N>(J: Job<N>, G: Forest<N>, copy: map<N, N>) {
    && WellFormed(J.F) && J.from in copy && copy[J.from] == J.to
    && (forall x :: x in copy ==> InSource(J, x) && copy[x] in G.kids && copy[x] in G.up)
    && (forall x :: x in copy && x != J.from ==> copy[x] !in J.F.kids && x in J.F.up && J.F.up[x] in copy)
    && (forall x, y :: x in copy && y in copy && copy[x] == copy[y] ==> x == y)
  }

  // The children of the copy of x are the copies of the first children of x.
  ghost predicate Mirrors<N>(J: Job<N>, G: Forest<N>, copy: map<N, N>, x: N) {
    && x in copy && copy[x] in G.kids && x in J.F.kids
    && |G.kids[copy[x]]| <= |J.F.kids[x]|
    && (forall j :: 0 <= j < |G.kids[copy[x]]| ==> J.F.kids[x][j] in copy && copy[J.F.kids[x][j]] == G.kids[copy[x]][j])
    && (forall j :: |G.kids[copy[x]]| <= j < |J.F.kids[x]| ==> J.F.kids[x][j] !in copy)
  }

  ghost predicate Whole<N>(J: Job<N>, G: Forest<N>, copy: map<N, N>, x: N) {
    x in copy && copy[x] in G.kids && x in J.F.kids && |G.kids[copy[x]]| == |J.F.kids[x]|
  }

  // path leads from the root of the source to the current node.
  ghost predicate Leads<N>(J: Job<N>, copy: map<N, N>, path: seq<N>) {
    && path != [] && path[0] == J.from && Distinct(path)
    && (forall i :: 0 <= i < |path| ==> path[i] in copy && path[i] in J.F.up)
    && (forall i :: 0 < i < |path| ==> J.F.up[path[i]] == path[i - 1])
  }

  // The last child copied so far of a node on the path is the next on the path.
  ghost predicate Turns<N>(J: Job<N>, G: Forest<N>, copy: map<N, N>, path: seq<N>, i: nat) {
    && 0 < i < |path| && path[i - 1] in copy && copy[path[i - 1]] in G.kids && path[i - 1] in J.F.kids
    && var k := |G.kids[copy[path[i - 1]]]|; 0 < k <= |J.F.kids[path[i - 1]]| && J.F.kids[path[i - 1]][k - 1] == path[i]
  }

  // Between two steps of the walk.
  ghost predicate Walking<N>(J: Job<N>, G: Forest<N>, copy: map<N, N>, path: seq<N>) {
    && Ready(J) && Framed(J, G, copy) && Copies(J, G, copy) && Leads(J, copy, path)
    && (forall x :: x in copy ==> Mirrors(J, G, copy, x))
    && (forall x :: x in copy && x !in path ==> Whole(J, G, copy, x))
    && (forall i :: 0 < i < |path| ==> Turns(J, G, copy, path, i))
  }

  // The walk has just come to the current node.
  ghost predicate Arrived<N>(J: Job<N>, G: Forest<N>, copy: map<N, N>, path: seq<N>) {
    Walking(J, G, copy, path) && G.kids[copy[path[|path| - 1]]] == []
  }

  // ... or is done with everything below it.
  ghost predicate Leaving<N>(J: Job<N>, G: Forest<N>, copy: map<N, N>, path: seq<N>) {
    Walking(J, G, copy, path) && Whole(J, G, copy, path[|path| - 1])
  }

  // ------------------------------------------------------------ One more copy

  // Child number k of the visited node x is copied to y.
  ghost predicate NextCopy<N>(J: Job<N>, G: Forest<N>, copy: map<N, N>, x: N, y: N) {
    && x in copy && copy[x] in G.kids && x in J.F.kids && |G.kids[copy[x]]| < |J.F.kids[x]| && y !in G.kids
  }

  lemma NextIsNew<N>(J: Job<N>, G: Forest<N>, copy: map<N, N>, path: seq<N>, x: N, y: N)
    requires Walking(J, G, copy, path) && NextCopy(J, G, copy, x, y)
    ensures var c := J.F.kids[x][|G.kids[copy[x]]|];
            && c !in copy && InSource(J, c) && c in J.F.up && J.F.up[c] == x && c != J.to && c != J.from && y != J.to
    ensures CanAppend(G, copy[x], y) && y !in J.F.kids && forall z :: z in copy ==> copy[z] != y
  {
    assert Mirrors(J, G, copy, x);
    var c := J.F.kids[x][|G.kids[copy[x]]|];
    OwnsAt(J.F, x);
    BelowIs(J.F, c, {J.from});
    NotBelowSelf(J.F, J.from);
  }

  lemma CopyFramed<N>(J: Job<N>, G: Forest<N>, copy: map<N, N>, path: seq<N>, x: N, y: N)
    requires Walking(J, G, copy, path) && NextCopy(J, G, copy, x, y)
    ensures copy[x] in G.kids && copy[x] in G.rank
    ensures var c := J.F.kids[x][|G.kids[copy[x]]|];
            Framed(J, Appended(G, copy[x], y), copy[c := y]) && Copies(J, Appended(G, copy[x], y), copy[c := y])
  {
    hide WellFormed, BelowAny, Mirrors, Whole, Turns, Leads;
    NextIsNew(J, G, copy, path, x, y);
    AppendedWellFormed(G, copy[x], y);
    AppendedKeys(G, copy[x], y);
    var c := J.F.kids[x][|G.kids[copy[x]]|];
    var H, more := Appended(G, copy[x], y), copy[c := y];
    NotOriginal(J, G, copy, path, x);
    forall n | n in H.up ensures n in J.F.up || exists z :: z in more && more[z] == n {
      if n == y { assert more[c] == n; } else if n !in J.F.up {
        var z :| z in copy && copy[z] == n;
        assert more[z] == n;
      }
    }
  }

  // Only the target itself is an old node.
  lemma NotOriginal<N>(J: Job<N>, G: Forest<N>, copy: map<N, N>, path: seq<N>, x: N)
    requires Walking(J, G, copy, path) && x in copy
    ensures copy[x] in J.F.kids ==> copy[x] == J.to
  {
  }

  lemma CopyMirrors<N>(J: Job<N>, G: Forest<N>, copy: map<N, N>, path: seq<N>, x: N, y: N, z: N)
    requires Walking(J, G, copy, path) && NextCopy(J, G, copy, x, y)
    requires var c := J.F.kids[x][|G.kids[copy[x]]|]; z in copy || z == c
    ensures copy[x] in G.kids && copy[x] in G.rank
    ensures var c := J.F.kids[x][|G.kids[copy[x]]|]; Mirrors(J, Appended(G, copy[x], y), copy[c := y], z)
    ensures z in copy && z != x ==> Appended(G, copy[x], y).kids[copy[z]] == G.kids[copy[z]]
  {
    hide WellFormed, BelowAny, Whole, Turns, Leads, Framed;
    NextIsNew(J, G, copy, path, x, y);
    AppendedKeys(G, copy[x], y);
    assert z in copy ==> Mirrors(J, G, copy, z);
    var c := J.F.kids[x][|G.kids[copy[x]]|];
    if z == c {
      SelfDiffers(J.F, c);
      NoneCopied(J, G, copy, path, c);
      MirrorsNew(J, G, copy, x, y, c);
    } else if z == x {
      OwnsAt(J.F, x);
      MirrorsMore(J, G, copy, x, y);
    } else {
      OnlyChildOf(J.F, z, x, c);
      MirrorsSame(J, G, copy, x, y, c, z);
    }
  }

  lemma MirrorsNew<N>(J: Job<N>, G: Forest<N>, copy: map<N, N>, x: N, y: N, c: N)
    requires x in copy && CanAppend(G, copy[x], y) && copy[x] in G.kids && copy[x] in G.rank && c !in copy
      && c in J.F.kids
    requires c !in J.F.kids[c] && forall j :: 0 <= j < |J.F.kids[c]| ==> J.F.kids[c][j] !in copy
    ensures Mirrors(J, Appended(G, copy[x], y), copy[c := y], c)
  {
    hide WellFormed;
    forall j | 0 <= j < |J.F.kids[c]| ensures J.F.kids[c][j] != c { assert J.F.kids[c][j] in J.F.kids[c]; }
  }

  lemma MirrorsMore<N>(J: Job<N>, G: Forest<N>, copy: map<N, N>, x: N, y: N)
    requires Mirrors(J, G, copy, x) && |G.kids[copy[x]]| < |J.F.kids[x]|
    requires CanAppend(G, copy[x], y) && copy[x] in G.rank && y != copy[x] && Distinct(J.F.kids[x])
    requires J.F.kids[x][|G.kids[copy[x]]|] != x
    ensures Mirrors(J, Appended(G, copy[x], y), copy[J.F.kids[x][|G.kids[copy[x]]|] := y], x)
  {
    hide WellFormed;
  }

  lemma MirrorsSame<N>(J: Job<N>, G: Forest<N>, copy: map<N, N>, x: N, y: N, c: N, z: N)
    requires Mirrors(J, G, copy, z) && x in copy && CanAppend(G, copy[x], y) && copy[x] in G.kids && copy[x] in G.rank
    requires c !in copy && z != c && c !in J.F.kids[z] && copy[z] != copy[x] && copy[z] != y
    ensures Mirrors(J, Appended(G, copy[x], y), copy[c := y], z)
      && Appended(G, copy[x], y).kids[copy[z]] == G.kids[copy[z]]
  {
    hide WellFormed;
    forall j | 0 <= j < |J.F.kids[z]| ensures J.F.kids[z][j] != c { assert J.F.kids[z][j] in J.F.kids[z]; }
  }

  lemma OnlyChildOf<N>(F: Forest<N>, z: N, x: N, c: N)
    requires WellFormed(F) && c in F.up && F.up[c] == x && z in F.kids && z != x
    ensures c !in F.kids[z]
  {
    OwnsAt(F, z);
  }

  // No child of a node that has not been visited has been visited.
  lemma NoneCopied<N>(J: Job<N>, G: Forest<N>, copy: map<N, N>, path: seq<N>, c: N)
    requires Walking(J, G, copy, path) && c !in copy && InSource(J, c) && c in J.F.kids
    ensures forall j :: 0 <= j < |J.F.kids[c]| ==> J.F.kids[c][j] !in copy
  {
    OwnsAt(J.F, c);
    BelowIsLower(J.F, c, J.from);
    PlacedAt(J.F, J.from);
  }

  // ------------------------------------------------------------------ The steps

  // The child of x that is copied next.
  ghost function NextChild<N>(J: Job<N>, G: Forest<N>, copy: map<N, N>, x: N): N
    requires x in copy && copy[x] in G.kids && x in J.F.kids && |G.kids[copy[x]]| < |J.F.kids[x]|
  {
    J.F.kids[x][|G.kids[copy[x]]|]
  }

  // After copying the next child of the last node but `back` of the path, the
  // path leads to that child.
  lemma CopyWalks<N>(J: Job<N>, G: Forest<N>, copy: map<N, N>, path: seq<N>, k: nat, y: N)
    requires Walking(J, G, copy, path) && k < |path| && NextCopy(J, G, copy, path[k], y)
    requires forall i :: k < i < |path| ==> Whole(J, G, copy, path[i])
    ensures copy[path[k]] in G.kids && copy[path[k]] in G.rank
    ensures var c := NextChild(J, G, copy, path[k]);
            Arrived(J, Appended(G, copy[path[k]], y), copy[c := y], path[..k + 1] + [c])
  {
    hide WellFormed, BelowAny, Framed, Mirrors, Copies, Leads, Whole, Turns, Appended;
    var x, c := path[k], NextChild(J, G, copy, path[k]);
    NewTurn(J, G, copy, path, x, y);
    var H, more, road := Appended(G, copy[x], y), copy[c := y], path[..k + 1] + [c];
    CopyFramed(J, G, copy, path, x, y);
    forall z | z in more ensures Mirrors(J, H, more, z) { CopyMirrors(J, G, copy, path, x, y, z); }
    forall z | z in more && z !in road ensures Whole(J, H, more, z) { CopyWhole(J, G, copy, path, k, y, z); }
    forall i | 0 < i < |road| ensures Turns(J, H, more, road, i) { CopyTurns(J, G, copy, path, k, y, i); }
    CopyLeads(J, G, copy, path, k, y);
  }

  lemma CopyWhole<N>(J: Job<N>, G: Forest<N>, copy: map<N, N>, path: seq<N>, k: nat, y: N, z: N)
    requires Walking(J, G, copy, path) && k < |path| && NextCopy(J, G, copy, path[k], y)
    requires forall i :: k < i < |path| ==> Whole(J, G, copy, path[i])
    requires z in copy && z !in path[..k + 1]
    ensures copy[path[k]] in G.kids && copy[path[k]] in G.rank
    ensures Whole(J, Appended(G, copy[path[k]], y), copy[NextChild(J, G, copy, path[k]) := y], z)
  {
    hide WellFormed, BelowAny, Framed, Mirrors, Copies, Leads, Turns;
    var x := path[k];
    NextIsNew(J, G, copy, path, x, y);
    assert path[k] in path[..k + 1];
    if z in path { LaterOnPath(path, k, z); }
    CopyMirrors(J, G, copy, path, x, y, z);
    NewTurn(J, G, copy, path, x, y);
    MirrorKeys(J, G, copy, path, x, y, z);
  }

  lemma LaterOnPath<N>(path: seq<N>, k: nat, z: N)
    requires z in path && k < |path|
    ensures z in path[..k + 1] || exists i :: k < i < |path| && path[i] == z
  {
    var i :| 0 <= i < |path| && path[i] == z;
    if i <= k { assert path[..k + 1][i] == z; }
  }

  lemma MirrorKeys<N>(J: Job<N>, G: Forest<N>, copy: map<N, N>, path: seq<N>, x: N, y: N, z: N)
    requires Walking(J, G, copy, path) && NextCopy(J, G, copy, x, y) && z in copy
    ensures copy[x] in G.kids && copy[x] in G.rank && copy[z] in Appended(G, copy[x], y).kids
    ensures NextChild(J, G, copy, x) != z
  {
    NextIsNew(J, G, copy, path, x, y);
    AppendedKeys(G, copy[x], y);
  }

  lemma CopyLeads<N>(J: Job<N>, G: Forest<N>, copy: map<N, N>, path: seq<N>, k: nat, y: N)
    requires Walking(J, G, copy, path) && k < |path| && NextCopy(J, G, copy, path[k], y)
    ensures copy[path[k]] in G.kids && copy[path[k]] in G.rank
    ensures var c := NextChild(J, G, copy, path[k]); Leads(J, copy[c := y], path[..k + 1] + [c])
    ensures Appended(G, copy[path[k]], y).kids[y] == []
  {
    hide WellFormed, BelowAny, Framed, Mirrors, Turns, Whole;
    NextIsNew(J, G, copy, path, path[k], y);
    NewTurn(J, G, copy, path, path[k], y);
    var c := NextChild(J, G, copy, path[k]);
    forall i | 0 <= i <= k ensures path[i] != c {}
    DistinctPrefix(path, k + 1);
    DistinctTogether(path[..k + 1], [c]);
  }

  lemma DistinctPrefix<N>(s: seq<N>, k: nat)
    requires Distinct(s) && k <= |s|
    ensures Distinct(s[..k])
  {
    forall i, j | 0 <= i < j < k ensures s[..k][i] != s[..k][j] {
      assert s[i] != s[j];
    }
  }

  lemma CopyTurns<N>(J: Job<N>, G: Forest<N>, copy: map<N, N>, path: seq<N>, k: nat, y: N, i: nat)
    requires Walking(J, G, copy, path) && k < |path| && NextCopy(J, G, copy, path[k], y) && 0 < i <= k + 1
    ensures copy[path[k]] in G.kids && copy[path[k]] in G.rank
    ensures var c := NextChild(J, G, copy, path[k]);
            Turns(J, Appended(G, copy[path[k]], y), copy[c := y], path[..k + 1] + [c], i)
  {
    hide WellFormed, BelowAny, Framed, Mirrors, Whole;
    var x := path[k];
    NewTurn(J, G, copy, path, x, y);
    if i <= k {
      assert Turns(J, G, copy, path, i);
      CopyMirrors(J, G, copy, path, x, y, path[i - 1]);
      MirrorKeys(J, G, copy, path, x, y, path[i - 1]);
    }
  }

  lemma NewTurn<N>(J: Job<N>, G: Forest<N>, copy: map<N, N>, path: seq<N>, x: N, y: N)
    requires Walking(J, G, copy, path) && NextCopy(J, G, copy, x, y)
    ensures copy[x] in G.kids && copy[x] in G.rank
    ensures var c := NextChild(J, G, copy, x); var H := Appended(G, copy[x], y);
            x != c && copy[x] in H.kids && |H.kids[copy[x]]| == |G.kids[copy[x]]| + 1
  {
    NextIsNew(J, G, copy, path, x, y);
    AppendedKeys(G, copy[x], y);
  }

  lemma WalkStarts<N>(J: Job<N>)
    requires Ready(J)
    ensures Arrived(J, J.F, map[J.from := J.to], [J.from])
  {
    var copy := map[J.from := J.to];
    forall n | n in J.F.kids[J.from] ensures n != J.from { SelfDiffers(J.F, J.from); }
    forall n | n in J.F.up ensures n in J.F.up {}
  }

  // A childless node is done with at once.
  lemma LeafIsDone<N>(J: Job<N>, G: Forest<N>, copy: map<N, N>, path: seq<N>)
    requires Arrived(J, G, copy, path)
    ensures path[|path| - 1] in J.F.kids
    ensures J.F.kids[path[|path| - 1]] == [] ==> Leaving(J, G, copy, path)
    ensures J.F.kids[path[|path| - 1]] != [] ==> forall y :: y !in G.kids ==> NextCopy(J, G, copy, path[|path| - 1], y)
  {
    hide WellFormed, Framed, Turns;
    assert Mirrors(J, G, copy, path[|path| - 1]);
  }

  // A node that is done with is the last child, or the next one is to be copied.
  lemma NextOrUp<N>(J: Job<N>, G: Forest<N>, copy: map<N, N>, path: seq<N>)
    requires Leaving(J, G, copy, path) && |path| > 1
    ensures var p, cur := path[|path| - 2], path[|path| - 1];
            && p in copy && copy[p] in G.kids && cur in J.F.up && J.F.up[cur] in J.F.kids && cur != J.from
              && p in J.F.kids
            && (After(J.F, cur) == J.F.top ==> Leaving(J, G, copy, path[..|path| - 1]))
            && (After(J.F, cur) != J.F.top
              ==> |G.kids[copy[p]]| < |J.F.kids[p]| && After(J.F, cur) == NextChild(J, G, copy, p))
  {
    hide WellFormed, Framed, BelowAny;
    var p, cur, k := path[|path| - 2], path[|path| - 1], |path| - 1;
    assert Turns(J, G, copy, path, k) && Mirrors(J, G, copy, p);
    OwnsAt(J.F, p);
    TopIsNoChild(J.F, p);
    NeighboursAt(J.F.top, J.F.kids[p], |G.kids[copy[p]]| - 1);
    if After(J.F, cur) == J.F.top {
      assert Whole(J, G, copy, p);
      ShorterPath(J, G, copy, path);
    }
  }

  lemma ShorterPath<N>(J: Job<N>, G: Forest<N>, copy: map<N, N>, path: seq<N>)
    requires Leaving(J, G, copy, path) && |path| > 1
    ensures Walking(J, G, copy, path[..|path| - 1])
  {
    hide WellFormed, Framed, BelowAny, Copies, Mirrors;
    var road := path[..|path| - 1];
    DistinctPrefix(path, |path| - 1);
    forall x | x in copy && x !in road ensures Whole(J, G, copy, x) {
      assert x in path ==> x == path[|path| - 1] by { if x in path { assert path == road + [path[|path| - 1]]; } }
    }
    forall i | 0 < i < |road| ensures Turns(J, G, copy, road, i) { assert Turns(J, G, copy, path, i); }
  }

  // The whole source has been copied.
  ghost predicate Copied<N>(J: Job<N>, G: Forest<N>, copy: map<N, N>) {
    && WellFormed(J.F)
    && (forall x :: x in copy ==> InSource(J, x))
    && (forall x :: x in J.F.up && InSource(J, x) ==> x in copy)
    && (forall x :: x in copy ==> Mirrors(J, G, copy, x) && Whole(J, G, copy, x))
  }

  lemma {:induction false} AllVisited<N>(J: Job<N>, G: Forest<N>, copy: map<N, N>, path: seq<N>, x: N)
    requires Leaving(J, G, copy, path) && |path| == 1 && InSource(J, x)
    ensures x in copy
    decreases if x in J.F.up then J.F.rank[J.F.top] - J.F.rank[x] else 0
  {
    if x != J.from {
      PlacedAt(J.F, x);
      BelowIs(J.F, x, {J.from});
      var p := J.F.up[x];
      AllVisited(J, G, copy, path, p);
      assert Mirrors(J, G, copy, p) && Whole(J, G, copy, p);
    }
  }

  lemma WalkEnds<N>(J: Job<N>, G: Forest<N>, copy: map<N, N>, path: seq<N>)
    requires Leaving(J, G, copy, path) && |path| == 1
    ensures Copied(J, G, copy)
  {
    forall x | x in J.F.up && InSource(J, x) ensures x in copy { AllVisited(J, G, copy, path, x); }
  }

  // While copying, the pointers of the source are still those of the shape before.
  lemma SourceStays<N>(J: Job<N>, G: Forest<N>, copy: map<N, N>, path: seq<N>, x: N)
    requires Walking(J, G, copy, path) && x in copy
    ensures x in J.F.up && x in G.up && x in G.kids && x in J.F.kids && G.up[x] == J.F.up[x] && J.F.up[x] in J.F.kids
      && G.up[x] in G.kids
    ensures G.kids[x] == J.F.kids[x] && After(G, x) == After(J.F, x) && G.top == J.F.top && x != J.to
  {
    PlacedAt(J.F, x);
    OwnsAt(J.F, J.F.up[x]);
    BelowIs(J.F, x, {J.from});
  }

  // The parent of the copy of a node on the path.
  lemma CopyParent<N>(J: Job<N>, G: Forest<N>, copy: map<N, N>, path: seq<N>)
    requires Walking(J, G, copy, path) && |path| > 1
    ensures var p, cur := path[|path| - 2], path[|path| - 1];
            cur in copy && p in copy && copy[cur] in G.up && G.up[copy[cur]] == copy[p] && J.F.up[cur] == p
  {
    hide WellFormed, Framed, BelowAny;
    var p, cur, k := path[|path| - 2], path[|path| - 1], |path| - 1;
    assert Turns(J, G, copy, path, k) && Mirrors(J, G, copy, p);
    GrownWell(J, G, copy);
    OwnsAt(G, copy[p]);
    assert copy[cur] == G.kids[copy[p]][|G.kids[copy[p]]| - 1];
  }

  lemma GrownWell<N>(J: Job<N>, G: Forest<N>, copy: map<N, N>)
    requires Framed(J, G, copy)
    ensures WellFormed(G)
  {
  }

  // The node after the source is not part of it.
  lemma LastOutside<N>(J: Job<N>, x: N)
    requires Ready(J) && InSource(J, x)
    ensures J.F.up[J.from] in J.F.kids && x != After(J.F, J.from)
  {
    var F, last := J.F, After(J.F, J.from);
    PlacedAt(F, J.from);
    Around(F, J.from);
    AroundDiffers(F, J.from);
    if x == last {
      BelowIs(F, last, {J.from});
      OwnsAt(F, F.up[J.from]);
      BelowIsLower(F, F.up[J.from], J.from);
    }
  }

  lemma AroundDiffers<N>(F: Forest<N>, x: N)
    requires WellFormed(F) && x in F.up
    ensures F.up[x] in F.kids && After(F, x) != x
      && (After(F, x) == F.top || (After(F, x) in F.up && F.up[After(F, x)] == F.up[x]))
  {
    SelfDiffers(F, x);
    Around(F, x);
    OwnsAt(F, F.up[x]);
    DistinctParts(UpTo(F, x) + [x], Beyond(F, x));
    HeadIsMember(F.top, Beyond(F, x));
  }
}
