// Collecting equal entries with a hash map: the loops that collect_terms and
// symmetriser::collect share.

module HashBins {

  // hash and same are the hash and the equality test in use; add and zero those
  // of the multipliers.
  datatype Rules<!K, !C> = Rules(hash: K -> int, same: (K, K) -> bool, add: (C, C) -> C, zero: C)

  // An equality test, and a hash that agrees on equal entries. Different
  // entries may share their hash.
  ghost predicate Sound<K(!new), C>(R: Rules<K, C>) {
    && (forall a :: R.same(a, a))
    && (forall a, b :: R.same(a, b) ==> R.same(b, a))
    && (forall a, b, c :: R.same(a, b) && R.same(b, c) ==> R.same(a, c))
    && (forall a, b :: R.same(a, b) ==> R.hash(a) == R.hash(b))
  }

  // -------------------------------------------------------- What comes out of it

  ghost predicate First<K, C>(R: Rules<K, C>, keys: seq<K>, k: nat)
    requires k < |keys|
  {
    forall j :: 0 <= j < k ==> !R.same(keys[j], keys[k])
  }

  // The multipliers of the entries k, ..., upto - 1 that equal entry k, added up.
  function ClassSum<K, C>(R: Rules<K, C>, keys: seq<K>, coef: seq<C>, k: nat, upto: nat): C
    requires k < upto <= |keys| == |coef|
  {
    if upto == k + 1 then coef[k]
    else
      var s := ClassSum(R, keys, coef, k, upto - 1);
      if R.same(keys[k], keys[upto - 1]) then R.add(s, coef[upto - 1]) else s
  }

  // The first of equal entries has the sum, the others nothing.
  ghost function CollectedAt<K, C>(R: Rules<K, C>, keys: seq<K>, coef: seq<C>, k: nat): C
    requires k < |keys| == |coef|
  {
    if First(R, keys, k) then ClassSum(R, keys, coef, k, |keys|) else R.zero
  }

  ghost function Collected<K, C>(R: Rules<K, C>, keys: seq<K>, coef: seq<C>): (r: seq<C>)
    requires |keys| == |coef|
    ensures |r| == |keys| && forall k :: 0 <= k < |r| ==> r[k] == CollectedAt(R, keys, coef, k)
  {
    seq(|keys|, k requires 0 <= k < |keys| => CollectedAt(R, keys, coef, k))
  }

  lemma {:induction false} ClassSumSkips<K, C>(R: Rules<K, C>, keys: seq<K>, coef: seq<C>, k: nat, lo: nat, hi: nat)
    requires k < lo <= hi <= |keys| == |coef|
    requires forall j :: lo <= j < hi ==> !R.same(keys[k], keys[j])
    ensures ClassSum(R, keys, coef, k, lo) == ClassSum(R, keys, coef, k, hi)
  {
    if lo < hi { ClassSumSkips(R, keys, coef, k, lo, hi - 1); }
  }

  // --------------------------------------------------------------- The hash map

  datatype Entry = Entry(h: int, i: nat)

  // Ascending in the hash; entries with one hash in the order they were inserted.
  predicate Before(a: Entry, b: Entry) {
    a.h < b.h || (a.h == b.h && a.i < b.i)
  }

  ghost predicate Ordered(table: seq<Entry>) {
    forall a, b :: 0 <= a < b < |table| ==> Before(table[a], table[b])
  }

  function KeyEntry<K, C>(R: Rules<K, C>, keys: seq<K>, k: nat): Entry
    requires k < |keys|
  {
    Entry(R.hash(keys[k]), k)
  }

  ghost predicate Genuine<K, C>(R: Rules<K, C>, keys: seq<K>, table: seq<Entry>) {
    forall a :: 0 <= a < |table| ==> table[a].i < |keys| && table[a] == KeyEntry(R, keys, table[a].i)
  }

  // multimap::insert: behind the entries with the same key.
  function Inserted(table: seq<Entry>, e: Entry): (r: seq<Entry>)
    ensures |r| == |table| + 1
  {
    if table == [] || e.h < table[0].h then [e] + table
    else [table[0]] + Inserted(table[1..], e)
  }

  lemma {:induction false} InsertedMembers(table: seq<Entry>, e: Entry, x: Entry)
    ensures x in Inserted(table, e) <==> x == e || x in table
  {
    if table != [] && table[0].h <= e.h {
      InsertedMembers(table[1..], e, x);
    }
  }

  lemma {:induction false} InsertedOrdered(table: seq<Entry>, e: Entry)
    requires Ordered(table) && forall x :: x in table ==> x.i < e.i
    ensures Ordered(Inserted(table, e))
  {
    if table != [] && table[0].h <= e.h {
      var rest := table[1..];
      forall x | x in rest ensures x.i < e.i { assert x in table; }
      InsertedOrdered(rest, e);
      forall b | 0 <= b < |Inserted(rest, e)| ensures Before(table[0], Inserted(rest, e)[b]) {
        var x := Inserted(rest, e)[b];
        InsertedMembers(rest, e, x);
        assert table[0] in table;
      }
    } else {
      forall b | 0 <= b < |table| ensures Before(e, table[b]) {
        assert table[0] == table[b] || Before(table[0], table[b]);
      }
    }
  }

  // -------------------------------------------------- What the loops maintain

  // Entry k has been erased: one of the first p entries of the map took it.
  ghost predicate Taken<K, C>(R: Rules<K, C>, keys: seq<K>, table: seq<Entry>, p: nat, k: nat)
    requires p <= |table| && k < |keys| && Genuine(R, keys, table)
  {
    exists a :: 0 <= a < p && table[a].i < k && R.same(keys[table[a].i], keys[k])
  }

  ghost predicate Shape<K, C>(R: Rules<K, C>, keys: seq<K>, was: seq<C>, table: seq<Entry>, coef: seq<C>) {
    |was| == |coef| == |keys| && Ordered(table) && Genuine(R, keys, table)
  }

  // No later entry of the map equals one of the first p.
  ghost predicate Apart<K, C>(R: Rules<K, C>, keys: seq<K>, table: seq<Entry>, p: nat)
    requires p <= |table| && Genuine(R, keys, table)
  {
    forall a, b :: 0 <= a < p && a < b < |table| ==> !R.same(keys[table[a].i], keys[table[b].i])
  }

  ghost predicate Done<K, C>(R: Rules<K, C>, keys: seq<K>, was: seq<C>, table: seq<Entry>, coef: seq<C>, p: nat)
    requires p <= |table| && Shape(R, keys, was, table, coef)
  {
    forall a :: 0 <= a < p ==> coef[table[a].i] == ClassSum(R, keys, was, table[a].i, |keys|)
  }

  ghost predicate Pending<K, C>(R: Rules<K, C>, keys: seq<K>, was: seq<C>, table: seq<Entry>, coef: seq<C>, p: nat)
    requires p <= |table| && Shape(R, keys, was, table, coef)
  {
    forall b :: p <= b < |table| ==> coef[table[b].i] == was[table[b].i]
  }

  ghost predicate Missing<K, C>(R: Rules<K, C>, keys: seq<K>, table: seq<Entry>, k: nat) {
    k < |keys| && KeyEntry(R, keys, k) !in table
  }

  // thisbin1 stands at p.
  ghost predicate Swept<K, C>(R: Rules<K, C>, keys: seq<K>, was: seq<C>, table: seq<Entry>, coef: seq<C>, p: nat) {
    && p <= |table| && Shape(R, keys, was, table, coef)
    && Apart(R, keys, table, p) && Done(R, keys, was, table, coef, p) && Pending(R, keys, was, table, coef, p)
    && (forall k: nat :: Missing(R, keys, table, k) ==> coef[k] == R.zero && Taken(R, keys, table, p, k))
  }

  // The index up to which the class of the entry at p has been added up when
  // thisbin2 stands at q.
  function Bound(n: nat, table: seq<Entry>, p: nat, q: nat): nat
    requires p < |table| && q <= |table|
  {
    if q < |table| && table[q].h == table[p].h then table[q].i else n
  }

  // thisbin1 stands at p, thisbin2 at q.
  ghost predicate Sweeping<K, C>(R: Rules<K, C>, keys: seq<K>, was: seq<C>, table: seq<Entry>, coef: seq<C>, p: nat,
      q: nat) {
    && p < q <= |table| && Shape(R, keys, was, table, coef)
    && Apart(R, keys, table, p) && Done(R, keys, was, table, coef, p) && Pending(R, keys, was, table, coef, p + 1)
    && (forall b :: p < b < q ==> !R.same(keys[table[p].i], keys[table[b].i]))
    && table[p].i < Bound(|keys|, table, p, q) <= |keys|
    && coef[table[p].i] == ClassSum(R, keys, was, table[p].i, Bound(|keys|, table, p, q))
    && (forall k: nat :: Missing(R, keys, table, k) ==> coef[k] == R.zero && Taken(R, keys, table, p + 1, k))
    && (forall k: nat :: Missing(R, keys, table, k) && R.same(keys[table[p].i], keys[k]) ==>
      k < Bound(|keys|, table, p, q))
  }

  lemma OrderedPair(table: seq<Entry>, a: nat, b: nat)
    requires Ordered(table) && a < |table| && b < |table|
    ensures a < b ==> Before(table[a], table[b])
  {
  }

  // The map entry after q comes no later than any other of the bin beyond q.
  lemma NextIsNearest(n: nat, table: seq<Entry>, p: nat, q: nat, c: nat)
    requires Ordered(table) && p <= q < |table| && c < |table|
    requires table[q].h == table[p].h == table[c].h && table[q].i < table[c].i
    ensures q < c && Bound(n, table, p, q + 1) <= table[c].i
  {
    OrderedPair(table, c, q);
    if q + 1 < |table| {
      OrderedPair(table, q, q + 1);
      OrderedPair(table, q + 1, c);
    }
  }

  // Between an entry of the bin and the next one lie no equal entries.
  lemma Gap<K(!new), C>(R: Rules<K, C>, keys: seq<K>, table: seq<Entry>, p: nat, q: nat, k: nat)
    requires Sound(R) && Ordered(table) && Genuine(R, keys, table) && p <= q < |table| && table[q].h == table[p].h
    requires table[q].i < k < Bound(|keys|, table, p, q + 1) && k < |keys|
    requires Missing(R, keys, table, k) ==> !R.same(keys[table[p].i], keys[k])
    ensures !R.same(keys[table[p].i], keys[k])
  {
    if R.same(keys[table[p].i], keys[k]) {
      var e := KeyEntry(R, keys, k);
      assert e in table;
      var c :| 0 <= c < |table| && table[c] == e;
      NextIsNearest(|keys|, table, p, q, c);
    }
  }

  // So the sum up to the entry at q is the sum up to the next one.
  lemma GapSum<K(!new), C>(R: Rules<K, C>, keys: seq<K>, was: seq<C>, table: seq<Entry>, p: nat, q: nat)
    requires Sound(R) && Ordered(table) && Genuine(R, keys, table) && p <= q < |table| && table[q].h == table[p].h
    requires |was| == |keys| && table[p].i <= table[q].i
    requires forall k: nat :: Missing(R, keys, table, k) && R.same(keys[table[p].i], keys[k]) ==> k < table[q].i + 1
    ensures table[q].i < Bound(|keys|, table, p, q + 1) <= |keys|
    ensures ClassSum(R, keys, was, table[p].i, table[q].i + 1)
         == ClassSum(R, keys, was, table[p].i, Bound(|keys|, table, p, q + 1))
  {
    hide Sound, ClassSum;
    if q + 1 < |table| { OrderedPair(table, q, q + 1); }
    var b := Bound(|keys|, table, p, q + 1);
    forall j | table[q].i + 1 <= j < b ensures !R.same(keys[table[p].i], keys[j]) {
      Gap(R, keys, table, p, q, j);
    }
    ClassSumSkips(R, keys, was, table[p].i, table[q].i + 1, b);
  }

  lemma TakenMore<K, C>(R: Rules<K, C>, keys: seq<K>, table: seq<Entry>, p: nat, k: nat)
    requires p < |table| && k < |keys| && Genuine(R, keys, table) && Taken(R, keys, table, p, k)
    ensures Taken(R, keys, table, p + 1, k)
  {
  }

  // An erased entry equals one before p, hence not the one at p.
  lemma TakenElsewhere<K(!new), C>(R: Rules<K, C>, keys: seq<K>, table: seq<Entry>, p: nat, k: nat)
    requires Sound(R) && p < |table| && k < |keys| && Genuine(R, keys, table) && Apart(R, keys, table, p)
    requires Taken(R, keys, table, p, k)
    ensures !R.same(keys[table[p].i], keys[k])
  {
    var a :| 0 <= a < p && table[a].i < k && R.same(keys[table[a].i], keys[k]);
    assert !R.same(keys[table[a].i], keys[table[p].i]);
  }

  lemma StartSweep<K(!new), C>(R: Rules<K, C>, keys: seq<K>, was: seq<C>, table: seq<Entry>, coef: seq<C>, p: nat)
    requires Sound(R) && Swept(R, keys, was, table, coef, p) && p < |table|
    ensures Sweeping(R, keys, was, table, coef, p, p + 1)
  {
    hide Sound;
    forall k: nat | Missing(R, keys, table, k)
      ensures Taken(R, keys, table, p + 1, k) && !R.same(keys[table[p].i], keys[k]) {
      TakenMore(R, keys, table, p, k);
      TakenElsewhere(R, keys, table, p, k);
    }
    GapSum(R, keys, was, table, p, p);
  }

  lemma StepOver<K(!new), C>(R: Rules<K, C>, keys: seq<K>, was: seq<C>, table: seq<Entry>, coef: seq<C>, p: nat, q: nat)
    requires Sound(R) && Sweeping(R, keys, was, table, coef, p, q) && q < |table| && table[q].h == table[p].h
    requires !R.same(keys[table[p].i], keys[table[q].i])
    ensures Sweeping(R, keys, was, table, coef, p, q + 1)
  {
    hide Sound, Apart, Done, Pending, Taken;
    GapSum(R, keys, was, table, p, q);
  }

  function Without(table: seq<Entry>, q: nat): seq<Entry>
    requires q < |table|
  {
    table[..q] + table[q + 1..]
  }

  lemma WithoutAt(table: seq<Entry>, q: nat, b: nat)
    requires q < |table| && b < |table| - 1
    ensures Without(table, q)[b] == table[if b < q then b else b + 1]
  {
  }

  lemma WithoutShape<K, C>(R: Rules<K, C>, keys: seq<K>, table: seq<Entry>, q: nat)
    requires q < |table| && Ordered(table) && Genuine(R, keys, table)
    ensures Ordered(Without(table, q)) && Genuine(R, keys, Without(table, q))
    ensures forall b :: q < b < |table| ==> table[b].i != table[q].i
    ensures forall b :: 0 <= b < q ==> table[b].i != table[q].i
  {
  }

  lemma OthersStay(table: seq<Entry>, q: nat, c: nat)
    requires q < |table| && c < |table|
    ensures c != q ==> table[c] in Without(table, q)
  {
    if c < q { WithoutAt(table, q, c); }
    if c > q { WithoutAt(table, q, c - 1); }
  }

  // The only entry newly missing is the erased one.
  lemma WithoutMissing<K, C>(R: Rules<K, C>, keys: seq<K>, table: seq<Entry>, q: nat, k: nat)
    requires q < |table| && Ordered(table) && Genuine(R, keys, table) && Missing(R, keys, Without(table, q), k)
    ensures k == table[q].i || Missing(R, keys, table, k)
  {
    var e := KeyEntry(R, keys, k);
    if e in table {
      var c :| 0 <= c < |table| && table[c] == e;
      OthersStay(table, q, c);
    }
  }

  lemma TakenStays<K, C>(R: Rules<K, C>, keys: seq<K>, table: seq<Entry>, p: nat, q: nat, k: nat)
    requires p < q < |table| && k < |keys| && Genuine(R, keys, table) && Genuine(R, keys, Without(table, q))
    requires Taken(R, keys, table, p + 1, k) || (table[p].i < k && R.same(keys[table[p].i], keys[k]))
    ensures Taken(R, keys, Without(table, q), p + 1, k)
  {
    var a :| 0 <= a < p + 1 && table[a].i < k && R.same(keys[table[a].i], keys[k]);
    WithoutAt(table, q, a);
  }

  // Erasing keeps what is said of the other entries of the map.
  lemma EraseKeeps<K, C>(R: Rules<K, C>, keys: seq<K>, was: seq<C>, table: seq<Entry>, coef: seq<C>, p: nat, q: nat,
      s: C, z: C)
    requires p < q < |table| && Shape(R, keys, was, table, coef) && Shape(R, keys, was, Without(table, q), coef)
    requires Apart(R, keys, table, p) && Done(R, keys, was, table, coef, p) && Pending(R, keys, was, table, coef, p + 1)
    ensures var after := coef[table[p].i := s][table[q].i := z];
            && Apart(R, keys, Without(table, q), p) && Done(R, keys, was, Without(table, q), after, p)
            && Pending(R, keys, was, Without(table, q), after, p + 1)
  {
    hide ClassSum;
    var next := Without(table, q);
    forall a | 0 <= a < |table| && a != p && a != q ensures table[a].i != table[p].i && table[a].i != table[q].i {
      DifferentEntries(R, keys, table, a, p);
      DifferentEntries(R, keys, table, a, q);
    }
    forall b | 0 <= b < |next| ensures next[b] == table[if b < q then b else b + 1] { WithoutAt(table, q, b); }
  }

  lemma DifferentEntries<K, C>(R: Rules<K, C>, keys: seq<K>, table: seq<Entry>, a: nat, b: nat)
    requires a < |table| && b < |table| && a != b && Ordered(table) && Genuine(R, keys, table)
    ensures table[a].i != table[b].i
  {
    OrderedPair(table, a, b);
    OrderedPair(table, b, a);
  }

  lemma EraseSum<K(!new), C>(R: Rules<K, C>, keys: seq<K>, was: seq<C>, table: seq<Entry>, coef: seq<C>, p: nat, q: nat)
    requires Sound(R) && Sweeping(R, keys, was, table, coef, p, q) && q < |table| && table[q].h == table[p].h
    requires R.same(keys[table[p].i], keys[table[q].i])
    ensures table[p].i < Bound(|keys|, table, p, q + 1) <= |keys| && Bound(|keys|, table, p, q + 1) > table[q].i
    ensures R.add(coef[table[p].i], coef[table[q].i])
      == ClassSum(R, keys, was, table[p].i, Bound(|keys|, table, p, q + 1))
  {
    hide Sound, Apart, Done, Taken;
    GapSum(R, keys, was, table, p, q);
  }

  lemma StepErase<K(!new), C>(R: Rules<K, C>, keys: seq<K>, was: seq<C>, table: seq<Entry>, coef: seq<C>, p: nat,
      q: nat)
    requires Sound(R) && Sweeping(R, keys, was, table, coef, p, q) && q < |table| && table[q].h == table[p].h
    requires R.same(keys[table[p].i], keys[table[q].i])
    ensures var i, j := table[p].i, table[q].i;
            Sweeping(R, keys, was, Without(table, q), coef[i := R.add(coef[i], coef[j])][j := R.zero], p, q)
    ensures Missing(R, keys, Without(table, q), table[q].i)
  {
    hide Sound, Taken, Apart, Done, Pending, ClassSum, Ordered;
    var i, j, next := table[p].i, table[q].i, Without(table, q);
    var after := coef[i := R.add(coef[i], coef[j])][j := R.zero];
    WithoutShape(R, keys, table, q);
    EraseKeeps(R, keys, was, table, coef, p, q, after[i], R.zero);
    EraseSum(R, keys, was, table, coef, p, q);
    assert next[p] == table[p] && Bound(|keys|, next, p, q) == Bound(|keys|, table, p, q + 1);
    forall k: nat | Missing(R, keys, next, k)
      ensures after[k] == R.zero && Taken(R, keys, next, p + 1, k)
      ensures R.same(keys[i], keys[k]) ==> k < Bound(|keys|, next, p, q)
    {
      WithoutMissing(R, keys, table, q, k);
      assert KeyEntry(R, keys, i) == table[p] && table[p] in table;
      TakenStays(R, keys, table, p, q, k);
    }
    ErasedMissing(R, keys, table, q);
  }

  lemma ErasedMissing<K, C>(R: Rules<K, C>, keys: seq<K>, table: seq<Entry>, q: nat)
    requires q < |table| && Ordered(table) && Genuine(R, keys, table)
    ensures Missing(R, keys, Without(table, q), table[q].i)
  {
    WithoutShape(R, keys, table, q);
  }

  lemma EndSweep<K(!new), C>(R: Rules<K, C>, keys: seq<K>, was: seq<C>, table: seq<Entry>, coef: seq<C>, p: nat, q: nat)
    requires Sound(R) && Sweeping(R, keys, was, table, coef, p, q) && (q < |table| ==> table[q].h != table[p].h)
    ensures Swept(R, keys, was, table, coef, p + 1)
  {
    forall b | q <= b < |table| ensures !R.same(keys[table[p].i], keys[table[b].i]) {
      OrderedPair(table, p, q);
      OrderedPair(table, q, b);
    }
  }

  // At the end of the map every class has been added up.
  lemma AllSwept<K(!new), C>(R: Rules<K, C>, keys: seq<K>, was: seq<C>, table: seq<Entry>, coef: seq<C>, k: nat)
    requires Sound(R) && Swept(R, keys, was, table, coef, |table|) && k < |keys|
    ensures coef[k] == CollectedAt(R, keys, was, k) && (First(R, keys, k) <==> !Missing(R, keys, table, k))
  {
    hide ClassSum;
    var e := KeyEntry(R, keys, k);
    if e in table {
      var c :| 0 <= c < |table| && table[c] == e;
      forall j | 0 <= j < k ensures !R.same(keys[j], keys[k]) {
        EarlierDiffers(R, keys, table, c, j);
      }
    }
  }

  // Before an entry that is left no other equals it.
  lemma EarlierDiffers<K(!new), C>(R: Rules<K, C>, keys: seq<K>, table: seq<Entry>, c: nat, j: nat)
    requires Sound(R) && Genuine(R, keys, table) && Apart(R, keys, table, |table|) && c < |table| && j < table[c].i
    requires Missing(R, keys, table, j) ==> Taken(R, keys, table, |table|, j)
    ensures !R.same(keys[j], keys[table[c].i])
  {
    var a: nat;
    if KeyEntry(R, keys, j) in table {
      a :| 0 <= a < |table| && table[a] == KeyEntry(R, keys, j);
    } else {
      a :| 0 <= a < |table| && table[a].i < j && R.same(keys[table[a].i], keys[j]);
    }
    assert a != c && R.same(keys[table[a].i], keys[j]);
    assert !R.same(keys[table[a].i], keys[table[c].i]) by {
      if a < c {
        assert !R.same(keys[table[a].i], keys[table[c].i]);
      } else {
        assert !R.same(keys[table[c].i], keys[table[a].i]);
      }
    }
  }

  // ----------------------------------------------------------------- The loops

  class Collector<K(!new), C> {
    const rules: Rules<K, C>
    var keys: seq<K>
    var coef: seq<C>
    var table: seq<Entry>

    constructor (rules: Rules<K, C>, keys: seq<K>, coef: seq<C>)
      ensures this.rules == rules && this.keys == keys && this.coef == coef
    {
      this.rules, this.keys, this.coef, table := rules, keys, coef, [];
    }

    method FillHashMap()
      requires |keys| == |coef|
      modifies `table
      ensures Ordered(table) && Genuine(rules, keys, table)
      ensures forall k: nat :: !Missing(rules, keys, table, k)
    {
      table := [];
      for i := 0 to |keys|
        invariant Ordered(table) && Genuine(rules, keys, table)
        invariant forall x :: x in table ==> x.i < i
        invariant forall k: nat :: k < i ==> !Missing(rules, keys, table, k)
      {
        var e := KeyEntry(rules, keys, i);
        InsertedOrdered(table, e);
        InsertedAll(rules, keys, table, i);
        table := Inserted(table, e);
      }
    }

    method CollectFromHashMap() returns (applied: bool)
      requires Sound(rules) && |keys| == |coef|
      requires Ordered(table) && Genuine(rules, keys, table) && forall k: nat :: !Missing(rules, keys, table, k)
      modifies `coef, `table
      ensures coef == Collected(rules, keys, old(coef))
      ensures applied <==> exists k: nat :: k < |keys| && !First(rules, keys, k)
    {
      hide Swept, Sweeping, Sound, Missing;
      applied := false;
      ghost var was := coef;
      var ht: nat := 0;
      SweptAtStart(rules, keys, coef, table);
      while ht < |table|
        invariant |coef| == |was| && Swept(rules, keys, was, table, coef, ht) && ht <= |table|
        invariant applied <==> exists k: nat :: Missing(rules, keys, table, k)
        decreases |table| - ht
      {
        var curr := table[ht].h;
        ghost var size := |table|;
        var thisbin1: nat := ht;
        while thisbin1 < |table| && table[thisbin1].h == curr
          invariant ht <= thisbin1 <= |table| <= size && (thisbin1 == ht ==> ht < |table| && table[ht].h == curr)
          invariant Swept(rules, keys, was, table, coef, thisbin1)
          invariant applied <==> exists k: nat :: Missing(rules, keys, table, k)
          decreases |table| - thisbin1
        {
          SweptShape(rules, keys, was, table, coef, thisbin1);
          ghost var length := |table|;
          StartSweep(rules, keys, was, table, coef, thisbin1);
          var thisbin2: nat := thisbin1 + 1;
          while thisbin2 < |table| && table[thisbin2].h == curr
            invariant ht <= thisbin1 < thisbin2 <= |table| <= length && table[thisbin1].h == curr
            invariant Sweeping(rules, keys, was, table, coef, thisbin1, thisbin2)
            invariant applied <==> exists k: nat :: Missing(rules, keys, table, k)
            decreases |table| - thisbin2
          {
            SweepingShape(rules, keys, was, table, coef, thisbin1, thisbin2);
            var i, j := table[thisbin1].i, table[thisbin2].i;
            if rules.same(keys[i], keys[j]) {
              StepErase(rules, keys, was, table, coef, thisbin1, thisbin2);
              applied := true;
              coef := coef[i := rules.add(coef[i], coef[j])];
              coef := coef[j := rules.zero];
              table := table[..thisbin2] + table[thisbin2 + 1..];
            } else {
              StepOver(rules, keys, was, table, coef, thisbin1, thisbin2);
              thisbin2 := thisbin2 + 1;
            }
          }
          EndSweep(rules, keys, was, table, coef, thisbin1, thisbin2);
          thisbin1 := thisbin1 + 1;
        }
        SweptShape(rules, keys, was, table, coef, thisbin1);
        ht := thisbin1;
      }
      AllCollected(rules, keys, was, table, coef);
    }
  }

  lemma InsertedAll<K, C>(R: Rules<K, C>, keys: seq<K>, table: seq<Entry>, i: nat)
    requires i < |keys| && Genuine(R, keys, table) && forall x :: x in table ==> x.i < i
    requires forall k: nat :: k < i ==> !Missing(R, keys, table, k)
    ensures var next := Inserted(table, KeyEntry(R, keys, i));
            && Genuine(R, keys, next) && (forall x :: x in next ==> x.i < i + 1)
            && (forall k: nat :: k < i + 1 ==> !Missing(R, keys, next, k))
  {
    var e := KeyEntry(R, keys, i);
    var next := Inserted(table, e);
    forall x ensures x in next <==> x == e || x in table { InsertedMembers(table, e, x); }
    forall a | 0 <= a < |next| ensures next[a].i < |keys| && next[a] == KeyEntry(R, keys, next[a].i) {
      assert next[a] in next;
    }
    forall k: nat | k < i + 1 ensures !Missing(R, keys, next, k) {
      assert k < i ==> !Missing(R, keys, table, k);
      assert KeyEntry(R, keys, k) in next;
    }
  }

  lemma SweptAtStart<K(!new), C>(R: Rules<K, C>, keys: seq<K>, coef: seq<C>, table: seq<Entry>)
    requires |keys| == |coef| && Ordered(table) && Genuine(R, keys, table)
      && forall k: nat :: !Missing(R, keys, table, k)
    ensures Swept(R, keys, coef, table, coef, 0)
  {
  }

  lemma SweptShape<K, C>(R: Rules<K, C>, keys: seq<K>, was: seq<C>, table: seq<Entry>, coef: seq<C>, p: nat)
    requires Swept(R, keys, was, table, coef, p)
    ensures p <= |table| && Shape(R, keys, was, table, coef)
  {
  }

  lemma SweepingShape<K, C>(R: Rules<K, C>, keys: seq<K>, was: seq<C>, table: seq<Entry>, coef: seq<C>, p: nat, q: nat)
    requires Sweeping(R, keys, was, table, coef, p, q)
    ensures p < q <= |table| && Shape(R, keys, was, table, coef)
  {
  }

  lemma AllCollected<K(!new), C>(R: Rules<K, C>, keys: seq<K>, was: seq<C>, table: seq<Entry>, coef: seq<C>)
    requires Sound(R) && Swept(R, keys, was, table, coef, |table|)
    ensures |was| == |keys| && coef == Collected(R, keys, was)
    ensures forall k: nat :: Missing(R, keys, table, k) <==> k < |keys| && !First(R, keys, k)
  {
    hide Sound, First, CollectedAt;
    forall k: nat | k < |keys|
      ensures coef[k] == CollectedAt(R, keys, was, k) && (First(R, keys, k) <==> !Missing(R, keys, table, k))
    {
      AllSwept(R, keys, was, table, coef, k);
    }
  }
}
