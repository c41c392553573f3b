// Expression trees with a rational multiplier on every node, and their values
// in an arbitrary associative algebra: products need not commute.

module Expressions {

  // The node names that matter to the clean-up code. One is the name "1",
  // Number any other numerical name, Opaque every function or symbol.
  datatype Name = One | Number(q: real) | Sum | Prod | Frac | Sub | Opaque(id: string)

  datatype Ex = Node(name: Name, mult: real, kids: seq<Ex>)

  function Scaled(e: Ex, m: real): Ex {
    e.(mult := e.mult * m)
  }

  // A product, named so that equal factors give equal products at once.
  function Times(x: real, y: real): real {
    x * y
  }

  // ---------------------------------------------------------------- Algebras

  // Values V, and a meaning for every opaque node in terms of its children.
  datatype Model<!V> = Model(
    zero: V, one: V,
    add: (V, V) -> V, mul: (V, V) -> V, scale: (real, V) -> V, inv: V -> V,
    atom: (string, seq<V>) -> V)

  ghost predicate AddLaw<V>(M: Model<V>, x: V, y: V, z: V) {
    && M.add(M.add(x, y), z) == M.add(x, M.add(y, z))
    && M.add(M.zero, x) == x == M.add(x, M.zero)
  }

  ghost predicate MulLaw<V>(M: Model<V>, x: V, y: V, z: V) {
    && M.mul(M.mul(x, y), z) == M.mul(x, M.mul(y, z))
    && M.mul(M.one, x) == x == M.mul(x, M.one)
  }

  ghost predicate ScaleLaw<V>(M: Model<V>, a: real, b: real, x: V) {
    && M.scale(1.0, x) == x && M.scale(0.0, x) == M.zero && M.scale(a, M.zero) == M.zero
    && M.scale(a, M.scale(b, x)) == M.scale(a * b, x)
  }

  ghost predicate LinearLaw<V>(M: Model<V>, a: real, x: V, y: V) {
    && M.scale(a, M.add(x, y)) == M.add(M.scale(a, x), M.scale(a, y))
    && M.mul(M.scale(a, x), y) == M.scale(a, M.mul(x, y)) == M.mul(x, M.scale(a, y))
  }

  ghost predicate InverseLaw<V>(M: Model<V>, a: real, x: V) {
    M.inv(M.one) == M.one && (a != 0.0 ==> M.inv(M.scale(a, x)) == M.scale(1.0 / a, M.inv(x)))
  }

  // An associative algebra with unit over the rationals; multiplication need not
  // commute, and inv need only respect numbers.
  ghost predicate IsAlgebra<V(!new)>(M: Model<V>) {
    && (forall x, y, z :: AddLaw(M, x, y, z))
    && (forall x, y, z :: MulLaw(M, x, y, z))
    && (forall a, b, x :: ScaleLaw(M, a, b, x))
    && (forall a, x, y :: LinearLaw(M, a, x, y))
    && (forall a, x :: InverseLaw(M, a, x))
  }

  ghost predicate SplitLaw<V>(M: Model<V>, a: real, b: real, x: V) {
    M.scale(a + b, x) == M.add(M.scale(a, x), M.scale(b, x))
  }

  // Multiples add up. The clean-up does not need this.
  ghost predicate AddsUp<V(!new)>(M: Model<V>) {
    forall a, b, x :: SplitLaw(M, a, b, x)
  }

  // ------------------------------------------------------------------- Values

  ghost function SumOf<V>(M: Model<V>, vs: seq<V>): V {
    if vs == [] then M.zero else M.add(vs[0], SumOf(M, vs[1..]))
  }

  ghost function ProdOf<V>(M: Model<V>, vs: seq<V>): V {
    if vs == [] then M.one else M.mul(vs[0], ProdOf(M, vs[1..]))
  }

  ghost function Inverses<V>(M: Model<V>, vs: seq<V>): (r: seq<V>)
    ensures |r| == |vs| && forall i :: 0 <= i < |vs| ==> r[i] == M.inv(vs[i])
  {
    seq(|vs|, i requires 0 <= i < |vs| => M.inv(vs[i]))
  }

  // \frac{a}{b}{c} is a b^-1 c^-1, and \frac with one argument its inverse.
  ghost function FracOf<V>(M: Model<V>, vs: seq<V>): V {
    if |vs| == 0 then M.one
    else if |vs| == 1 then M.inv(vs[0])
    else M.mul(vs[0], ProdOf(M, Inverses(M, vs[1..])))
  }

  ghost function Negated<V>(M: Model<V>, vs: seq<V>): (r: seq<V>)
    ensures |r| == |vs| && forall i :: 0 <= i < |vs| ==> r[i] == M.scale(-1.0, vs[i])
  {
    seq(|vs|, i requires 0 <= i < |vs| => M.scale(-1.0, vs[i]))
  }

  // \sub{a}{b}{c} is a - b - c.
  ghost function SubOf<V>(M: Model<V>, vs: seq<V>): V {
    if vs == [] then M.zero else M.add(vs[0], SumOf(M, Negated(M, vs[1..])))
  }

  // The value a node of this name has before its own multiplier.
  ghost function Combine<V>(M: Model<V>, name: Name, vs: seq<V>): V {
    match name
    case One => M.one
    case Number(q) => M.scale(q, M.one)
    case Sum => SumOf(M, vs)
    case Prod => ProdOf(M, vs)
    case Frac => FracOf(M, vs)
    case Sub => SubOf(M, vs)
    case Opaque(id) => M.atom(id, vs)
  }

  ghost function Value<V>(M: Model<V>, e: Ex): V
    decreases e, 1
  {
    M.scale(e.mult, Combine(M, e.name, Values(M, e.kids)))
  }

  ghost function Values<V>(M: Model<V>, es: seq<Ex>): (vs: seq<V>)
    ensures |vs| == |es|
    decreases es, 0
  {
    if es == [] then [] else [Value(M, es[0])] + Values(M, es[1..])
  }

  ghost function Core<V>(M: Model<V>, e: Ex): V {
    Combine(M, e.name, Values(M, e.kids))
  }

  lemma {:induction false} ValuesAt<V>(M: Model<V>, es: seq<Ex>, i: nat)
    requires i < |es|
    ensures Values(M, es)[i] == Value(M, es[i])
  {
    if i > 0 { ValuesAt(M, es[1..], i - 1); }
  }

  lemma {:induction false} ValuesAppend<V>(M: Model<V>, a: seq<Ex>, b: seq<Ex>)
    ensures Values(M, a + b) == Values(M, a) + Values(M, b)
  {
    hide Value;
    if a == [] {
      assert a + b == b;
    } else {
      assert (a + b)[1..] == a[1..] + b;
      ValuesAppend(M, a[1..], b);
    }
  }

  // ------------------------------------------------------------ Algebra lemmas

  lemma AddLaws<V(!new)>(M: Model<V>, x: V, y: V, z: V)
    requires IsAlgebra(M)
    ensures AddLaw(M, x, y, z)
  {
  }

  lemma MulLaws<V(!new)>(M: Model<V>, x: V, y: V, z: V)
    requires IsAlgebra(M)
    ensures MulLaw(M, x, y, z)
  {
  }

  lemma ScaleLaws<V(!new)>(M: Model<V>, a: real, b: real, x: V)
    requires IsAlgebra(M)
    ensures ScaleLaw(M, a, b, x)
  {
  }

  lemma LinearLaws<V(!new)>(M: Model<V>, a: real, x: V, y: V)
    requires IsAlgebra(M)
    ensures LinearLaw(M, a, x, y)
  {
  }

  lemma InverseLaws<V(!new)>(M: Model<V>, a: real, x: V)
    requires IsAlgebra(M)
    ensures InverseLaw(M, a, x)
  {
  }

  lemma {:induction false} SumAppend<V(!new)>(M: Model<V>, a: seq<V>, b: seq<V>)
    requires IsAlgebra(M)
    ensures SumOf(M, a + b) == M.add(SumOf(M, a), SumOf(M, b))
  {
    hide IsAlgebra;
    if a == [] {
      assert a + b == b;
      AddLaws(M, SumOf(M, b), M.zero, M.zero);
    } else {
      assert (a + b)[1..] == a[1..] + b;
      SumAppend(M, a[1..], b);
      AddLaws(M, a[0], SumOf(M, a[1..]), SumOf(M, b));
    }
  }

  lemma {:induction false} ProdAppend<V(!new)>(M: Model<V>, a: seq<V>, b: seq<V>)
    requires IsAlgebra(M)
    ensures ProdOf(M, a + b) == M.mul(ProdOf(M, a), ProdOf(M, b))
  {
    hide IsAlgebra;
    if a == [] {
      assert a + b == b;
      MulLaws(M, ProdOf(M, b), M.one, M.one);
    } else {
      assert (a + b)[1..] == a[1..] + b;
      ProdAppend(M, a[1..], b);
      MulLaws(M, a[0], ProdOf(M, a[1..]), ProdOf(M, b));
    }
  }

  lemma SumOne<V(!new)>(M: Model<V>, x: V)
    requires IsAlgebra(M)
    ensures SumOf(M, [x]) == x
  {
    hide IsAlgebra;
    assert [x][1..] == [];
    AddLaws(M, x, x, x);
  }

  lemma ProdOne<V(!new)>(M: Model<V>, x: V)
    requires IsAlgebra(M)
    ensures ProdOf(M, [x]) == x
  {
    hide IsAlgebra;
    assert [x][1..] == [];
    MulLaws(M, x, x, x);
  }

  // A node with its multiplier replaced.
  lemma ValueWith<V>(M: Model<V>, e: Ex, m: real)
    ensures Value(M, e.(mult := m)) == M.scale(m, Core(M, e))
  {
  }

  lemma ValueScaled<V(!new)>(M: Model<V>, e: Ex, m: real)
    requires IsAlgebra(M)
    ensures Value(M, Scaled(e, m)) == M.scale(m, Value(M, e))
  {
    hide IsAlgebra;
    ScaleLaws(M, m, e.mult, Core(M, e));
    ValueWith(M, e, e.mult);
    assert e.(mult := e.mult) == e;
    ValueWith(M, e, m * e.mult);
    assert Scaled(e, m) == e.(mult := m * e.mult);
  }

  lemma ZeroValue<V(!new)>(M: Model<V>, e: Ex)
    requires IsAlgebra(M) && e.mult == 0.0
    ensures Value(M, e) == M.zero
  {
    hide IsAlgebra;
    ScaleLaws(M, 0.0, 0.0, Core(M, e));
  }

  // ----------------------------------------------------------------- Tree size

  function Size(e: Ex): (n: nat)
    ensures n > 0
    decreases e, 1
  {
    1 + Nodes(e.kids)
  }

  function Nodes(es: seq<Ex>): nat
    decreases es, 0
  {
    if es == [] then 0 else Size(es[0]) + Nodes(es[1..])
  }

  lemma {:induction false} NodesAppend(a: seq<Ex>, b: seq<Ex>)
    ensures Nodes(a + b) == Nodes(a) + Nodes(b)
  {
    if a == [] {
      assert a + b == b;
    } else {
      assert (a + b)[1..] == a[1..] + b;
      NodesAppend(a[1..], b);
    }
  }
}
