// Two by two matrices are one of the algebras the clean-up results speak of, so
// the order of factors really is kept.

module Matrices {
  import opened Expressions
  import opened CleanupRules
  import opened CleanupTheorems
  import opened HashBins
  import opened CollectTermsClass

  datatype Matrix = Matrix(p: real, q: real, r: real, s: real)

  const ZERO_MATRIX := Matrix(0.0, 0.0, 0.0, 0.0)
  const UNIT := Matrix(1.0, 0.0, 0.0, 1.0)

  function Plus(x: Matrix, y: Matrix): Matrix {
    Matrix(x.p + y.p, x.q + y.q, x.r + y.r, x.s + y.s)
  }

  function Dot(a: real, b: real, x: real, y: real): real {
    a * x + b * y
  }

  function Product(x: Matrix, y: Matrix): Matrix {
    Matrix(Dot(x.p, x.q, y.p, y.r), Dot(x.p, x.q, y.q, y.s), Dot(x.r, x.s, y.p, y.r), Dot(x.r, x.s, y.q, y.s))
  }

  function Multiple(a: real, x: Matrix): Matrix {
    Matrix(Times(a, x.p), Times(a, x.q), Times(a, x.r), Times(a, x.s))
  }

  function Determinant(x: Matrix): real {
    x.p * x.s - x.q * x.r
  }

  // The inverse matrix where there is one.
  function Inverse(x: Matrix): Matrix {
    var d := Determinant(x);
    if d == 0.0 then ZERO_MATRIX else Matrix(x.s / d, -x.q / d, -x.r / d, x.p / d)
  }

  function MatrixModel(atom: (string, seq<Matrix>) -> Matrix): Model<Matrix> {
    Model(ZERO_MATRIX, UNIT, Plus, Product, Multiple, Inverse, atom)
  }

  lemma Row(a: real, b: real, c: real, d: real, e: real, f: real, g: real, h: real)
    ensures Dot(Dot(a, b, c, e), Dot(a, b, d, f), g, h) == Dot(a, b, Dot(c, d, g, h), Dot(e, f, g, h))
  {
  }

  lemma ProductAssociates(x: Matrix, y: Matrix, z: Matrix)
    ensures Product(Product(x, y), z) == Product(x, Product(y, z))
  {
    hide Dot;
    Row(x.p, x.q, y.p, y.q, y.r, y.s, z.p, z.r);
    Row(x.p, x.q, y.p, y.q, y.r, y.s, z.q, z.s);
    Row(x.r, x.s, y.p, y.q, y.r, y.s, z.p, z.r);
    Row(x.r, x.s, y.p, y.q, y.r, y.s, z.q, z.s);
  }

  lemma Spread(a: real, x: real, y: real, u: real, v: real)
    ensures Dot(Times(a, x), Times(a, y), u, v) == Times(a, Dot(x, y, u, v)) == Dot(x, y, Times(a, u), Times(a, v))
  {
  }

  lemma ProductScales(a: real, x: Matrix, y: Matrix)
    ensures Product(Multiple(a, x), y) == Multiple(a, Product(x, y)) == Product(x, Multiple(a, y))
  {
    hide Dot, Times;
    Spread(a, x.p, x.q, y.p, y.r);
    Spread(a, x.p, x.q, y.q, y.s);
    Spread(a, x.r, x.s, y.p, y.r);
    Spread(a, x.r, x.s, y.q, y.s);
  }

  lemma MultipleTwice(a: real, b: real, x: Matrix)
    ensures Multiple(a, Multiple(b, x)) == Multiple(Times(a, b), x)
  {
  }

  lemma ScaledQuotient(a: real, u: real, d: real, d': real)
    requires a != 0.0 && d != 0.0 && d' == a * a * d
    ensures d' != 0.0 && Times(a, u) / d' == Times(1.0 / a, u / d)
  {
    NonZeroProduct(a, a);
    NonZeroProduct(a * a, d);
    Cancelled(u / d, 1.0 / a, a, u, d);
    QuotientIs(Times(a, u), d', Times(1.0 / a, u / d));
  }

  lemma NonZeroProduct(x: real, y: real)
    requires x != 0.0 && y != 0.0
    ensures x * y != 0.0
  {
  }

  lemma Cancelled(q: real, w: real, a: real, u: real, d: real)
    requires q * d == u && w * a == 1.0
    ensures Times(w, q) * (a * a * d) == Times(a, u)
  {
    calc {
      Times(w, q) * (a * a * d);
      (w * a) * (a * (q * d));
      a * u;
    }
  }

  lemma QuotientIs(x: real, d: real, q: real)
    requires d != 0.0 && q * d == x
    ensures x / d == q
  {
  }

  lemma DeterminantScales(a: real, x: Matrix)
    ensures Determinant(Multiple(a, x)) == a * a * Determinant(x)
  {
    assert (a * x.p) * (a * x.s) == a * a * (x.p * x.s);
    assert (a * x.q) * (a * x.r) == a * a * (x.q * x.r);
  }

  lemma InverseScales(a: real, x: Matrix)
    requires a != 0.0
    ensures Inverse(Multiple(a, x)) == Multiple(1.0 / a, Inverse(x))
  {
    var d, d' := Determinant(x), Determinant(Multiple(a, x));
    DeterminantScales(a, x);
    if d != 0.0 {
      ScaledQuotient(a, x.s, d, d');
      ScaledQuotient(a, -x.q, d, d');
      ScaledQuotient(a, -x.r, d, d');
      ScaledQuotient(a, x.p, d, d');
    }
  }

  // However the opaque nodes are interpreted.
  lemma MatricesAreAnAlgebra(atom: (string, seq<Matrix>) -> Matrix)
    ensures IsAlgebra(MatrixModel(atom))
  {
    hide Product, Inverse, Determinant, Multiple;
    var M := MatrixModel(atom);
    forall x, y, z ensures AddLaw(M, x, y, z) {}
    forall x, y, z ensures MulLaw(M, x, y, z) { ProductAssociates(x, y, z); UnitProduct(x); }
    forall a, b, x ensures ScaleLaw(M, a, b, x) { MultipleTwice(a, b, x); MultipleEnds(a, x); }
    forall a, x, y ensures LinearLaw(M, a, x, y) { ProductScales(a, x, y); MultipleAdds(a, x, y); }
    forall a, x ensures InverseLaw(M, a, x) { UnitInverse(); if a != 0.0 { InverseScales(a, x); } }
  }

  // Matrices also obey what collecting terms asks for.
  lemma MatricesAddUp(atom: (string, seq<Matrix>) -> Matrix)
    ensures IsCommutativeSum(MatrixModel(atom))
  {
    var M := MatrixModel(atom);
    forall x, y ensures SwapLaw(M, x, y) {}
    forall a, b, x ensures SplitLaw(M, a, b, x) {}
  }

  lemma UnitProduct(x: Matrix)
    ensures Product(UNIT, x) == x == Product(x, UNIT)
  {
  }

  lemma MultipleAdds(a: real, x: Matrix, y: Matrix)
    ensures Multiple(a, Plus(x, y)) == Plus(Multiple(a, x), Multiple(a, y))
  {
  }

  lemma MultipleEnds(a: real, x: Matrix)
    ensures Multiple(1.0, x) == x && Multiple(0.0, x) == ZERO_MATRIX == Multiple(a, ZERO_MATRIX)
  {
  }

  lemma UnitInverse()
    ensures Inverse(UNIT) == UNIT
  {
  }

  // The clean-up may not exchange two factors: some model tells them apart.
  lemma FactorOrderMatters(x: Ex, y: Ex)
    requires x == Node(Opaque("x"), 1.0, []) && y == Node(Opaque("y"), 1.0, [])
    ensures exists M: Model<Matrix> ::
      IsAlgebra(M)
      && Value(M, Node(Prod, 1.0, [x, y])) != Value(M, Node(Prod, 1.0, [y, x]))
  {
    hide IsAlgebra;
    var f: (string, seq<Matrix>) -> Matrix :=
      (id, vs) => if id == "x" then Matrix(0.0, 1.0, 0.0, 0.0) else Matrix(0.0, 0.0, 1.0, 0.0);
    var M := MatrixModel(f);
    MatricesAreAnAlgebra(f);
    TwoFactors(M, x, y);
    TwoFactors(M, y, x);
  }

  lemma PairValue<V>(M: Model<V>, x: Ex, y: Ex)
    ensures Value(M, Node(Prod, 1.0, [x, y])) == M.scale(1.0, ProdOf(M, Values(M, [x, y])))
  {
  }

  lemma TwoFactors<V(!new)>(M: Model<V>, x: Ex, y: Ex)
    requires IsAlgebra(M)
    ensures Value(M, Node(Prod, 1.0, [x, y])) == M.mul(Value(M, x), Value(M, y))
  {
    hide IsAlgebra;
    hide Value;
    assert [x, y][1..] == [y] && [y][1..] == [];
    assert Values(M, [x, y]) == [Value(M, x)] + ([Value(M, y)] + []);
    PairValue(M, x, y);
    var vs := [Value(M, x), Value(M, y)];
    assert vs[1..] == [Value(M, y)];
    ProdOne(M, Value(M, y));
    ScaleLaws(M, 1.0, 1.0, M.mul(Value(M, x), Value(M, y)));
  }

  // ------------------------------------------------------------ Values that change

  // Every opaque node stands for the unit matrix.
  function UnitModel(): Model<Matrix> {
    MatrixModel((id, vs) => UNIT)
  }

  lemma UnitModelIsAnAlgebra()
    ensures IsAlgebra(UnitModel()) && IsCommutativeSum(UnitModel())
  {
    var atom: (string, seq<Matrix>) -> Matrix := (id, vs) => UNIT;
    assert UnitModel() == MatrixModel(atom);
    MatricesAreAnAlgebra(atom);
    MatricesAddUp(atom);
  }

  lemma UnitModelValue(id: string, m: real)
    ensures Value(UnitModel(), Node(Opaque(id), m, [])) == Multiple(m, UNIT)
  {
  }

  lemma MultiplesDiffer(m: real, n: real)
    requires m != 0.0 && n != 1.0
    ensures Multiple(n, Multiple(m, UNIT)) != Multiple(m, UNIT)
  {
    assert Multiple(n, Multiple(m, UNIT)).p == n * m;
  }

  // The lone factor of a nested product loses its multiplier when the outer product
  // is cleaned before the inner one, and the value with it.
  lemma UncleanChildChangesValue(id: string)
    ensures var e := Node(Prod, 1.0, [Node(Prod, 1.0, [Node(Opaque(id), 2.0, [])])]); var M := UnitModel();
            IsAlgebra(M) && Value(M, ProductLike(e).0) != Value(M, e)
  {
    hide IsAlgebra, ProductLike, Multiple, Value;
    var a := Node(Opaque(id), 2.0, []);
    var e, M := Node(Prod, 1.0, [Node(Prod, 1.0, [a])]), UnitModel();
    UnitModelIsAnAlgebra();
    UncleanChildLosesFactor(a);
    UncleanChildLoses(a);
    ProductLikeLoses(M, e);
    UnitModelValue(id, 1.0);
    MultiplesDiffer(1.0, 2.0);
  }

  // 3(a+a) collected into 2a is worth less.
  lemma LoneTermChangesValue(hash: Ex -> int, same: (Ex, Ex) -> bool, id: string)
    requires IsEquality(same) && forall x, m :: hash(WithMult(x, m)) == hash(x)
    ensures var e := Node(Sum, 3.0, [Node(Opaque(id), 1.0, []), Node(Opaque(id), 1.0, [])]); var M := UnitModel();
            && IsAlgebra(M) && IsCommutativeSum(M)
            && Value(M, CollectRule(TermRules(hash, same), e)) != Value(M, e)
  {
    hide IsAlgebra, IsCommutativeSum, Sound, Respects, CollectRule, CollectedTerms, Multiple, Value;
    var a, M := Node(Opaque(id), 1.0, []), UnitModel();
    ExactEquality(M, hash, same);
    var e := Node(Sum, 3.0, [a, a]);
    UnitModelIsAnAlgebra();
    LoneTermDropsMultiplier(hash, same, a);
    CollectRuleValue(M, hash, same, e);
    assert Scaled(a, 2.0) == Node(Opaque(id), 2.0, []);
    UnitModelValue(id, 2.0);
    MultiplesDiffer(2.0, 3.0);
  }
}
