/** Matrices with their shapes, and the algebra the low-rank layer needs. */
module Matrices {
  import opened Sums

  datatype Matrix = Matrix(rows: nat, cols: nat, at: Mat)

  predicate HasEntry(p: Matrix, i: int, j: int) { 0 <= i < p.rows && 0 <= j < p.cols }

  /** Equal shapes and equal entries; what lies outside the shape does not matter. */
  ghost predicate Same(p: Matrix, q: Matrix) {
    p.rows == q.rows && p.cols == q.cols && forall i, j | HasEntry(p, i, j) :: p.at(i, j) == q.at(i, j)
  }

  function Zeros(rows: nat, cols: nat): Matrix {
    Matrix(rows, cols, (i, j) => 0.0)
  }

  function Transpose(p: Matrix): Matrix {
    Matrix(p.cols, p.rows, (i, j) => p.at(j, i))
  }

  function Scale(p: Matrix, s: real): Matrix {
    Matrix(p.rows, p.cols, (i, j) => p.at(i, j) * s)
  }

  function Add(p: Matrix, q: Matrix): Matrix
    requires p.rows == q.rows && p.cols == q.cols
  {
    Matrix(p.rows, p.cols, (i, j) => p.at(i, j) + q.at(i, j))
  }

  function Products(p: Mat, q: Mat, i: int, j: int): int -> real {
    k => p(i, k) * q(k, j)
  }

  function MatMul(p: Matrix, q: Matrix): Matrix
    requires p.cols == q.rows
  {
    Matrix(p.rows, q.cols, (i, j) => Sum(p.cols, Products(p.at, q.at, i, j)))
  }

  lemma MulDistributes(u: real, v: real, w: real)
    ensures u * (v + w) == u * v + u * w
  {
  }

  /** The summands of a product of three matrices at one entry. */
  function TripleProducts(p: Mat, q: Mat, r: Mat, i: int, j: int): Mat {
    (k, l) => p(i, k) * q(k, l) * r(l, j)
  }

  lemma LeftProduct(p: Matrix, q: Matrix, r: Matrix, i: int, j: int, l: int)
    requires p.cols == q.rows && q.cols == r.rows
    ensures Products(MatMul(p, q).at, r.at, i, j)(l) == Sum(p.cols, k => TripleProducts(p.at, q.at, r.at, i, j)(k, l))
  {
    var f := Products(p.at, q.at, i, l);
    SumScaled(p.cols, f, r.at(l, j));
    forall k: int ensures Scaled(f, r.at(l, j))(k) == TripleProducts(p.at, q.at, r.at, i, j)(k, l) {
      assert f(k) == p.at(i, k) * q.at(k, l);
    }
    SumExt(p.cols, Scaled(f, r.at(l, j)), k => TripleProducts(p.at, q.at, r.at, i, j)(k, l));
  }

  lemma RightProduct(p: Matrix, q: Matrix, r: Matrix, i: int, j: int, k: int)
    requires p.cols == q.rows && q.cols == r.rows
    ensures Products(p.at, MatMul(q, r).at, i, j)(k) == Sum(q.cols, l => TripleProducts(p.at, q.at, r.at, i, j)(k, l))
  {
    var f, u := Products(q.at, r.at, k, j), p.at(i, k);
    var terms := (l: int) => TripleProducts(p.at, q.at, r.at, i, j)(k, l);
    forall l: int ensures terms(l) == u * f(l) {
      assert TripleProducts(p.at, q.at, r.at, i, j)(k, l) == p.at(i, k) * q.at(k, l) * r.at(l, j);
      MulAssociative(u, q.at(k, l), r.at(l, j));
    }
    SumScale(q.cols, u, f, terms);
    SumExt(q.cols, terms, l => TripleProducts(p.at, q.at, r.at, i, j)(k, l));
  }

  lemma MatMulAssociative(p: Matrix, q: Matrix, r: Matrix)
    requires p.cols == q.rows && q.cols == r.rows
    ensures Same(MatMul(MatMul(p, q), r), MatMul(p, MatMul(q, r)))
  {
    forall i: int, j: int ensures MatMul(MatMul(p, q), r).at(i, j) == MatMul(p, MatMul(q, r)).at(i, j) {
      var t := TripleProducts(p.at, q.at, r.at, i, j);
      forall l: int ensures Products(MatMul(p, q).at, r.at, i, j)(l) == Sum(p.cols, k => t(k, l)) {
        LeftProduct(p, q, r, i, j, l);
        SumExt(p.cols, k => TripleProducts(p.at, q.at, r.at, i, j)(k, l), k => t(k, l));
      }
      forall k: int ensures Products(p.at, MatMul(q, r).at, i, j)(k) == Sum(q.cols, l => t(k, l)) {
        RightProduct(p, q, r, i, j, k);
        SumExt(q.cols, l => TripleProducts(p.at, q.at, r.at, i, j)(k, l), l => t(k, l));
      }
      SumExt(q.cols, Products(MatMul(p, q).at, r.at, i, j), l => Sum(p.cols, k => t(k, l)));
      SumExt(p.cols, Products(p.at, MatMul(q, r).at, i, j), k => Sum(q.cols, l => t(k, l)));
      SumSwap(p.cols, q.cols, t);
    }
  }

  lemma TransposeOfProduct(p: Matrix, q: Matrix)
    requires p.cols == q.rows
    ensures Same(Transpose(MatMul(p, q)), MatMul(Transpose(q), Transpose(p)))
  {
    forall i: int, j: int ensures Transpose(MatMul(p, q)).at(i, j) == MatMul(Transpose(q), Transpose(p)).at(i, j) {
      SumExt(p.cols, Products(p.at, q.at, j, i), Products(Transpose(q).at, Transpose(p).at, i, j));
    }
  }

  /** Products depend on the entries inside the shapes only. */
  lemma MatMulCongruent(p: Matrix, q: Matrix, q': Matrix)
    requires p.cols == q.rows && Same(q, q')
    ensures Same(MatMul(p, q), MatMul(p, q'))
  {
    forall i, j | HasEntry(MatMul(p, q), i, j) ensures MatMul(p, q).at(i, j) == MatMul(p, q').at(i, j) {
      forall k | 0 <= k < p.cols ensures Products(p.at, q.at, i, j)(k) == Products(p.at, q'.at, i, j)(k) {
        assert HasEntry(q, k, j);
      }
      SumExt(p.cols, Products(p.at, q.at, i, j), Products(p.at, q'.at, i, j));
    }
  }

  lemma MatMulOfSum(p: Matrix, q: Matrix, r: Matrix)
    requires p.cols == q.rows && q.rows == r.rows && q.cols == r.cols
    ensures Same(MatMul(p, Add(q, r)), Add(MatMul(p, q), MatMul(p, r)))
  {
    forall i: int, j: int ensures MatMul(p, Add(q, r)).at(i, j) == Add(MatMul(p, q), MatMul(p, r)).at(i, j) {
      forall k: int
        ensures Products(p.at, Add(q, r).at, i, j)(k) == Products(p.at, q.at, i, j)(k) + Products(p.at, r.at, i, j)(k)
      {
        MulDistributes(p.at(i, k), q.at(k, j), r.at(k, j));
      }
      SumAdd(p.cols, Products(p.at, q.at, i, j), Products(p.at, r.at, i, j), Products(p.at, Add(q, r).at, i, j));
    }
  }

  lemma MatMulOfScaled(p: Matrix, q: Matrix, s: real)
    requires p.cols == q.rows
    ensures Same(MatMul(p, Scale(q, s)), Scale(MatMul(p, q), s))
  {
    forall i: int, j: int ensures MatMul(p, Scale(q, s)).at(i, j) == Scale(MatMul(p, q), s).at(i, j) {
      var f := Products(p.at, q.at, i, j);
      forall k: int ensures Products(p.at, Scale(q, s).at, i, j)(k) == Scaled(f, s)(k) {
        MulAssociative(p.at(i, k), q.at(k, j), s);
      }
      SumScaled(p.cols, f, s);
      SumExt(p.cols, Products(p.at, Scale(q, s).at, i, j), Scaled(f, s));
    }
  }

  lemma MatMulOfZeros(p: Matrix, cols: nat)
    ensures Same(MatMul(p, Zeros(p.cols, cols)), Zeros(p.rows, cols))
  {
    forall i: int, j: int ensures MatMul(p, Zeros(p.cols, cols)).at(i, j) == 0.0 {
      SumZero(p.cols, Products(p.at, Zeros(p.cols, cols).at, i, j));
    }
  }
}
