/** Finite sums over the reals. */
module Sums {

  /** The entries of a matrix, by row and column. */
  type Mat = (int, int) -> real

  lemma MulAssociative(u: real, v: real, w: real)
    ensures u * v * w == u * (v * w)
  {
  }

  function Sum(n: nat, f: int -> real): real {
    if n == 0 then 0.0 else Sum(n - 1, f) + f(n - 1)
  }

  lemma {:induction false} SumExt(n: nat, f: int -> real, g: int -> real)
    requires forall i | 0 <= i < n :: f(i) == g(i)
    ensures Sum(n, f) == Sum(n, g)
  {
    if n > 0 {
      SumExt(n - 1, f, g);
    }
  }

  lemma {:induction false} SumZero(n: nat, f: int -> real)
    requires forall i | 0 <= i < n :: f(i) == 0.0
    ensures Sum(n, f) == 0.0
  {
    if n > 0 {
      SumZero(n - 1, f);
    }
  }

  /** All terms but the k-th vanish. */
  lemma {:induction false} SumSingle(n: nat, f: int -> real, k: nat)
    requires k < n
    requires forall i | 0 <= i < n && i != k :: f(i) == 0.0
    ensures Sum(n, f) == f(k)
  {
    if k == n - 1 {
      SumZero(n - 1, f);
    } else {
      SumSingle(n - 1, f, k);
    }
  }

  lemma {:induction false} SumAdd(n: nat, f: int -> real, g: int -> real, h: int -> real)
    requires forall i | 0 <= i < n :: h(i) == f(i) + g(i)
    ensures Sum(n, h) == Sum(n, f) + Sum(n, g)
  {
    if n > 0 {
      SumAdd(n - 1, f, g, h);
    }
  }

  lemma {:induction false} SumScale(n: nat, c: real, f: int -> real, h: int -> real)
    requires forall i | 0 <= i < n :: h(i) == c * f(i)
    ensures Sum(n, h) == c * Sum(n, f)
  {
    if n > 0 {
      SumScale(n - 1, c, f, h);
    }
  }

  function Scaled(f: int -> real, c: real): int -> real {
    i => f(i) * c
  }

  lemma {:induction false} SumScaled(n: nat, f: int -> real, c: real)
    ensures Sum(n, Scaled(f, c)) == Sum(n, f) * c
  {
    if n > 0 {
      SumScaled(n - 1, f, c);
    }
  }

  /** Interchange of a double sum. */
  lemma {:induction false} SumSwap(m: nat, n: nat, f: Mat)
    ensures Sum(m, i => Sum(n, j => f(i, j))) == Sum(n, j => Sum(m, i => f(i, j)))
  {
    var rowSum := (i: int) => Sum(n, j => f(i, j));
    if m == 0 {
      SumZero(n, j => Sum(m, i => f(i, j)));
    } else {
      var shorter := (j: int) => Sum(m - 1, i => f(i, j));
      var longer := (j: int) => Sum(m, i => f(i, j));
      var last := (j: int) => f(m - 1, j);
      SumSwap(m - 1, n, f);
      forall j | 0 <= j < n ensures longer(j) == shorter(j) + last(j) {
        var column := (i: int) => f(i, j);
        assert longer(j) == Sum(m, column);
      }
      SumAdd(n, shorter, last, longer);
      assert Sum(m, rowSum) == Sum(m - 1, rowSum) + rowSum(m - 1);
      SumExt(n, j => f(m - 1, j), last);
    }
  }
}
