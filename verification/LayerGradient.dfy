/**
  The kernel (src/cuda/fused_msp_backward_kernel.cu) computes the gradient of
  the layer's own forward pass (src/python/msp/plugin_layer.py): given the
  gradient G of a loss with respect to the layer's output, fed with
  s G B, it yields the gradient with respect to A.
 */
module LayerGradient {
  import opened Sums
  import opened Matrices
  import opened GradientKernel
  import opened PluginLayer

  // ---------------------------------------------------------------------
  // The entrywise inner product
  // ---------------------------------------------------------------------

  function RowTerms(p: Matrix, q: Matrix, i: int): int -> real {
    k => p.at(i, k) * q.at(i, k)
  }

  function RowInners(p: Matrix, q: Matrix): int -> real {
    i => Sum(p.cols, RowTerms(p, q, i))
  }

  function Inner(p: Matrix, q: Matrix): real
    requires p.rows == q.rows && p.cols == q.cols
  {
    Sum(p.rows, RowInners(p, q))
  }

  lemma InnerOfSum(p: Matrix, q: Matrix, g: Matrix)
    requires p.rows == q.rows == g.rows && p.cols == q.cols == g.cols
    ensures Inner(Add(p, q), g) == Inner(p, g) + Inner(q, g)
  {
    var sum := Add(p, q);
    forall i: int ensures RowInners(sum, g)(i) == RowInners(p, g)(i) + RowInners(q, g)(i) {
      forall k: int ensures RowTerms(sum, g, i)(k) == RowTerms(p, g, i)(k) + RowTerms(q, g, i)(k) {
        MulDistributes(g.at(i, k), p.at(i, k), q.at(i, k));
      }
      SumAdd(p.cols, RowTerms(p, g, i), RowTerms(q, g, i), RowTerms(sum, g, i));
    }
    SumAdd(p.rows, RowInners(p, g), RowInners(q, g), RowInners(sum, g));
  }

  lemma Swapped(u: real, v: real, s: real)
    ensures u * s * v == u * (v * s)
  {
  }

  /** A factor may move to the other side. */
  lemma InnerOfScaled(p: Matrix, g: Matrix, s: real)
    requires p.rows == g.rows && p.cols == g.cols
    ensures Inner(Scale(p, s), g) == Inner(p, Scale(g, s))
  {
    forall i: int ensures RowInners(Scale(p, s), g)(i) == RowInners(p, Scale(g, s))(i) {
      forall k: int ensures RowTerms(Scale(p, s), g, i)(k) == RowTerms(p, Scale(g, s), i)(k) {
        Swapped(p.at(i, k), g.at(i, k), s);
      }
      SumExt(p.cols, RowTerms(Scale(p, s), g, i), RowTerms(p, Scale(g, s), i));
    }
    SumExt(p.rows, RowInners(Scale(p, s), g), RowInners(p, Scale(g, s)));
  }

  /** And out of the inner product. */
  lemma InnerTimes(p: Matrix, g: Matrix, s: real)
    requires p.rows == g.rows && p.cols == g.cols
    ensures Inner(Scale(p, s), g) == Inner(p, g) * s
  {
    forall i: int ensures RowInners(Scale(p, s), g)(i) == Scaled(RowInners(p, g), s)(i) {
      forall k: int ensures RowTerms(Scale(p, s), g, i)(k) == Scaled(RowTerms(p, g, i), s)(k) {
        Swapped(p.at(i, k), g.at(i, k), s);
        MulAssociative(p.at(i, k), g.at(i, k), s);
      }
      SumScaled(p.cols, RowTerms(p, g, i), s);
      SumExt(p.cols, RowTerms(Scale(p, s), g, i), Scaled(RowTerms(p, g, i), s));
    }
    SumScaled(p.rows, RowInners(p, g), s);
    SumExt(p.rows, RowInners(Scale(p, s), g), Scaled(RowInners(p, g), s));
  }

  /** The inner product of two rows is a diagonal entry of P Q^T. */
  lemma RowInnerIsDiagonal(p: Matrix, q: Matrix, i: int)
    requires p.rows == q.rows && p.cols == q.cols
    ensures RowInners(p, q)(i) == MatMul(p, Transpose(q)).at(i, i)
  {
    SumExt(p.cols, RowTerms(p, q, i), Products(p.at, Transpose(q).at, i, i));
  }

  /** Multiplying by B^T on the left side is multiplying by B on the right side. */
  lemma InnerAdjoint(u: Matrix, b: Matrix, g: Matrix)
    requires u.cols == b.cols && g.rows == u.rows && g.cols == b.rows
    ensures Inner(MatMul(u, Transpose(b)), g) == Inner(u, MatMul(g, b))
  {
    var left, right := MatMul(u, Transpose(b)), MatMul(g, b);
    MatMulAssociative(u, Transpose(b), Transpose(g));
    TransposeOfProduct(g, b);
    MatMulCongruent(u, Transpose(right), MatMul(Transpose(b), Transpose(g)));
    forall i | 0 <= i < u.rows ensures RowInners(left, g)(i) == RowInners(u, right)(i) {
      RowInnerIsDiagonal(left, g, i);
      RowInnerIsDiagonal(u, right, i);
      assert HasEntry(MatMul(left, Transpose(g)), i, i);
      assert HasEntry(MatMul(u, Transpose(right)), i, i);
    }
    SumExt(u.rows, RowInners(left, g), RowInners(u, right));
  }

  lemma AdapterAdjoint(u: Matrix, b: Matrix, g: Matrix, s: real)
    requires u.cols == b.cols && g.rows == u.rows && g.cols == b.rows
    ensures Inner(Scale(MatMul(u, Transpose(b)), s), g) == Inner(u, Scale(MatMul(g, b), s))
  {
    InnerTimes(MatMul(u, Transpose(b)), g, s);
    InnerAdjoint(u, b, g);
    InnerTimes(u, MatMul(g, b), s);
    InnerOfScaled(u, MatMul(g, b), s);
  }

  // ---------------------------------------------------------------------
  // The loss of the layer and the loss of the kernel
  // ---------------------------------------------------------------------

  /** A row-major buffer with the entries of a matrix. */
  ghost predicate Flattens(s: seq<real>, m: Matrix) {
    |s| == m.rows * m.cols && forall i, j | HasEntry(m, i, j) :: At(s, i * m.cols + j) == m.at(i, j)
  }

  /** What the loss sees of the layer: its output against the upstream gradient g. */
  ghost function OutputLoss(l: Layer, x: Matrix, g: Matrix): real
    requires l.Valid() && x.cols == l.base.weight.cols && g.rows == x.rows && g.cols == l.base.weight.rows
    reads l
  {
    Inner(l.Forward(x), g)
  }

  /** The launch that matches a layer, its input and its upstream gradient. */
  ghost predicate Matches(c: Launch, l: Layer, x: Matrix, g: Matrix, xs: seq<real>, gradU: seq<real>)
    reads l
  {
    && l.Valid() && l.routingGateEnabled
    && x.cols == l.base.weight.cols && g.rows == x.rows && g.cols == l.base.weight.rows
    && c.batch == x.rows && c.inFeatures == x.cols && c.rank == l.rank
    && Flattens(xs, x) && Flattens(gradU, Scale(MatMul(g, l.b), l.scaling))
  }

  lemma ProjectIsInput(c: Launch, l: Layer, x: Matrix, xs: seq<real>, b: int, r: int)
    requires l.Valid() && x.cols == l.base.weight.cols && c.inFeatures == x.cols && Flattens(xs, x) && 0 <= b < x.rows
    ensures Project(c, xs, l.a.at, b, r) == MatMul(x, Transpose(l.a)).at(b, r)
  {
    forall k | 0 <= k < x.cols
      ensures ProjectTerms(c, xs, l.a.at, b, r)(k) == Products(x.at, Transpose(l.a).at, b, r)(k)
    {
      assert HasEntry(x, b, k);
    }
    SumExt(x.cols, ProjectTerms(c, xs, l.a.at, b, r), Products(x.at, Transpose(l.a).at, b, r));
  }

  /** The kernel's loss is the inner product of x A^T with s G B. */
  lemma KernelLossIsInner(c: Launch, l: Layer, x: Matrix, g: Matrix, xs: seq<real>, gradU: seq<real>)
    requires Matches(c, l, x, g, xs, gradU)
    ensures Loss(c, xs, gradU, l.a.at) == Inner(MatMul(x, Transpose(l.a)), Scale(MatMul(g, l.b), l.scaling))
  {
    var u, upstream := MatMul(x, Transpose(l.a)), Scale(MatMul(g, l.b), l.scaling);
    forall b | 0 <= b < x.rows ensures RowLosses(c, xs, gradU, l.a.at)(b) == RowInners(u, upstream)(b) {
      forall r | 0 <= r < c.rank ensures LossTerms(c, xs, gradU, l.a.at, b)(r) == RowTerms(u, upstream, b)(r) {
        ProjectIsInput(c, l, x, xs, b, r);
        assert HasEntry(upstream, b, r);
      }
      SumExt(c.rank, LossTerms(c, xs, gradU, l.a.at, b), RowTerms(u, upstream, b));
    }
    SumExt(x.rows, RowLosses(c, xs, gradU, l.a.at), RowInners(u, upstream));
  }

  /** The layer's loss is the frozen layer's loss and the kernel's loss. */
  lemma OutputLossSplits(c: Launch, l: Layer, x: Matrix, g: Matrix, xs: seq<real>, gradU: seq<real>)
    requires Matches(c, l, x, g, xs, gradU)
    ensures OutputLoss(l, x, g) == Inner(Apply(l.base.weight, l.base.bias, x), g) + Loss(c, xs, gradU, l.a.at)
  {
    var u := MatMul(x, Transpose(l.a));
    InnerOfSum(Apply(l.base.weight, l.base.bias, x), Scale(MatMul(u, Transpose(l.b)), l.scaling), g);
    AdapterAdjoint(u, l.b, g, l.scaling);
    KernelLossIsInner(c, l, x, g, xs, gradU);
  }

  lemma LossCongruent(c: Launch, xs: seq<real>, gradU: seq<real>, a: Mat, a': Mat)
    requires forall r, k | 0 <= r < c.rank && 0 <= k < c.inFeatures :: a(r, k) == a'(r, k)
    ensures Loss(c, xs, gradU, a) == Loss(c, xs, gradU, a')
  {
    forall b: int ensures RowLosses(c, xs, gradU, a)(b) == RowLosses(c, xs, gradU, a')(b) {
      forall r | 0 <= r < c.rank ensures LossTerms(c, xs, gradU, a, b)(r) == LossTerms(c, xs, gradU, a', b)(r) {
        SumExt(c.inFeatures, ProjectTerms(c, xs, a, b, r), ProjectTerms(c, xs, a', b, r));
      }
      SumExt(c.rank, LossTerms(c, xs, gradU, a, b), LossTerms(c, xs, gradU, a', b));
    }
    SumExt(c.batch, RowLosses(c, xs, gradU, a), RowLosses(c, xs, gradU, a'));
  }

  /** moved is the layer l with h added to A. */
  ghost predicate MovedBy(l: Layer, moved: Layer, h: Mat)
    reads l, moved
  {
    && l.Valid() && moved.Valid() && moved.base == l.base && moved.rank == l.rank
    && moved.b == l.b && moved.scaling == l.scaling && moved.routingGateEnabled == l.routingGateEnabled
    && forall i, j | HasEntry(l.a, i, j) :: moved.a.at(i, j) == l.a.at(i, j) + h(i, j)
  }

  /**
    For every input, upstream gradient and perturbation of A, the loss of the
    layer's output moves by exactly the product of the kernel's cells with the
    perturbation.
   */
  lemma KernelIsLayerGradient(c: Launch, l: Layer, moved: Layer, x: Matrix, g: Matrix,
                              xs: seq<real>, gradU: seq<real>, h: Mat)
    requires Matches(c, l, x, g, xs, gradU) && MovedBy(l, moved, h)
    ensures OutputLoss(moved, x, g) - OutputLoss(l, x, g) == GradientDot(c, xs, gradU, h)
  {
    OutputLossSplits(c, l, x, g, xs, gradU);
    OutputLossSplits(c, moved, x, g, xs, gradU);
    forall r, k | 0 <= r < c.rank && 0 <= k < c.inFeatures ensures moved.a.at(r, k) == Plus(l.a.at, h)(r, k) {
      assert HasEntry(l.a, r, k);
    }
    LossCongruent(c, xs, gradU, moved.a.at, Plus(l.a.at, h));
    KernelIsGradient(c, xs, gradU, l.a.at, h);
  }

  /** The same for the buffer that an unthrottled launch leaves in memory. */
  lemma LaunchIsLayerGradient(c: Launch, l: Layer, moved: Layer, x: Matrix, g: Matrix,
                              xs: seq<real>, gradU: seq<real>, before: seq<real>, after: seq<real>, h: Mat)
    requires Matches(c, l, x, g, xs, gradU) && MovedBy(l, moved, h)
    requires IsKernelResult(c, xs, gradU, before, after) && !c.Throttling()
    ensures OutputLoss(moved, x, g) - OutputLoss(l, x, g) == EntryDot(c, BufferEntries(c, after), h)
  {
    LaunchLeavesCells(c, xs, gradU, before, after, h);
    KernelIsLayerGradient(c, l, moved, x, g, xs, gradU, h);
  }
}
