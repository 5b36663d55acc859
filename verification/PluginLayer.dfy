/**
  The low-rank layer over a frozen linear layer
  (src/python/msp/plugin_layer.py), in exact arithmetic: conversions between
  floating-point types leave values as they are.
 */
module PluginLayer {
  import opened Wrappers
  import opened Rounding
  import opened Sums
  import opened Matrices
  import opened GradientKernel

  datatype DType = Float16 | BFloat16 | Float32 | Float64 {
    function Size(): nat {
      match this
      case Float16 => 2
      case BFloat16 => 2
      case Float32 => 4
      case Float64 => 8
    }
  }

  /** Two bytes for the half types, and twice as many for each step up. */
  lemma ElementSizes()
    ensures Float16.Size() == BFloat16.Size() == 2
    ensures Float32.Size() == 2 * Float16.Size() && Float64.Size() == 2 * Float32.Size()
  {
  }

  /** The frozen nn.Linear; its weight has one row per output feature. */
  datatype Linear = Linear(weight: Matrix, bias: Option<int -> real>, dtype: DType)

  /** A batch of inputs x through a linear map with the given weight and bias. */
  function Apply(weight: Matrix, bias: Option<int -> real>, x: Matrix): Matrix
    requires x.cols == weight.cols
  {
    var y := MatMul(x, Transpose(weight));
    match bias
    case None => y
    case Some(f) => Matrix(y.rows, y.cols, (i, j) => y.at(i, j) + f(j))
  }

  /** What an adapter of the given rank occupies: it grows with the perimeter of the weight, not with its area. */
  function AdapterBytes(base: Linear, rank: nat, dtype: DType): nat {
    rank * (base.weight.cols + base.weight.rows) * dtype.Size()
  }

  lemma AdapterSizes(base: Linear, rank: nat)
    ensures rank * base.weight.cols + base.weight.rows * rank == rank * (base.weight.cols + base.weight.rows)
  {
  }

  // ---------------------------------------------------------------------
  // Gradient gate
  // ---------------------------------------------------------------------

  datatype Param = MatrixA | MatrixB

  /** A registered backward hook. */
  datatype Hook = Hook(param: Param, numRows: nat, stride: nat)

  /** Every stride-th row stays active; ThermalMonitor admits only ratios in (0, 1]. */
  function GateStride(ratio: real): (stride: nat)
    requires 0.0 < ratio <= 1.0
    ensures stride >= 1
  {
    var rounded := RoundHalfEven(1.0 / ratio);
    if rounded < 1 then 1 else rounded
  }

  function Masked(grad: Matrix, stride: nat): Matrix
    requires stride >= 1
  {
    Matrix(grad.rows, grad.cols, (i, j) => if i % stride == 0 then grad.at(i, j) else 0.0)
  }

  lemma RemainderOfSum(rounds: nat, stride: nat, rest: nat)
    requires rest < stride
    ensures (rounds * stride + rest) % stride == rest
  {
    var n := rounds * stride + rest;
    var q, r := n / stride, n % stride;
    assert q * stride + r == n;
    FlatInjective(stride, rounds, rest, q, r);
  }

  /** Between two consecutive multiples of stride there is no third. */
  lemma MultipleOfStride(rounds: nat, stride: nat)
    requires stride >= 1
    ensures forall j | rounds * stride <= j < rounds * stride + stride :: j % stride == 0 <==> j == rounds * stride
  {
    forall j | rounds * stride <= j < rounds * stride + stride
      ensures j % stride == 0 <==> j == rounds * stride
    {
      RemainderOfSum(rounds, stride, j - rounds * stride);
    }
  }

  /** The slice assignment mask[::stride] = True on an all-false mask. */
  method BuildMask(numRows: nat, stride: nat) returns (mask: array<bool>)
    requires stride >= 1
    ensures fresh(mask) && mask.Length == numRows
    ensures forall i | 0 <= i < numRows :: mask[i] <==> i % stride == 0
  {
    mask := new bool[numRows](_ => false);
    var i := 0;
    ghost var rounds := 0;
    while i < numRows
      invariant i == rounds * stride && rounds >= 0
      invariant forall j | 0 <= j < numRows :: mask[j] <==> j < i && j % stride == 0
    {
      MultipleOfStride(rounds, stride);
      mask[i] := true;
      i := i + stride;
      rounds := rounds + 1;
    }
  }

  /** One call of a registered hook with the monitor's reading at that moment. */
  method RunHook(hook: Hook, temperature: real, threshold: real, grad: Matrix) returns (gated: Matrix)
    requires hook.stride >= 1 && grad.rows == hook.numRows
    ensures Same(gated, if temperature > threshold then Masked(grad, hook.stride) else grad)
  {
    if !(temperature > threshold) {
      return grad;
    }
    var mask := BuildMask(hook.numRows, hook.stride);
    var flags := mask[..];
    gated := Matrix(grad.rows, grad.cols,
      (i, j) => grad.at(i, j) * (if 0 <= i < |flags| && flags[i] then 1.0 else 0.0));
  }

  // ---------------------------------------------------------------------
  // The layer
  // ---------------------------------------------------------------------

  class Layer {
    const base: Linear
    const rank: nat
    const dtype: DType
    var a: Matrix
    var b: Matrix
    var scaling: real
    var routingGateEnabled: bool
    var gradGateHandles: seq<Hook>

    /** The pair of hooks that one call of GateGradients registers. */
    function GateHandles(stride: nat): seq<Hook> {
      [Hook(MatrixA, rank, stride), Hook(MatrixB, base.weight.rows, stride)]
    }

    ghost predicate Valid()
      reads this
    {
      && rank > 0
      && a.rows == rank && a.cols == base.weight.cols
      && b.rows == base.weight.rows && b.cols == rank
      && (gradGateHandles == [] ||
          (|gradGateHandles| == 2 && gradGateHandles[0].stride >= 1 &&
           gradGateHandles == GateHandles(gradGateHandles[0].stride)))
    }

    /** kaiming stands for the random initial values of A. */
    constructor (base: Linear, rank: nat, alpha: real, dtype: Option<DType>, kaiming: Mat)
      requires rank > 0
      ensures Valid()
      ensures this.base == base && this.rank == rank
      ensures this.dtype == if dtype.Some? then dtype.value else base.dtype
      ensures scaling == alpha / rank as real
      ensures b == Zeros(base.weight.rows, rank)
      ensures routingGateEnabled && gradGateHandles == []
    {
      this.base := base;
      this.rank := rank;
      this.dtype := if dtype.Some? then dtype.value else base.dtype;
      a := Matrix(rank, base.weight.cols, kaiming);
      b := Zeros(base.weight.rows, rank);
      scaling := alpha / rank as real;
      routingGateEnabled := true;
      gradGateHandles := [];
    }

    /** The rank test that precedes construction. */
    static method Create(base: Linear, rank: int, alpha: real, dtype: Option<DType>, kaiming: Mat)
      returns (r: Result<Layer, string>)
      ensures r.Err? <==> rank <= 0
      ensures r.Ok? ==>
        && fresh(r.value) && r.value.Valid()
        && r.value.base == base && r.value.rank == rank
        && r.value.dtype == (if dtype.Some? then dtype.value else base.dtype)
        && r.value.scaling == alpha / rank as real
        && r.value.b == Zeros(base.weight.rows, rank)
        && r.value.routingGateEnabled && r.value.gradGateHandles == []
    {
      if rank <= 0 {
        return Err("rank must be a positive integer");
      }
      var layer := new Layer(base, rank, alpha, dtype, kaiming);
      r := Ok(layer);
    }

    method ResetParameters(kaiming: Mat)
      requires Valid()
      modifies this`a, this`b
      ensures Valid()
      ensures a == Matrix(rank, base.weight.cols, kaiming) && b == Zeros(base.weight.rows, rank)
    {
      a := Matrix(a.rows, a.cols, kaiming);
      b := Zeros(b.rows, b.cols);
    }

    function Forward(x: Matrix): Matrix
      requires Valid() && x.cols == base.weight.cols
      reads this
    {
      var baseOut := Apply(base.weight, base.bias, x);
      if !routingGateEnabled then
        baseOut
      else
        var adapterOut := Scale(MatMul(MatMul(x, Transpose(a)), Transpose(b)), scaling);
        Add(baseOut, adapterOut)
    }

    method ClearGradientGate()
      modifies this`gradGateHandles
      ensures gradGateHandles == [] && (old(Valid()) ==> Valid())
    {
      gradGateHandles := [];
    }

    /** Registering again replaces the old hooks: there are always two or none. */
    method GateGradients(ratio: real)
      requires Valid() && 0.0 < ratio <= 1.0
      modifies this`gradGateHandles
      ensures Valid() && gradGateHandles == GateHandles(GateStride(ratio))
      ensures |gradGateHandles| == 2 && gradGateHandles[0] == Hook(MatrixA, a.rows, GateStride(ratio))
      ensures gradGateHandles[1] == Hook(MatrixB, b.rows, GateStride(ratio))
    {
      ClearGradientGate();
      var stride := GateStride(ratio);
      gradGateHandles := gradGateHandles + [Hook(MatrixA, a.rows, stride)];
      gradGateHandles := gradGateHandles + [Hook(MatrixB, b.rows, stride)];
    }

    function ParameterBytes(): (bytes: nat)
      reads this
      ensures Valid() ==> bytes == AdapterBytes(base, rank, dtype)
    {
      AdapterSizes(base, rank);
      (a.rows * a.cols + b.rows * b.cols) * dtype.Size()
    }
  }

  // ---------------------------------------------------------------------
  // The forward pass
  // ---------------------------------------------------------------------

  /** The frozen weight with the scaled low-rank product added. */
  function MergedWeight(weight: Matrix, a: Matrix, b: Matrix, s: real): Matrix
    requires b.rows == weight.rows && a.cols == weight.cols && b.cols == a.rows
  {
    Add(weight, Scale(MatMul(b, a), s))
  }

  /** (x A^T) B^T = x (B A)^T. */
  lemma AdapterIsOneProduct(x: Matrix, a: Matrix, b: Matrix)
    requires x.cols == a.cols && a.rows == b.cols
    ensures Same(MatMul(MatMul(x, Transpose(a)), Transpose(b)), MatMul(x, Transpose(MatMul(b, a))))
  {
    MatMulAssociative(x, Transpose(a), Transpose(b));
    TransposeOfProduct(b, a);
    MatMulCongruent(x, Transpose(MatMul(b, a)), MatMul(Transpose(a), Transpose(b)));
  }

  lemma MergedProduct(x: Matrix, weight: Matrix, a: Matrix, b: Matrix, s: real)
    requires x.cols == weight.cols && b.rows == weight.rows && a.cols == weight.cols && b.cols == a.rows
    ensures Same(Add(MatMul(x, Transpose(weight)), Scale(MatMul(MatMul(x, Transpose(a)), Transpose(b)), s)),
                 MatMul(x, Transpose(MergedWeight(weight, a, b, s))))
  {
    var low := MatMul(b, a);
    AdapterIsOneProduct(x, a, b);
    MatMulOfScaled(x, Transpose(low), s);
    MatMulOfSum(x, Transpose(weight), Scale(Transpose(low), s));
    MatMulCongruent(x, Transpose(MergedWeight(weight, a, b, s)), Add(Transpose(weight), Scale(Transpose(low), s)));
    forall i, j | 0 <= i < x.rows && 0 <= j < weight.rows
      ensures Add(MatMul(x, Transpose(weight)), Scale(MatMul(MatMul(x, Transpose(a)), Transpose(b)), s)).at(i, j)
        == MatMul(x, Transpose(MergedWeight(weight, a, b, s))).at(i, j)
    {
      assert HasEntry(MatMul(x, Transpose(low)), i, j);
      assert HasEntry(MatMul(x, Transpose(weight)), i, j);
      assert MatMul(MatMul(x, Transpose(a)), Transpose(b)).at(i, j) == MatMul(x, Transpose(low)).at(i, j);
      assert MatMul(x, Scale(Transpose(low), s)).at(i, j) == MatMul(x, Transpose(low)).at(i, j) * s;
    }
  }

  /** With the gate open the layer is one linear layer. */
  lemma ForwardIsApplied(l: Layer, x: Matrix)
    requires l.Valid() && x.cols == l.base.weight.cols && l.routingGateEnabled
    ensures Same(l.Forward(x), Apply(MergedWeight(l.base.weight, l.a, l.b, l.scaling), l.base.bias, x))
  {
    MergedProduct(x, l.base.weight, l.a, l.b, l.scaling);
    var merged := MatMul(x, Transpose(MergedWeight(l.base.weight, l.a, l.b, l.scaling)));
    forall i, j | HasEntry(merged, i, j)
      ensures l.Forward(x).at(i, j) == Apply(MergedWeight(l.base.weight, l.a, l.b, l.scaling), l.base.bias, x).at(i, j)
    {
      assert HasEntry(Add(MatMul(x, Transpose(l.base.weight)),
                          Scale(MatMul(MatMul(x, Transpose(l.a)), Transpose(l.b)), l.scaling)), i, j);
    }
  }

  /** With a zero B or a closed gate it is the frozen one. */
  lemma ForwardIsFrozen(l: Layer, x: Matrix)
    requires l.Valid() && x.cols == l.base.weight.cols
    requires !l.routingGateEnabled || Same(l.b, Zeros(l.base.weight.rows, l.rank))
    ensures Same(l.Forward(x), Apply(l.base.weight, l.base.bias, x))
  {
    if l.routingGateEnabled {
      var u := MatMul(x, Transpose(l.a));
      MatMulOfZeros(u, l.base.weight.rows);
      forall i, j | HasEntry(Transpose(l.b), i, j) ensures Transpose(l.b).at(i, j) == 0.0 {
        assert HasEntry(l.b, j, i);
      }
      MatMulCongruent(u, Transpose(l.b), Zeros(u.cols, l.base.weight.rows));
      forall i, j | 0 <= i < x.rows && 0 <= j < l.base.weight.rows
        ensures MatMul(u, Transpose(l.b)).at(i, j) == 0.0
      {
        assert HasEntry(MatMul(u, Transpose(l.b)), i, j);
      }
    }
  }

  /** Every output is the input's row times the merged weight's row, plus the bias if there is one. */
  lemma ForwardIsMerged(l: Layer, x: Matrix)
    requires l.Valid() && x.cols == l.base.weight.cols && l.routingGateEnabled
    ensures l.Forward(x).rows == x.rows && l.Forward(x).cols == l.base.weight.rows
    ensures forall i, j | 0 <= i < x.rows && 0 <= j < l.base.weight.rows ::
      l.Forward(x).at(i, j) ==
      Sum(x.cols, Products(x.at, Transpose(MergedWeight(l.base.weight, l.a, l.b, l.scaling)).at, i, j))
        + if l.base.bias.Some? then l.base.bias.value(j) else 0.0
  {
    ForwardIsApplied(l, x);
    forall i, j | 0 <= i < x.rows && 0 <= j < l.base.weight.rows
      ensures l.Forward(x).at(i, j) == Apply(MergedWeight(l.base.weight, l.a, l.b, l.scaling), l.base.bias, x).at(i, j)
    {
      assert HasEntry(l.Forward(x), i, j);
    }
  }

  /** A zero B, whatever A is, or a closed gate gives the frozen layer's output: weight and bias. */
  lemma ForwardIsBase(l: Layer, x: Matrix)
    requires l.Valid() && x.cols == l.base.weight.cols
    requires !l.routingGateEnabled || Same(l.b, Zeros(l.base.weight.rows, l.rank))
    ensures l.Forward(x).rows == x.rows && l.Forward(x).cols == l.base.weight.rows
    ensures forall i, j | 0 <= i < x.rows && 0 <= j < l.base.weight.rows ::
      l.Forward(x).at(i, j) ==
      Sum(x.cols, Products(x.at, Transpose(l.base.weight).at, i, j))
        + if l.base.bias.Some? then l.base.bias.value(j) else 0.0
  {
    ForwardIsFrozen(l, x);
    forall i, j | 0 <= i < x.rows && 0 <= j < l.base.weight.rows
      ensures l.Forward(x).at(i, j) == Apply(l.base.weight, l.base.bias, x).at(i, j)
    {
      assert HasEntry(l.Forward(x), i, j);
    }
  }

  // ---------------------------------------------------------------------
  // The gate and the kernel
  // ---------------------------------------------------------------------

  /** The gradient of A as the kernel's cells give it. */
  function GradientA(c: Launch, x: seq<real>, gradU: seq<real>): Matrix {
    Matrix(c.rank, c.inFeatures, (r, k) => Cell(c, x, gradU, r, k))
  }

  /** The projection the kernel differentiates is the layer's own x A^T. */
  lemma ProjectIsMatMul(c: Launch, x: seq<real>, a: Mat, b: int, r: int)
    ensures Project(c, x, a, b, r) ==
      MatMul(Matrix(c.batch, c.inFeatures, (i, k) => At(x, i * c.inFeatures + k)),
             Transpose(Matrix(c.rank, c.inFeatures, a))).at(b, r)
  {
    var left := Matrix(c.batch, c.inFeatures, (i, k) => At(x, i * c.inFeatures + k));
    var right := Transpose(Matrix(c.rank, c.inFeatures, a));
    SumExt(c.inFeatures, ProjectTerms(c, x, a, b, r), Products(left.at, right.at, b, r));
  }

  /**
    On a buffer of zeros, with equal strides (the Python one is at least one)
    and equal thresholds, the kernel leaves exactly the gradient that the
    Python hook returns.
   */
  lemma KernelAgreesWithGate(c: Launch, x: seq<real>, gradU: seq<real>, before: seq<real>, after: seq<real>)
    requires c.freezeStride >= 1
    requires |before| == c.rank * c.inFeatures && forall i | 0 <= i < |before| :: before[i] == 0.0
    requires IsKernelResult(c, x, gradU, before, after)
    ensures
      var grad := GradientA(c, x, gradU);
      var gated := if c.temperature > c.critical then Masked(grad, c.freezeStride) else grad;
      Same(gated, Matrix(c.rank, c.inFeatures, (r, k) => At(after, r * c.inFeatures + k)))
  {
    var grad := GradientA(c, x, gradU);
    var gated := if c.temperature > c.critical then Masked(grad, c.freezeStride) else grad;
    forall r, k | HasEntry(gated, r, k) ensures gated.at(r, k) == At(after, r * c.inFeatures + k) {
      assert c.HasCell(r, k);
      FlatInBounds(c.rank, c.inFeatures, r, k);
      assert At(after, Flat(c.inFeatures, r, k)) ==
        if c.Frozen(r) then At(before, Flat(c.inFeatures, r, k)) else Cell(c, x, gradU, r, k);
    }
  }

  // ---------------------------------------------------------------------
  // How many rows stay active
  // ---------------------------------------------------------------------

  function ActiveRows(n: nat, stride: nat): nat
    requires stride >= 1
  {
    if n == 0 then 0
    else ActiveRows(n - 1, stride) + if (n - 1) % stride == 0 then 1 else 0
  }

  function ActiveSet(n: nat, stride: nat): set<nat>
    requires stride >= 1
  {
    set i: nat | i < n && i % stride == 0
  }

  /** These are the rows that the mask marks. */
  lemma {:induction false} ActiveRowsCounted(n: nat, stride: nat)
    requires stride >= 1
    ensures ActiveRows(n, stride) == |ActiveSet(n, stride)|
  {
    if n == 0 {
      assert ActiveSet(n, stride) == {};
    } else {
      ActiveRowsCounted(n - 1, stride);
      if (n - 1) % stride == 0 {
        assert ActiveSet(n, stride) == ActiveSet(n - 1, stride) + {n - 1};
      } else {
        assert ActiveSet(n, stride) == ActiveSet(n - 1, stride);
      }
    }
  }

  lemma BetweenMultiples(m: nat, k: nat, s: nat)
    requires m < k * s < m + s
    ensures m % s != 0
  {
    assert (k - 1) * s == k * s - s;
    RemainderOfSum(k - 1, s, m - (k - 1) * s);
  }

  /** The number of active rows is n / stride rounded up. */
  lemma {:induction false} ActiveRowsBracket(n: nat, stride: nat)
    requires stride >= 1
    ensures n <= ActiveRows(n, stride) * stride < n + stride
  {
    if n > 0 {
      ActiveRowsBracket(n - 1, stride);
      var k := ActiveRows(n - 1, stride);
      if k * stride == n - 1 {
        RemainderOfSum(k, stride, 0);
        assert (k + 1) * stride == k * stride + stride;
      } else {
        BetweenMultiples(n - 1, k, stride);
      }
    }
  }

  lemma MulOrder(u: nat, v: nat, s: nat)
    requires u < v
    ensures u * s + s <= v * s
  {
    assert (u + 1) * s == u * s + s;
    MulMonotone(u + 1, v, s);
  }

  /** The bracket determines the number of active rows. */
  lemma ActiveRowsIff(n: nat, stride: nat, m: nat)
    requires stride >= 1
    ensures ActiveRows(n, stride) == m <==> n <= m * stride < n + stride
  {
    var k := ActiveRows(n, stride);
    ActiveRowsBracket(n, stride);
    if k < m {
      MulOrder(k, m, stride);
    } else if m < k {
      MulOrder(m, k, stride);
    }
  }

  lemma ScaleLe(u: real, v: real, w: real)
    requires u <= v && w >= 0.0
    ensures u * w <= v * w
  {
  }

  /** The share of active rows is the ratio exactly if the ratio asks for a whole number that the stride yields. */
  lemma ShareExactIff(n: nat, ratio: real)
    requires 0.0 < ratio <= 1.0
    ensures
      var s, m := GateStride(ratio), (ratio * n as real).Floor;
      ActiveRows(n, s) as real == ratio * n as real <==> ratio * n as real == m as real && n <= m * s < n + s
  {
    var s, m := GateStride(ratio), (ratio * n as real).Floor;
    ScaleLe(0.0, n as real, ratio);
    ActiveRowsIff(n, s, m);
  }

  /** Ten rows at a ratio of 0.4: four are asked for, five stay active. */
  lemma ShareCanDiffer()
    ensures GateStride(0.4) == 2 && ActiveRows(10, GateStride(0.4)) == 5
    ensures ActiveRows(10, GateStride(0.4)) as real != 0.4 * 10.0
  {
    assert 1.0 / 0.4 == 2.5;
    NearestEvenUnique(2.5, RoundHalfEven(2.5), 2);
    ActiveRowsIff(10, 2, 5);
  }

  function LowerShare(n: real, r: real): real
    requires r > 0.0
  {
    2.0 * n * r / (2.0 + r)
  }

  function UpperShare(n: real, r: real): real
    requires 0.0 < r <= 1.0
  {
    2.0 * n * r / (2.0 - r) + 1.0
  }

  lemma CastProduct(k: nat, s: nat)
    ensures (k * s) as real == k as real * s as real
  {
  }

  lemma ScaleLt(u: real, v: real, w: real)
    requires u < v && w > 0.0
    ensures u * w < v * w
  {
  }

  lemma CancelLe(u: real, v: real, w: real)
    requires u * w <= v * w && w > 0.0
    ensures u <= v
  {
    if v < u {
      ScaleLt(v, u, w);
    }
  }

  lemma LowerShareAtMost(n: real, k: real, r: real)
    requires r > 0.0 && n * r <= (1.0 + 0.5 * r) * k
    ensures LowerShare(n, r) <= k
  {
    var q := LowerShare(n, r);
    assert q * (2.0 + r) == 2.0 * (n * r);
    assert (1.0 + 0.5 * r) * k == 0.5 * (k * (2.0 + r));
    CancelLe(q, k, 2.0 + r);
  }

  lemma ShareBelow(n: real, k: real, s: real, r: real)
    requires 0.0 < r <= 1.0 && k >= 0.0 && n <= k * s && s * r <= 1.0 + 0.5 * r
    ensures LowerShare(n, r) <= k
  {
    ScaleLe(n, k * s, r);
    MulAssociative(k, s, r);
    ScaleLe(s * r, 1.0 + 0.5 * r, k);
    LowerShareAtMost(n, k, r);
  }

  lemma ActiveAtLeast(n: nat, k: nat, s: nat, r: real)
    requires 0.0 < r <= 1.0 && n <= k * s && s as real * r <= 1.0 + 0.5 * r
    ensures LowerShare(n as real, r) <= k as real
  {
    CastProduct(k, s);
    ShareBelow(n as real, k as real, s as real, r);
  }

  lemma UpperShareAbove(n: real, k: real, r: real)
    requires 0.0 < r <= 1.0 && (1.0 - 0.5 * r) * k < n * r
    ensures k + 1.0 < UpperShare(n, r)
  {
    var q := 2.0 * n * r / (2.0 - r);
    assert q * (2.0 - r) == 2.0 * (n * r);
    assert (1.0 - 0.5 * r) * k == 0.5 * (k * (2.0 - r));
    if q <= k {
      ScaleLe(q, k, 2.0 - r);
    }
  }

  lemma ShareAbove(n: real, k: real, s: real, r: real)
    requires 0.0 < r <= 1.0 && n >= 0.0 && (k == 0.0 || k >= 1.0)
    requires (k > 0.0 ==> (k - 1.0) * s < n) && 1.0 - 0.5 * r <= s * r
    ensures k < UpperShare(n, r)
  {
    if k == 0.0 {
      ScaleLe(0.0, n, r);
    } else {
      ScaleLt((k - 1.0) * s, n, r);
      MulAssociative(k - 1.0, s, r);
      ScaleLe(1.0 - 0.5 * r, s * r, k - 1.0);
    }
    UpperShareAbove(n, k - 1.0, r);
  }

  lemma ActiveBelow(n: nat, k: nat, s: nat, r: real)
    requires 0.0 < r <= 1.0 && k * s < n + s && 1.0 - 0.5 * r <= s as real * r
    ensures k as real < UpperShare(n as real, r)
  {
    if k > 0 {
      assert (k - 1) * s == k * s - s;
      CastProduct(k - 1, s);
      assert (k - 1) as real == k as real - 1.0;
    }
    ShareAbove(n as real, k as real, s as real, r);
  }

  lemma StrideAtMost(inverse: real, s: real, r: real)
    requires r > 0.0 && inverse * r == 1.0 && s <= inverse + 0.5
    ensures s * r <= 1.0 + 0.5 * r
  {
    ScaleLe(s, inverse + 0.5, r);
  }

  lemma StrideAtLeast(inverse: real, s: real, r: real)
    requires r > 0.0 && inverse * r == 1.0 && inverse - 0.5 <= s
    ensures 1.0 - 0.5 * r <= s * r
  {
    ScaleLe(inverse - 0.5, s, r);
  }

  lemma StrideBracket(ratio: real)
    requires 0.0 < ratio <= 1.0
    ensures 1.0 - 0.5 * ratio <= GateStride(ratio) as real * ratio <= 1.0 + 0.5 * ratio
  {
    var inverse := 1.0 / ratio;
    assert inverse * ratio == 1.0;
    CancelLe(1.0, inverse, ratio);
    RoundMonotone(1.0, inverse);
    RoundInteger(1);
    StrideAtMost(inverse, GateStride(ratio) as real, ratio);
    StrideAtLeast(inverse, GateStride(ratio) as real, ratio);
  }

  /** The rounding of 1 / ratio cannot shrink the active share below this factor. */
  lemma ActiveShareAtLeast(n: nat, ratio: real)
    requires 0.0 < ratio <= 1.0
    ensures LowerShare(n as real, ratio) <= ActiveRows(n, GateStride(ratio)) as real
  {
    var stride := GateStride(ratio);
    ActiveRowsBracket(n, stride);
    StrideBracket(ratio);
    ActiveAtLeast(n, ActiveRows(n, stride), stride, ratio);
  }

  /** The rounding of 1 / ratio cannot grow the active share beyond this factor and one row. */
  lemma ActiveShareBelow(n: nat, ratio: real)
    requires 0.0 < ratio <= 1.0
    ensures ActiveRows(n, GateStride(ratio)) as real < UpperShare(n as real, ratio)
  {
    var stride := GateStride(ratio);
    ActiveRowsBracket(n, stride);
    StrideBracket(ratio);
    ActiveBelow(n, ActiveRows(n, stride), stride, ratio);
  }
}
