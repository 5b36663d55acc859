/**
  The thermally gated CUDA kernel for the gradient of the low-rank matrix A
  (src/cuda/fused_msp_backward_kernel.cu), in exact arithmetic.

  KernelThread is the body of one thread. RunGrid interleaves all threads of
  a launch one small step at a time, in whatever order the schedule says.
 */
module GradientKernel {
  import opened Sums

  const THREADS_PER_BLOCK: nat := 256

  datatype Thread = Thread(blockX: nat, blockY: nat, threadX: nat) {
    function Row(): nat { blockY }
    function Col(): nat { blockX * THREADS_PER_BLOCK + threadX }
  }

  /** The scalar arguments of a launch. */
  datatype Launch = Launch(
    batch: nat,
    inFeatures: nat,
    rank: nat,
    temperature: real,
    critical: real,
    freezeStride: int)
  {
    predicate Throttling() { temperature > critical }

    predicate Frozen(row: nat) {
      Throttling() && (freezeStride <= 0 || row % freezeStride != 0)
    }

    predicate HasCell(row: nat, col: nat) { row < rank && col < inFeatures }

    /** The first grid dimension; the second one is rank. */
    function BlocksPerRow(): nat {
      (inFeatures + THREADS_PER_BLOCK - 1) / THREADS_PER_BLOCK
    }

    predicate InGrid(t: Thread) {
      t.blockX < BlocksPerRow() && t.blockY < rank && t.threadX < THREADS_PER_BLOCK
    }

    function GridThreads(): (s: set<Thread>)
      ensures forall t :: t in s <==> InGrid(t)
    {
      set i, j, k | 0 <= i < BlocksPerRow() && 0 <= j < rank && 0 <= k < THREADS_PER_BLOCK ::
        Thread(i, j, k)
    }
  }

  // ---------------------------------------------------------------------
  // Flat buffers
  // ---------------------------------------------------------------------

  function At(s: seq<real>, i: int): real {
    if 0 <= i < |s| then s[i] else 0.0
  }

  function Flat(width: nat, row: nat, col: nat): nat {
    row * width + col
  }

  lemma MulMonotone(a: nat, b: nat, w: nat)
    requires a <= b
    ensures a * w <= b * w
  {
  }

  lemma FlatInBounds(height: nat, width: nat, row: nat, col: nat)
    requires row < height && col < width
    ensures Flat(width, row, col) < height * width
  {
    MulMonotone(row + 1, height, width);
    assert (row + 1) * width == row * width + width;
  }

  lemma FlatInjective(width: nat, row: nat, col: nat, row': nat, col': nat)
    requires col < width && col' < width
    requires Flat(width, row, col) == Flat(width, row', col')
    ensures row == row' && col == col'
  {
    if row > row' {
      FlatInBounds(row, width, row', col');
    } else if row < row' {
      FlatInBounds(row', width, row, col);
    }
  }

  lemma FlatOnto(height: nat, width: nat, i: nat) returns (row: nat, col: nat)
    requires i < height * width
    ensures row < height && col < width && Flat(width, row, col) == i
  {
    row, col := i / width, i % width;
    assert i == row * width + col;
    if height <= row {
      MulMonotone(height, row, width);
    }
  }

  /** The buffers have the sizes that the kernel's header comments give. */
  predicate WellSized(c: Launch, x: seq<real>, gradU: seq<real>, size: nat) {
    |x| == c.batch * c.inFeatures && |gradU| == c.batch * c.rank && size == c.rank * c.inFeatures
  }

  // ---------------------------------------------------------------------
  // What a cell must hold
  // ---------------------------------------------------------------------

  function BatchTerms(c: Launch, x: seq<real>, gradU: seq<real>, row: int, col: int): int -> real {
    b => At(gradU, b * c.rank + row) * At(x, b * c.inFeatures + col)
  }

  /** The sum over the first n rows of the batch. */
  function PartialCell(c: Launch, x: seq<real>, gradU: seq<real>, row: int, col: int, n: nat): real {
    Sum(n, BatchTerms(c, x, gradU, row, col))
  }

  function Cell(c: Launch, x: seq<real>, gradU: seq<real>, row: int, col: int): real {
    PartialCell(c, x, gradU, row, col, c.batch)
  }

  /** Active cells hold their full batch sum and frozen cells what they held before. */
  ghost predicate IsKernelResult(c: Launch, x: seq<real>, gradU: seq<real>, before: seq<real>, after: seq<real>) {
    && |before| == |after| == c.rank * c.inFeatures
    && forall row: nat, col: nat | c.HasCell(row, col) ::
         At(after, Flat(c.inFeatures, row, col)) ==
         if c.Frozen(row) then At(before, Flat(c.inFeatures, row, col)) else Cell(c, x, gradU, row, col)
  }

  /** The description fixes every element of the buffer. */
  lemma KernelResultUnique(c: Launch, x: seq<real>, gradU: seq<real>, before: seq<real>,
                           after: seq<real>, after': seq<real>)
    requires IsKernelResult(c, x, gradU, before, after) && IsKernelResult(c, x, gradU, before, after')
    ensures after == after'
  {
    forall i | 0 <= i < |after| ensures after[i] == after'[i] {
      var row, col := FlatOnto(c.rank, c.inFeatures, i);
      assert c.HasCell(row, col);
    }
  }

  // ---------------------------------------------------------------------
  // Grid geometry
  // ---------------------------------------------------------------------

  function Owner(row: nat, col: nat): Thread {
    Thread(col / THREADS_PER_BLOCK, row, col % THREADS_PER_BLOCK)
  }

  /** Every cell belongs to one thread of the grid and to no other. */
  lemma GridCoversOnce(c: Launch, row: nat, col: nat)
    requires c.HasCell(row, col)
    ensures c.InGrid(Owner(row, col))
    ensures forall t | c.InGrid(t) :: t.Row() == row && t.Col() == col <==> t == Owner(row, col)
  {
  }

  /** The grid has no more blocks than it needs. */
  lemma GridIsTight(c: Launch)
    ensures c.inFeatures <= 256 * c.BlocksPerRow() < c.inFeatures + 256
  {
  }

  /** While throttling, a stride that is not positive freezes everything. */
  lemma NoStrideFreezesAll(c: Launch, x: seq<real>, gradU: seq<real>, before: seq<real>, after: seq<real>)
    requires IsKernelResult(c, x, gradU, before, after) && c.temperature > c.critical && c.freezeStride <= 0
    ensures after == before
  {
    forall i | 0 <= i < |after| ensures after[i] == before[i] {
      var row, col := FlatOnto(c.rank, c.inFeatures, i);
      assert c.HasCell(row, col);
    }
  }

  // ---------------------------------------------------------------------
  // One thread, from entry to exit
  // ---------------------------------------------------------------------

  /** The write set of one thread: its own cell if that exists and is active, nothing otherwise. */
  function ThreadEffect(c: Launch, x: seq<real>, gradU: seq<real>, buffer: seq<real>, t: Thread): (after: seq<real>)
    requires WellSized(c, x, gradU, |buffer|)
    ensures |after| == |buffer|
  {
    if c.HasCell(t.Row(), t.Col()) && !c.Frozen(t.Row()) then
      FlatInBounds(c.rank, c.inFeatures, t.Row(), t.Col());
      buffer[Flat(c.inFeatures, t.Row(), t.Col()) := Cell(c, x, gradU, t.Row(), t.Col())]
    else
      buffer
  }

  /** The two loads of one round of the batch loop, both in bounds. */
  function LoadTerm(c: Launch, x: seq<real>, gradU: seq<real>, row: nat, col: nat, b: nat): (v: real)
    requires |x| == c.batch * c.inFeatures && |gradU| == c.batch * c.rank
    requires c.HasCell(row, col) && b < c.batch
    ensures v == BatchTerms(c, x, gradU, row, col)(b)
  {
    FlatInBounds(c.batch, c.rank, b, row);
    FlatInBounds(c.batch, c.inFeatures, b, col);
    gradU[b * c.rank + row] * x[b * c.inFeatures + col]
  }

  method KernelThread(c: Launch, x: seq<real>, gradU: seq<real>, gradA: array<real>, t: Thread)
    requires WellSized(c, x, gradU, gradA.Length)
    modifies gradA
    ensures gradA[..] == ThreadEffect(c, x, gradU, old(gradA[..]), t)
  {
    var row := t.blockY;
    var col := t.blockX * THREADS_PER_BLOCK + t.threadX;
    if row >= c.rank || col >= c.inFeatures {
      return;
    }
    var throttling := c.temperature > c.critical;
    if throttling && (c.freezeStride <= 0 || row % c.freezeStride != 0) {
      return;
    }
    var acc := 0.0;
    var b := 0;
    while b < c.batch
      invariant 0 <= b <= c.batch
      invariant acc == PartialCell(c, x, gradU, row, col, b)
      invariant gradA[..] == old(gradA[..])
    {
      acc := acc + LoadTerm(c, x, gradU, row, col, b);
      b := b + 1;
    }
    FlatInBounds(c.rank, c.inFeatures, row, col);
    gradA[row * c.inFeatures + col] := acc;
  }

  // ---------------------------------------------------------------------
  // All threads, interleaved
  // ---------------------------------------------------------------------

  /** The private state of a thread between two of its steps. */
  datatype Local = Entry | Accumulating(b: nat, acc: real) | Retired

  /** Where a thread is after n of its own steps, whatever the other threads did. */
  function LocalAfter(c: Launch, x: seq<real>, gradU: seq<real>, t: Thread, n: nat): Local {
    if n == 0 then Entry
    else if !c.HasCell(t.Row(), t.Col()) || c.Frozen(t.Row()) || n > c.batch + 1 then Retired
    else Accumulating(n - 1, PartialCell(c, x, gradU, t.Row(), t.Col(), n - 1))
  }

  predicate Stores(l: Local, l': Local) { l.Accumulating? && l'.Retired? }

  /**
    One step of one thread: the entry tests, one round of the batch loop, or
    the final store.
   */
  method StepThread(c: Launch, x: seq<real>, gradU: seq<real>, gradA: array<real>, t: Thread, l: Local, ghost n: nat)
    returns (l': Local)
    requires WellSized(c, x, gradU, gradA.Length)
    requires l == LocalAfter(c, x, gradU, t, n)
    modifies gradA
    ensures l' == LocalAfter(c, x, gradU, t, n + 1)
    ensures gradA[..] ==
      if Stores(l, l') then ThreadEffect(c, x, gradU, old(gradA[..]), t) else old(gradA[..])
  {
    var row, col := t.Row(), t.Col();
    match l
    case Entry =>
      if row >= c.rank || col >= c.inFeatures || c.Frozen(row) {
        l' := Retired;
      } else {
        l' := Accumulating(0, 0.0);
      }
    case Accumulating(b, acc) =>
      if b < c.batch {
        l' := Accumulating(b + 1, acc + LoadTerm(c, x, gradU, row, col, b));
      } else {
        FlatInBounds(c.rank, c.inFeatures, row, col);
        gradA[row * c.inFeatures + col] := acc;
        l' := Retired;
      }
    case Retired =>
      l' := Retired;
  }

  /** The value of a cell while the launch is under way. */
  function CellDuring(c: Launch, x: seq<real>, gradU: seq<real>, before: seq<real>,
                      row: nat, col: nat, owner: Local): real
  {
    if owner.Retired? && !c.Frozen(row)
    then Cell(c, x, gradU, row, col)
    else At(before, Flat(c.inFeatures, row, col))
  }

  /** The store of one thread changes its own cell only. */
  lemma EffectOnCell(c: Launch, x: seq<real>, gradU: seq<real>, buffer: seq<real>, t: Thread, row: nat, col: nat)
    requires WellSized(c, x, gradU, |buffer|)
    requires c.InGrid(t) && c.HasCell(row, col)
    ensures At(ThreadEffect(c, x, gradU, buffer, t), Flat(c.inFeatures, row, col)) ==
      if t == Owner(row, col) && !c.Frozen(row)
      then Cell(c, x, gradU, row, col)
      else At(buffer, Flat(c.inFeatures, row, col))
  {
    GridCoversOnce(c, row, col);
    FlatInBounds(c.rank, c.inFeatures, row, col);
    if c.HasCell(t.Row(), t.Col()) && Flat(c.inFeatures, row, col) == Flat(c.inFeatures, t.Row(), t.Col()) {
      FlatInjective(c.inFeatures, row, col, t.Row(), t.Col());
    }
  }

  /** The whole buffer after each thread took as many steps as counts says. */
  ghost predicate Progress(c: Launch, x: seq<real>, gradU: seq<real>, before: seq<real>, buffer: seq<real>,
                           counts: multiset<Thread>)
  {
    forall row: nat, col: nat | c.HasCell(row, col) ::
      At(buffer, Flat(c.inFeatures, row, col)) ==
      CellDuring(c, x, gradU, before, row, col, LocalAfter(c, x, gradU, Owner(row, col), counts[Owner(row, col)]))
  }

  ghost predicate LocalsAfter(c: Launch, x: seq<real>, gradU: seq<real>, locals: map<Thread, Local>,
                              counts: multiset<Thread>)
  {
    && (forall t :: t in locals <==> c.InGrid(t))
    && (forall t | t in locals :: locals[t] == LocalAfter(c, x, gradU, t, counts[t]))
  }

  lemma LocalsStep(c: Launch, x: seq<real>, gradU: seq<real>, locals: map<Thread, Local>,
                   counts: multiset<Thread>, t: Thread)
    requires LocalsAfter(c, x, gradU, locals, counts) && c.InGrid(t)
    ensures LocalsAfter(c, x, gradU, locals[t := LocalAfter(c, x, gradU, t, counts[t] + 1)], counts + multiset{t})
  {
    var locals' := locals[t := LocalAfter(c, x, gradU, t, counts[t] + 1)];
    forall s | s in locals' ensures locals'[s] == LocalAfter(c, x, gradU, s, (counts + multiset{t})[s]) {
      if s != t {
        assert (counts + multiset{t})[s] == counts[s];
      }
    }
  }

  lemma ProgressStep(c: Launch, x: seq<real>, gradU: seq<real>, before: seq<real>, buffer: seq<real>,
                     counts: multiset<Thread>, t: Thread)
    requires WellSized(c, x, gradU, |buffer|) && c.InGrid(t)
    requires Progress(c, x, gradU, before, buffer, counts)
    ensures
      var stored := Stores(LocalAfter(c, x, gradU, t, counts[t]), LocalAfter(c, x, gradU, t, counts[t] + 1));
      Progress(c, x, gradU, before,
               if stored then ThreadEffect(c, x, gradU, buffer, t) else buffer,
               counts + multiset{t})
  {
    forall row: nat, col: nat | c.HasCell(row, col)
      ensures
        var stored := Stores(LocalAfter(c, x, gradU, t, counts[t]), LocalAfter(c, x, gradU, t, counts[t] + 1));
        At(if stored then ThreadEffect(c, x, gradU, buffer, t) else buffer, Flat(c.inFeatures, row, col)) ==
        CellDuring(c, x, gradU, before, row, col,
                   LocalAfter(c, x, gradU, Owner(row, col), (counts + multiset{t})[Owner(row, col)]))
    {
      EffectOnCell(c, x, gradU, buffer, t, row, col);
      if t != Owner(row, col) {
        assert (counts + multiset{t})[Owner(row, col)] == counts[Owner(row, col)];
      }
    }
  }

  lemma ProgressDone(c: Launch, x: seq<real>, gradU: seq<real>, before: seq<real>, buffer: seq<real>,
                     counts: multiset<Thread>)
    requires |before| == |buffer| == c.rank * c.inFeatures
    requires Progress(c, x, gradU, before, buffer, counts)
    requires forall t | c.InGrid(t) :: counts[t] >= c.batch + 2
    ensures IsKernelResult(c, x, gradU, before, buffer)
  {
    forall row: nat, col: nat | c.HasCell(row, col)
      ensures LocalAfter(c, x, gradU, Owner(row, col), counts[Owner(row, col)]).Retired?
    {
      GridCoversOnce(c, row, col);
    }
  }

  function Entries(c: Launch): (locals: map<Thread, Local>)
    ensures forall t :: t in locals <==> c.InGrid(t)
  {
    map t | t in c.GridThreads() :: Entry
  }

  lemma NothingHappened(c: Launch, x: seq<real>, gradU: seq<real>, buffer: seq<real>)
    ensures LocalsAfter(c, x, gradU, Entries(c), multiset{})
    ensures Progress(c, x, gradU, buffer, buffer, multiset{})
  {
  }

  lemma CountsStep(schedule: seq<Thread>, k: nat)
    requires k < |schedule|
    ensures multiset(schedule[..k + 1]) == multiset(schedule[..k]) + multiset{schedule[k]}
  {
    assert schedule[..k + 1] == schedule[..k] + [schedule[k]];
  }

  /** Lets the named threads take one step each, in the given order. */
  method Interleave(c: Launch, x: seq<real>, gradU: seq<real>, gradA: array<real>, schedule: seq<Thread>)
    returns (locals: map<Thread, Local>)
    requires WellSized(c, x, gradU, gradA.Length)
    requires forall t | t in schedule :: c.InGrid(t)
    modifies gradA
    ensures LocalsAfter(c, x, gradU, locals, multiset(schedule))
    ensures Progress(c, x, gradU, old(gradA[..]), gradA[..], multiset(schedule))
  {
    ghost var before, counts := gradA[..], multiset{};
    NothingHappened(c, x, gradU, before);
    locals := Entries(c);
    for k := 0 to |schedule|
      invariant counts == multiset(schedule[..k])
      invariant LocalsAfter(c, x, gradU, locals, counts)
      invariant Progress(c, x, gradU, before, gradA[..], counts)
    {
      var t := schedule[k];
      ProgressStep(c, x, gradU, before, gradA[..], counts, t);
      var l := StepThread(c, x, gradU, gradA, t, locals[t], counts[t]);
      LocalsStep(c, x, gradU, locals, counts, t);
      CountsStep(schedule, k);
      locals, counts := locals[t := l], counts + multiset{t};
    }
    assert schedule[..|schedule|] == schedule;
  }

  /**
    Runs a launch under an arbitrary schedule. A thread that got its batch + 2
    steps is done, and once all are done the buffer does not depend on the
    schedule.
   */
  method RunGrid(c: Launch, x: seq<real>, gradU: seq<real>, gradA: array<real>, schedule: seq<Thread>)
    returns (locals: map<Thread, Local>)
    requires WellSized(c, x, gradU, gradA.Length)
    requires forall t | t in schedule :: c.InGrid(t)
    modifies gradA
    ensures LocalsAfter(c, x, gradU, locals, multiset(schedule))
    ensures Progress(c, x, gradU, old(gradA[..]), gradA[..], multiset(schedule))
    ensures (forall t | c.InGrid(t) :: multiset(schedule)[t] >= c.batch + 2)
      ==> IsKernelResult(c, x, gradU, old(gradA[..]), gradA[..])
  {
    locals := Interleave(c, x, gradU, gradA, schedule);
    if forall t | c.InGrid(t) :: multiset(schedule)[t] >= c.batch + 2 {
      ProgressDone(c, x, gradU, old(gradA[..]), gradA[..], multiset(schedule));
    }
  }

  // ---------------------------------------------------------------------
  // The unthrottled result is the gradient
  // ---------------------------------------------------------------------

  function ProjectTerms(c: Launch, x: seq<real>, a: Mat, b: int, r: int): int -> real {
    k => At(x, b * c.inFeatures + k) * a(r, k)
  }

  /** One entry of x A^T: the projection of batch row b on row r of A. */
  function Project(c: Launch, x: seq<real>, a: Mat, b: int, r: int): real {
    Sum(c.inFeatures, ProjectTerms(c, x, a, b, r))
  }

  function LossTerms(c: Launch, x: seq<real>, gradU: seq<real>, a: Mat, b: int): int -> real {
    r => Project(c, x, a, b, r) * At(gradU, b * c.rank + r)
  }

  function RowLosses(c: Launch, x: seq<real>, gradU: seq<real>, a: Mat): int -> real {
    b => Sum(c.rank, LossTerms(c, x, gradU, a, b))
  }

  /** The sum of (x A^T) times gradU, entry by entry. */
  function Loss(c: Launch, x: seq<real>, gradU: seq<real>, a: Mat): real {
    Sum(c.batch, RowLosses(c, x, gradU, a))
  }

  function DotTerms(c: Launch, x: seq<real>, gradU: seq<real>, h: Mat, r: int): int -> real {
    k => Cell(c, x, gradU, r, k) * h(r, k)
  }

  function RowDots(c: Launch, x: seq<real>, gradU: seq<real>, h: Mat): int -> real {
    r => Sum(c.inFeatures, DotTerms(c, x, gradU, h, r))
  }

  /** The product of the kernel's cells with a perturbation, summed over all entries. */
  function GradientDot(c: Launch, x: seq<real>, gradU: seq<real>, h: Mat): real {
    Sum(c.rank, RowDots(c, x, gradU, h))
  }

  function Plus(a: Mat, h: Mat): Mat {
    (i, j) => a(i, j) + h(i, j)
  }

  function SingleEntry(row: int, col: int, d: real): Mat {
    (i, j) => if i == row && j == col then d else 0.0
  }

  lemma ProjectAdditive(c: Launch, x: seq<real>, a: Mat, h: Mat, b: int, r: int)
    ensures Project(c, x, Plus(a, h), b, r) == Project(c, x, a, b, r) + Project(c, x, h, b, r)
  {
    var f, g, s := ProjectTerms(c, x, a, b, r), ProjectTerms(c, x, h, b, r), ProjectTerms(c, x, Plus(a, h), b, r);
    forall k: int ensures s(k) == f(k) + g(k) {
      var v := At(x, b * c.inFeatures + k);
      assert v * (a(r, k) + h(r, k)) == v * a(r, k) + v * h(r, k);
    }
    SumAdd(c.inFeatures, f, g, s);
  }

  lemma LossAdditive(c: Launch, x: seq<real>, gradU: seq<real>, a: Mat, h: Mat)
    ensures Loss(c, x, gradU, Plus(a, h)) == Loss(c, x, gradU, a) + Loss(c, x, gradU, h)
  {
    forall b: int
      ensures RowLosses(c, x, gradU, Plus(a, h))(b) == RowLosses(c, x, gradU, a)(b) + RowLosses(c, x, gradU, h)(b)
    {
      var f, g, s := LossTerms(c, x, gradU, a, b), LossTerms(c, x, gradU, h, b), LossTerms(c, x, gradU, Plus(a, h), b);
      forall r: int ensures s(r) == f(r) + g(r) {
        ProjectAdditive(c, x, a, h, b, r);
      }
      SumAdd(c.rank, f, g, s);
    }
    SumAdd(c.batch, RowLosses(c, x, gradU, a), RowLosses(c, x, gradU, h), RowLosses(c, x, gradU, Plus(a, h)));
  }

  /** The summands of the triple sum, in the order batch, column, for one row. */
  function Triples(c: Launch, x: seq<real>, gradU: seq<real>, h: Mat, r: int): Mat {
    (b, k) => Scaled(BatchTerms(c, x, gradU, r, k), h(r, k))(b)
  }

  function TripleRow(t: Mat, b: int): int -> real {
    k => t(b, k)
  }

  function BatchRows(c: Launch, x: seq<real>, gradU: seq<real>, h: Mat): Mat {
    (b, r) => Sum(c.inFeatures, TripleRow(Triples(c, x, gradU, h, r), b))
  }

  lemma LossTermIsBatchRow(c: Launch, x: seq<real>, gradU: seq<real>, h: Mat, b: int, r: int)
    ensures LossTerms(c, x, gradU, h, b)(r) == BatchRows(c, x, gradU, h)(b, r)
  {
    var u := At(gradU, b * c.rank + r);
    var triples := TripleRow(Triples(c, x, gradU, h, r), b);
    forall k: int ensures triples(k) == u * ProjectTerms(c, x, h, b, r)(k) {
      var v := At(x, b * c.inFeatures + k);
      assert triples(k) == Scaled(BatchTerms(c, x, gradU, r, k), h(r, k))(b);
      assert triples(k) == BatchTerms(c, x, gradU, r, k)(b) * h(r, k);
      MulAssociative(u, v, h(r, k));
    }
    SumScale(c.inFeatures, u, ProjectTerms(c, x, h, b, r), triples);
  }

  lemma ColumnIsDotTerm(c: Launch, x: seq<real>, gradU: seq<real>, h: Mat, r: int, k: int)
    ensures Sum(c.batch, b => Triples(c, x, gradU, h, r)(b, k)) == DotTerms(c, x, gradU, h, r)(k)
  {
    var t, column := Triples(c, x, gradU, h, r), Scaled(BatchTerms(c, x, gradU, r, k), h(r, k));
    SumScaled(c.batch, BatchTerms(c, x, gradU, r, k), h(r, k));
    forall b: int ensures t(b, k) == column(b) {
    }
    SumExt(c.batch, column, b => t(b, k));
    SumExt(c.batch, b => t(b, k), b => Triples(c, x, gradU, h, r)(b, k));
  }

  lemma BatchSumIsRowDot(c: Launch, x: seq<real>, gradU: seq<real>, h: Mat, r: int)
    ensures Sum(c.batch, b => BatchRows(c, x, gradU, h)(b, r)) == RowDots(c, x, gradU, h)(r)
  {
    var t := Triples(c, x, gradU, h, r);
    forall b: int ensures BatchRows(c, x, gradU, h)(b, r) == Sum(c.inFeatures, k => t(b, k)) {
      SumExt(c.inFeatures, TripleRow(t, b), k => t(b, k));
    }
    SumExt(c.batch, b => BatchRows(c, x, gradU, h)(b, r), b => Sum(c.inFeatures, k => t(b, k)));
    SumSwap(c.batch, c.inFeatures, t);
    forall k: int ensures Sum(c.batch, b => t(b, k)) == DotTerms(c, x, gradU, h, r)(k) {
      ColumnIsDotTerm(c, x, gradU, h, r, k);
      SumExt(c.batch, b => t(b, k), b => Triples(c, x, gradU, h, r)(b, k));
    }
    SumExt(c.inFeatures, k => Sum(c.batch, b => t(b, k)), DotTerms(c, x, gradU, h, r));
  }

  /** Interchanging the triple sum turns the loss into the product with the kernel's cells. */
  lemma LossIsGradientDot(c: Launch, x: seq<real>, gradU: seq<real>, h: Mat)
    ensures Loss(c, x, gradU, h) == GradientDot(c, x, gradU, h)
  {
    var rows := BatchRows(c, x, gradU, h);
    forall b: int ensures RowLosses(c, x, gradU, h)(b) == Sum(c.rank, r => rows(b, r)) {
      forall r: int ensures LossTerms(c, x, gradU, h, b)(r) == rows(b, r) {
        LossTermIsBatchRow(c, x, gradU, h, b, r);
      }
      SumExt(c.rank, LossTerms(c, x, gradU, h, b), r => rows(b, r));
    }
    SumExt(c.batch, RowLosses(c, x, gradU, h), b => Sum(c.rank, r => rows(b, r)));
    SumSwap(c.batch, c.rank, rows);
    forall r: int ensures Sum(c.batch, b => rows(b, r)) == RowDots(c, x, gradU, h)(r) {
      BatchSumIsRowDot(c, x, gradU, h, r);
      SumExt(c.batch, b => rows(b, r), b => BatchRows(c, x, gradU, h)(b, r));
    }
    SumExt(c.rank, r => Sum(c.batch, b => rows(b, r)), RowDots(c, x, gradU, h));
  }

  /** The loss moves by exactly the product of the kernel's cells with the perturbation. */
  lemma KernelIsGradient(c: Launch, x: seq<real>, gradU: seq<real>, a: Mat, h: Mat)
    ensures Loss(c, x, gradU, Plus(a, h)) - Loss(c, x, gradU, a) == GradientDot(c, x, gradU, h)
  {
    LossAdditive(c, x, gradU, a, h);
    LossIsGradientDot(c, x, gradU, h);
  }

  lemma SingleEntryRowDot(c: Launch, x: seq<real>, gradU: seq<real>, row: nat, col: nat, d: real, r: int)
    requires c.HasCell(row, col)
    ensures RowDots(c, x, gradU, SingleEntry(row, col, d))(r) ==
      if r == row then Cell(c, x, gradU, row, col) * d else 0.0
  {
    var terms := DotTerms(c, x, gradU, SingleEntry(row, col, d), r);
    forall k: int ensures terms(k) == if r == row && k == col then Cell(c, x, gradU, row, col) * d else 0.0 {
      assert terms(k) == Cell(c, x, gradU, r, k) * SingleEntry(row, col, d)(r, k);
    }
    if r == row {
      SumSingle(c.inFeatures, terms, col);
    } else {
      SumZero(c.inFeatures, terms);
    }
  }

  /**
    Moving a single entry of A by d moves the loss by d times that entry's
    cell.
   */
  lemma KernelIsPartialDerivative(c: Launch, x: seq<real>, gradU: seq<real>, a: Mat, row: nat, col: nat, d: real)
    requires c.HasCell(row, col)
    ensures Loss(c, x, gradU, Plus(a, SingleEntry(row, col, d))) - Loss(c, x, gradU, a)
      == Cell(c, x, gradU, row, col) * d
  {
    var h := SingleEntry(row, col, d);
    KernelIsGradient(c, x, gradU, a, h);
    var dots := RowDots(c, x, gradU, h);
    forall r: int ensures dots(r) == if r == row then Cell(c, x, gradU, row, col) * d else 0.0 {
      SingleEntryRowDot(c, x, gradU, row, col, d, r);
    }
    SumSingle(c.rank, dots, row);
  }

  // ---------------------------------------------------------------------
  // What a launch leaves in memory is the gradient, and the only one
  // ---------------------------------------------------------------------

  function EntryTerms(g: Mat, h: Mat, r: int): int -> real {
    k => g(r, k) * h(r, k)
  }

  function RowProducts(c: Launch, g: Mat, h: Mat): int -> real {
    r => Sum(c.inFeatures, EntryTerms(g, h, r))
  }

  /** The entrywise product of two matrices of A's shape, summed over all entries. */
  function EntryDot(c: Launch, g: Mat, h: Mat): real {
    Sum(c.rank, RowProducts(c, g, h))
  }

  /** The buffer read row by row. */
  function BufferEntries(c: Launch, buffer: seq<real>): Mat {
    (r, k) => At(buffer, r * c.inFeatures + k)
  }

  /** An unthrottled launch, whatever the buffer held before, leaves the cells in memory. */
  lemma LaunchLeavesCells(c: Launch, x: seq<real>, gradU: seq<real>, before: seq<real>, after: seq<real>, h: Mat)
    requires IsKernelResult(c, x, gradU, before, after) && !c.Throttling()
    ensures EntryDot(c, BufferEntries(c, after), h) == GradientDot(c, x, gradU, h)
  {
    var left := RowProducts(c, BufferEntries(c, after), h);
    forall r | 0 <= r < c.rank ensures left(r) == RowDots(c, x, gradU, h)(r) {
      forall k | 0 <= k < c.inFeatures
        ensures EntryTerms(BufferEntries(c, after), h, r)(k) == DotTerms(c, x, gradU, h, r)(k)
      {
        assert c.HasCell(r, k) && !c.Frozen(r);
        assert At(after, Flat(c.inFeatures, r, k)) == Cell(c, x, gradU, r, k);
      }
      SumExt(c.inFeatures, EntryTerms(BufferEntries(c, after), h, r), DotTerms(c, x, gradU, h, r));
    }
    SumExt(c.rank, left, RowDots(c, x, gradU, h));
  }

  /** So the loss moves by the product of the buffer with the perturbation. */
  lemma LaunchLeavesGradient(c: Launch, x: seq<real>, gradU: seq<real>, before: seq<real>, after: seq<real>,
                             a: Mat, h: Mat)
    requires IsKernelResult(c, x, gradU, before, after) && !c.Throttling()
    ensures Loss(c, x, gradU, Plus(a, h)) - Loss(c, x, gradU, a) == EntryDot(c, BufferEntries(c, after), h)
  {
    LaunchLeavesCells(c, x, gradU, before, after, h);
    KernelIsGradient(c, x, gradU, a, h);
  }

  lemma DotWithSingleEntry(c: Launch, g: Mat, row: nat, col: nat, d: real)
    requires c.HasCell(row, col)
    ensures EntryDot(c, g, SingleEntry(row, col, d)) == g(row, col) * d
  {
    var h := SingleEntry(row, col, d);
    var rows := RowProducts(c, g, h);
    forall r: int ensures rows(r) == if r == row then g(row, col) * d else 0.0 {
      var terms := EntryTerms(g, h, r);
      forall k: int ensures terms(k) == if r == row && k == col then g(row, col) * d else 0.0 {
        assert terms(k) == g(r, k) * h(r, k);
      }
      if r == row {
        SumSingle(c.inFeatures, terms, col);
      } else {
        SumZero(c.inFeatures, terms);
      }
    }
    SumSingle(c.rank, rows, row);
  }

  /** What g promises when it claims to be the gradient of the loss at a. */
  ghost predicate IsGradient(c: Launch, x: seq<real>, gradU: seq<real>, a: Mat, g: Mat) {
    forall h: Mat :: Loss(c, x, gradU, Plus(a, h)) - Loss(c, x, gradU, a) == EntryDot(c, g, h)
  }

  /** Every gradient has the kernel's cells as its entries. */
  lemma GradientUnique(c: Launch, x: seq<real>, gradU: seq<real>, a: Mat, g: Mat, row: nat, col: nat)
    requires IsGradient(c, x, gradU, a, g) && c.HasCell(row, col)
    ensures g(row, col) == Cell(c, x, gradU, row, col)
  {
    var h := SingleEntry(row, col, 1.0);
    assert Loss(c, x, gradU, Plus(a, h)) - Loss(c, x, gradU, a) == EntryDot(c, g, h);
    DotWithSingleEntry(c, g, row, col, 1.0);
    KernelIsPartialDerivative(c, x, gradU, a, row, col, 1.0);
  }

  /** The buffer that an unthrottled launch leaves is the gradient at every a. */
  lemma LaunchIsGradient(c: Launch, x: seq<real>, gradU: seq<real>, before: seq<real>, after: seq<real>, a: Mat)
    requires IsKernelResult(c, x, gradU, before, after) && !c.Throttling()
    ensures IsGradient(c, x, gradU, a, BufferEntries(c, after))
  {
    forall h: Mat
      ensures Loss(c, x, gradU, Plus(a, h)) - Loss(c, x, gradU, a) == EntryDot(c, BufferEntries(c, after), h)
    {
      LaunchLeavesGradient(c, x, gradU, before, after, a, h);
    }
  }
}
