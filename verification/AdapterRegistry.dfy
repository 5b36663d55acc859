/**
  The specification of the adapter manager
  (src/python/msp/adapter_manager.py): a map from adapter ids to sizes under a
  budget, and what runs of its operations guarantee.
 */
module AdapterRegistry {
  import opened Wrappers
  import opened EloraAllocator
  import opened Sets

  type AdapterId = string

  /** What each resident adapter occupies, layer by layer. */
  type Resident = map<AdapterId, seq<nat>>

  datatype Error = AlreadyLoaded | OverBudget | AllocationFailed | NotLoaded | BadBudget

  /** backing: None without the native extension, else which requests the host refuses, by number. */
  datatype Config = Config(budget: nat, backing: Option<nat -> bool>)

  datatype Registry = Registry(
    resident: Resident,
    active: Option<AdapterId>,
    nativeIds: map<AdapterId, int>,
    nextNativeId: int,
    calls: nat)

  // ---------------------------------------------------------------------
  // Totals
  // ---------------------------------------------------------------------

  ghost function Total(m: Resident): nat
    decreases |m|
  {
    if m == map[] then 0 else
      var k := Pick(m.Keys);
      TotalSize(m[k]) + Total(m - {k})
  }

  /** The order in which a total is taken does not matter. */
  lemma {:induction false} TotalRemove(m: Resident, k: AdapterId)
    requires k in m
    ensures Total(m) == TotalSize(m[k]) + Total(m - {k})
    decreases |m|
  {
    var first := Pick(m.Keys);
    if first != k {
      TotalRemove(m - {first}, k);
      TotalRemove(m - {k}, first);
      assert m - {first} - {k} == m - {k} - {first};
    }
  }

  lemma TotalInsert(m: Resident, k: AdapterId, sizes: seq<nat>)
    requires k !in m
    ensures Total(m[k := sizes]) == Total(m) + TotalSize(sizes)
  {
    TotalRemove(m[k := sizes], k);
    assert m[k := sizes] - {k} == m;
  }

  // ---------------------------------------------------------------------
  // Requests to the native allocator
  // ---------------------------------------------------------------------

  /** Layers without bytes get no block. */
  function NonZero(sizes: seq<nat>): seq<nat> {
    if sizes == [] then [] else
      var rest, last := NonZero(sizes[..|sizes| - 1]), sizes[|sizes| - 1];
      if last == 0 then rest else rest + [last]
  }

  lemma {:induction false} SumNonZero(sizes: seq<nat>)
    ensures TotalSize(NonZero(sizes)) == TotalSize(sizes)
  {
    if sizes != [] {
      var rest := NonZero(sizes[..|sizes| - 1]);
      SumNonZero(sizes[..|sizes| - 1]);
      assert (rest + [sizes[|sizes| - 1]])[..|rest|] == rest;
    }
  }

  lemma {:induction false} NonZeroPrefix(sizes: seq<nat>, k: nat)
    requires k <= |sizes|
    ensures |NonZero(sizes[..k])| <= |NonZero(sizes)|
  {
    if k < |sizes| {
      NonZeroPrefix(sizes[..|sizes| - 1], k);
      assert sizes[..|sizes| - 1][..k] == sizes[..k];
    } else {
      assert sizes[..k] == sizes;
    }
  }

  lemma NonZeroNext(sizes: seq<nat>, k: nat)
    requires k < |sizes|
    ensures NonZero(sizes[..k + 1]) == NonZero(sizes[..k]) + if sizes[k] == 0 then [] else [sizes[k]]
  {
    assert sizes[..k + 1][..k] == sizes[..k];
  }

  predicate Refuses(fails: nat -> bool, calls: nat, n: nat) {
    exists j: nat :: calls <= j < calls + n && fails(j)
  }

  lemma RefusesNext(fails: nat -> bool, calls: nat, n: nat)
    ensures Refuses(fails, calls, n + 1) <==> Refuses(fails, calls, n) || fails(calls + n)
  {
  }

  /** The requests made out of n: the first refused one is the last. */
  function Requests(fails: nat -> bool, calls: nat, n: nat): nat
    decreases n
  {
    if n == 0 then 0 else if fails(calls) then 1 else 1 + Requests(fails, calls + 1, n - 1)
  }

  lemma {:induction false} RequestsAfter(fails: nat -> bool, calls: nat, n: nat, granted: nat)
    requires granted <= n && !Refuses(fails, calls, granted)
    ensures Requests(fails, calls, n) == granted + Requests(fails, calls + granted, n - granted)
    decreases granted
  {
    if granted > 0 {
      RequestsAfter(fails, calls + 1, n - 1, granted - 1);
    }
  }

  // ---------------------------------------------------------------------
  // The operations
  // ---------------------------------------------------------------------

  datatype Operation =
    | Load(id: AdapterId, sizes: seq<nat>)
    | Unload(id: AdapterId)
    | Activate(id: AdapterId)
    | Swap(fromId: Option<AdapterId>, id: AdapterId)

  ghost function Fault(c: Config, r: Registry, op: Operation): Option<Error> {
    match op
    case Load(id, sizes) =>
      if id in r.resident then Some(AlreadyLoaded)
      else if Total(r.resident) + TotalSize(sizes) > c.budget then Some(OverBudget)
      else if c.backing.Some? && Refuses(c.backing.value, r.calls, |NonZero(sizes)|) then Some(AllocationFailed)
      else None
    case Unload(_) => None
    case Activate(id) => if id in r.resident then None else Some(NotLoaded)
    case Swap(_, id) => if id in r.resident then None else Some(NotLoaded)
  }

  /** Trying to reserve blocks uses up a native id and some requests. */
  function Attempted(c: Config, r: Registry, sizes: seq<nat>): Registry {
    if c.backing.None? then r
    else r.(nextNativeId := r.nextNativeId + 1,
            calls := r.calls + Requests(c.backing.value, r.calls, |NonZero(sizes)|))
  }

  ghost function Step(c: Config, r: Registry, op: Operation): Registry {
    match Fault(c, r, op)
    case Some(AllocationFailed) => Attempted(c, r, op.sizes)
    case Some(_) => r
    case None =>
      match op
      case Load(id, sizes) =>
        var tried := Attempted(c, r, sizes);
        tried.(resident := r.resident[id := sizes],
               nativeIds := if c.backing.Some? then r.nativeIds[id := r.nextNativeId] else r.nativeIds)
      case Unload(id) =>
        r.(resident := r.resident - {id},
           active := if r.active == Some(id) then None else r.active,
           nativeIds := r.nativeIds - {id})
      case Activate(id) => r.(active := Some(id))
      case Swap(_, id) => r.(active := Some(id))
  }

  /** The four ways a load can go, spelled out. */
  lemma LoadCases(c: Config, r: Registry, id: AdapterId, sizes: seq<nat>)
    requires id !in r.resident && Total(r.resident) + TotalSize(sizes) <= c.budget
    ensures
      var (fault, after) := (Fault(c, r, Load(id, sizes)), Step(c, r, Load(id, sizes)));
      match c.backing
      case None => fault == None && after == r.(resident := r.resident[id := sizes])
      case Some(fails) =>
        var calls := r.calls + Requests(fails, r.calls, |NonZero(sizes)|);
        if Refuses(fails, r.calls, |NonZero(sizes)|)
        then fault == Some(AllocationFailed) && after == r.(nextNativeId := r.nextNativeId + 1, calls := calls)
        else fault == None && after == Registry(r.resident[id := sizes], r.active, r.nativeIds[id := r.nextNativeId],
                                                r.nextNativeId + 1, calls)
  {
  }

  /** When a load succeeds, and which error it gives otherwise; filling the budget to the last byte is fine. */
  lemma LoadFaultIff(c: Config, r: Registry, id: AdapterId, sizes: seq<nat>)
    ensures
      var fault := Fault(c, r, Load(id, sizes));
      var fits := Total(r.resident) + TotalSize(sizes) <= c.budget;
      var refused := c.backing.Some? && Refuses(c.backing.value, r.calls, |NonZero(sizes)|);
      && (fault.None? <==> id !in r.resident && fits && !refused)
      && (fault == Some(AlreadyLoaded) <==> id in r.resident)
      && (fault == Some(OverBudget) <==> id !in r.resident && !fits)
      && (fault == Some(AllocationFailed) <==> id !in r.resident && fits && refused)
  {
  }

  ghost function Run(c: Config, r: Registry, ops: seq<Operation>): Registry {
    if ops == [] then r else Step(c, Run(c, r, ops[..|ops| - 1]), ops[|ops| - 1])
  }

  lemma RunNext(c: Config, r: Registry, ops: seq<Operation>, k: nat)
    requires k < |ops|
    ensures Run(c, r, ops[..k + 1]) == Step(c, Run(c, r, ops[..k]), ops[k])
  {
    assert ops[..k + 1][..k] == ops[..k];
  }

  const EMPTY: Registry := Registry(map[], None, map[], 1, 0)

  // ---------------------------------------------------------------------
  // What every run keeps
  // ---------------------------------------------------------------------

  /** Exactly the resident adapters have native ids; these are distinct and below the counter. */
  ghost predicate IdsFit(r: Registry) {
    && r.nextNativeId >= 1
    && r.nativeIds.Keys == r.resident.Keys
    && (forall a | a in r.nativeIds :: 1 <= r.nativeIds[a] < r.nextNativeId)
    && (forall a, b | a in r.nativeIds && b in r.nativeIds && r.nativeIds[a] == r.nativeIds[b] :: a == b)
  }

  ghost predicate Sound(c: Config, r: Registry) {
    && Total(r.resident) <= c.budget
    && (r.active.Some? ==> r.active.value in r.resident)
    && (if c.backing.Some? then IdsFit(r) else r.nativeIds == map[])
  }

  lemma LoadKeepsSound(c: Config, r: Registry, id: AdapterId, sizes: seq<nat>)
    requires Sound(c, r) && Fault(c, r, Load(id, sizes)).None?
    ensures Sound(c, Step(c, r, Load(id, sizes)))
  {
    TotalInsert(r.resident, id, sizes);
  }

  lemma UnloadKeepsSound(c: Config, r: Registry, id: AdapterId)
    requires Sound(c, r)
    ensures Sound(c, Step(c, r, Unload(id)))
  {
    if id in r.resident {
      TotalRemove(r.resident, id);
    } else {
      assert r.resident - {id} == r.resident;
    }
  }

  lemma StepKeepsSound(c: Config, r: Registry, op: Operation)
    requires Sound(c, r)
    ensures Sound(c, Step(c, r, op))
  {
    match op
    case Load(id, sizes) =>
      if Fault(c, r, op).None? {
        LoadKeepsSound(c, r, id, sizes);
      }
    case Unload(id) =>
      UnloadKeepsSound(c, r, id);
    case _ =>
  }

  /** After every run the budget holds, the active adapter is resident, and the native ids fit the registry. */
  lemma {:induction false} RunKeepsSound(c: Config, r: Registry, ops: seq<Operation>)
    requires Sound(c, r)
    ensures Sound(c, Run(c, r, ops))
  {
    if ops != [] {
      RunKeepsSound(c, r, ops[..|ops| - 1]);
      StepKeepsSound(c, Run(c, r, ops[..|ops| - 1]), ops[|ops| - 1]);
    }
  }

  /** The bytes that the successful loads of a run bring in. */
  ghost function BytesLoaded(c: Config, r: Registry, ops: seq<Operation>): nat {
    if ops == [] then 0 else
      var before, op := ops[..|ops| - 1], ops[|ops| - 1];
      BytesLoaded(c, r, before) +
      if op.Load? && Fault(c, Run(c, r, before), op).None? then TotalSize(op.sizes) else 0
  }

  /** The bytes that the unloads of a run take out. */
  ghost function BytesUnloaded(c: Config, r: Registry, ops: seq<Operation>): nat {
    if ops == [] then 0 else
      var before, op := ops[..|ops| - 1], ops[|ops| - 1];
      BytesUnloaded(c, r, before) +
      if op.Unload? && op.id in Run(c, r, before).resident then TotalSize(Run(c, r, before).resident[op.id]) else 0
  }

  lemma {:induction false} BytesConserved(c: Config, r: Registry, ops: seq<Operation>)
    ensures Total(Run(c, r, ops).resident) + BytesUnloaded(c, r, ops) == Total(r.resident) + BytesLoaded(c, r, ops)
  {
    if ops != [] {
      var before, op := ops[..|ops| - 1], ops[|ops| - 1];
      var s := Run(c, r, before);
      BytesConserved(c, r, before);
      match op {
        case Load(id, sizes) =>
          if id !in s.resident {
            TotalInsert(s.resident, id, sizes);
          }
        case Unload(id) =>
          if id in s.resident {
            TotalRemove(s.resident, id);
          } else {
            assert s.resident - {id} == s.resident;
          }
        case _ =>
      }
    }
  }

  /** The i-th operation loads id, and no later one unloads it. */
  ghost predicate LastsFrom(c: Config, ops: seq<Operation>, i: nat, id: AdapterId) {
    && i < |ops| && ops[i].Load? && ops[i].id == id && Fault(c, Run(c, EMPTY, ops[..i]), ops[i]).None?
    && forall j | i < j < |ops| :: ops[j] != Unload(id)
  }

  lemma LastsLonger(c: Config, ops: seq<Operation>, i: nat, id: AdapterId)
    requires |ops| > 0 && i < |ops| - 1 && ops[|ops| - 1] != Unload(id)
    ensures LastsFrom(c, ops, i, id) <==> LastsFrom(c, ops[..|ops| - 1], i, id)
  {
    var before := ops[..|ops| - 1];
    assert before[..i] == ops[..i];
    assert forall j | i < j < |before| :: before[j] == ops[j];
    assert LastsFrom(c, before, i, id) ==> LastsFrom(c, ops, i, id);
    if LastsFrom(c, ops, i, id) {
      forall j | i < j < |before| ensures before[j] != Unload(id) {
        assert before[j] == ops[j];
      }
    }
  }

  /** An adapter is resident exactly if some load of it succeeded and no unload of it followed. */
  lemma {:induction false} ResidentIffLoaded(c: Config, ops: seq<Operation>, id: AdapterId)
    ensures id in Run(c, EMPTY, ops).resident <==> exists i: nat :: LastsFrom(c, ops, i, id)
  {
    if ops != [] {
      var last := |ops| - 1;
      var before, op := ops[..last], ops[last];
      ResidentIffLoaded(c, before, id);
      if op == Unload(id) {
        assert forall i: nat | i < |ops| && LastsFrom(c, ops, i, id) :: i == last;
      } else {
        forall i: nat | i < last ensures LastsFrom(c, ops, i, id) <==> LastsFrom(c, before, i, id) {
          LastsLonger(c, ops, i, id);
        }
        if op.Load? && op.id == id && Fault(c, Run(c, EMPTY, before), op).None? {
          assert LastsFrom(c, ops, last, id);
        }
      }
    }
  }

  /** Its layers then have the sizes that this load gave. */
  lemma {:induction false} ResidentHasLoadedSizes(c: Config, ops: seq<Operation>, i: nat, id: AdapterId)
    requires LastsFrom(c, ops, i, id)
    ensures id in Run(c, EMPTY, ops).resident && Run(c, EMPTY, ops).resident[id] == ops[i].sizes
  {
    var last := |ops| - 1;
    if i < last {
      LastsLonger(c, ops, i, id);
      ResidentHasLoadedSizes(c, ops[..last], i, id);
    }
  }

  predicate Switches(op: Operation, id: AdapterId) {
    (op.Activate? || op.Swap?) && op.id == id
  }

  ghost predicate SwitchesAway(c: Config, ops: seq<Operation>, j: nat, id: AdapterId)
    requires j < |ops|
  {
    (ops[j].Activate? || ops[j].Swap?) && ops[j].id != id && Fault(c, Run(c, EMPTY, ops[..j]), ops[j]).None?
  }

  /** The i-th operation makes id active, and no later one unloads it or makes another adapter active. */
  ghost predicate ActiveFrom(c: Config, ops: seq<Operation>, i: nat, id: AdapterId) {
    && i < |ops| && Switches(ops[i], id) && Fault(c, Run(c, EMPTY, ops[..i]), ops[i]).None?
    && forall j: nat | i < j < |ops| :: ops[j] != Unload(id) && !SwitchesAway(c, ops, j, id)
  }

  lemma ActiveLonger(c: Config, ops: seq<Operation>, i: nat, id: AdapterId)
    requires |ops| > 0 && i < |ops| - 1
    ensures ActiveFrom(c, ops, i, id) <==>
      && ActiveFrom(c, ops[..|ops| - 1], i, id)
      && ops[|ops| - 1] != Unload(id) && !SwitchesAway(c, ops, |ops| - 1, id)
  {
    var last := |ops| - 1;
    var before := ops[..last];
    assert before[..i] == ops[..i];
    forall j: nat | i < j < last
      ensures before[j] == ops[j] && (SwitchesAway(c, before, j, id) <==> SwitchesAway(c, ops, j, id))
    {
      assert before[..j] == ops[..j];
    }
  }

  /** What the last operation does to the active adapter. */
  lemma LastDecides(c: Config, ops: seq<Operation>, id: AdapterId)
    requires ops != []
    ensures
      var last := |ops| - 1;
      && (ActiveFrom(c, ops, last, id) <==>
          Switches(ops[last], id) && Fault(c, Run(c, EMPTY, ops[..last]), ops[last]).None?)
      && (Run(c, EMPTY, ops).active == Some(id) <==>
          || ActiveFrom(c, ops, last, id)
          || (Run(c, EMPTY, ops[..last]).active == Some(id)
              && ops[last] != Unload(id) && !SwitchesAway(c, ops, last, id)))
  {
  }

  /**
    The active adapter is the one that the last successful activate or swap
    named, unless it was unloaded since.
   */
  lemma {:induction false} ActiveIffSwitched(c: Config, ops: seq<Operation>, id: AdapterId)
    ensures Run(c, EMPTY, ops).active == Some(id) <==> exists i: nat :: ActiveFrom(c, ops, i, id)
  {
    if ops != [] {
      var last := |ops| - 1;
      var before, op := ops[..last], ops[last];
      ActiveIffSwitched(c, before, id);
      forall i: nat | i < last
        ensures ActiveFrom(c, ops, i, id) <==>
          ActiveFrom(c, before, i, id) && op != Unload(id) && !SwitchesAway(c, ops, last, id)
      {
        ActiveLonger(c, ops, i, id);
      }
      LastDecides(c, ops, id);
    }
  }

  lemma {:induction false} CounterGrows(c: Config, r: Registry, ops: seq<Operation>, i: nat)
    requires i <= |ops|
    ensures Run(c, r, ops[..i]).nextNativeId <= Run(c, r, ops).nextNativeId
  {
    if i < |ops| {
      CounterGrows(c, r, ops[..|ops| - 1], i);
      assert ops[..|ops| - 1][..i] == ops[..i];
    } else {
      assert ops[..i] == ops;
    }
  }

  ghost predicate LoadsAt(c: Config, r: Registry, ops: seq<Operation>, i: nat) {
    i < |ops| && ops[i].Load? && Fault(c, Run(c, r, ops[..i]), ops[i]).None?
  }

  /** Two loads of a run never receive the same native id, even if the first adapter is gone. */
  lemma IdsNeverReused(c: Config, r: Registry, ops: seq<Operation>, i: nat, j: nat)
    requires c.backing.Some? && i < j && LoadsAt(c, r, ops, i) && LoadsAt(c, r, ops, j)
    ensures
      var first, second := Run(c, r, ops[..i + 1]), Run(c, r, ops[..j + 1]);
      && ops[i].id in first.nativeIds && ops[j].id in second.nativeIds
      && first.nativeIds[ops[i].id] < second.nativeIds[ops[j].id]
  {
    assert ops[..i + 1][..i] == ops[..i] && ops[..j + 1][..j] == ops[..j];
    CounterGrows(c, r, ops[..j], i + 1);
    assert ops[..j][..i + 1] == ops[..i + 1];
  }

  /** Unloading undoes a load, except that counters stay advanced and an active id is kept. */
  lemma UnloadUndoesLoad(c: Config, r: Registry, id: AdapterId, sizes: seq<nat>)
    requires Sound(c, r) && Fault(c, r, Load(id, sizes)).None?
    ensures
      var after := Step(c, Step(c, r, Load(id, sizes)), Unload(id));
      after.(nextNativeId := r.nextNativeId, calls := r.calls) == r
  {
    assert r.resident[id := sizes] - {id} == r.resident;
    assert r.nativeIds[id := r.nextNativeId] - {id} == r.nativeIds;
    assert r.nativeIds - {id} == r.nativeIds;
  }

  // ---------------------------------------------------------------------
  // The native tree behind the registry
  // ---------------------------------------------------------------------

  ghost predicate Assigned(r: Registry, n: int) {
    exists a :: a in r.nativeIds && r.nativeIds[a] == n
  }

  predicate Mirrored(r: Registry, tree: Tree, a: AdapterId)
    requires a in r.nativeIds
  {
    a in r.resident && Sizes(BlocksOf(tree, r.nativeIds[a])) == NonZero(r.resident[a])
  }

  /** The native side holds one block per layer with bytes, in order, for each resident adapter and nobody else. */
  ghost predicate Coupled(r: Registry, tree: Tree) {
    && IdsFit(r)
    && (forall n | n in tree :: Assigned(r, n))
    && (forall a | a in r.nativeIds :: Mirrored(r, tree, a))
  }

  lemma FreshId(r: Registry, tree: Tree)
    requires Coupled(r, tree)
    ensures r.nextNativeId !in tree
  {
  }

  lemma OtherBlocks(tree: Tree, n: int, m: int)
    requires m != n
    ensures BlocksOf(tree - {n}, m) == BlocksOf(tree, m)
  {
  }

  lemma CoupledLoad(r: Registry, tree: Tree, id: AdapterId, s: Registry)
    requires Coupled(r, tree - {r.nextNativeId}) && id !in r.resident && id in s.resident
    requires s.resident == r.resident[id := s.resident[id]] && s.nativeIds == r.nativeIds[id := r.nextNativeId]
    requires s.nextNativeId == r.nextNativeId + 1 && Sizes(BlocksOf(tree, r.nextNativeId)) == NonZero(s.resident[id])
    ensures Coupled(s, tree)
  {
    var n := r.nextNativeId;
    assert s.nativeIds[id] == n;
    forall m | m in tree ensures Assigned(s, m) {
      if m != n {
        assert m in tree - {n} && Assigned(r, m);
        var a :| a in r.nativeIds && r.nativeIds[a] == m;
        assert s.nativeIds[a] == m;
      }
    }
    forall a | a in s.nativeIds ensures Mirrored(s, tree, a) {
      if a != id {
        assert Mirrored(r, tree - {n}, a);
        OtherBlocks(tree, n, r.nativeIds[a]);
      }
    }
  }

  /** Advancing the counter loses nothing. */
  lemma CoupledAdvance(r: Registry, tree: Tree, s: Registry)
    requires Coupled(r, tree)
    requires s.resident == r.resident && s.nativeIds == r.nativeIds && s.nextNativeId >= r.nextNativeId
    ensures Coupled(s, tree)
  {
    forall n | n in tree ensures Assigned(s, n) {
      assert Assigned(r, n);
    }
    forall a | a in s.nativeIds ensures Mirrored(s, tree, a) {
      assert Mirrored(r, tree, a);
    }
  }

  lemma CoupledUnload(r: Registry, tree: Tree, id: AdapterId, s: Registry)
    requires Coupled(r, tree) && id in r.resident
    requires s.resident == r.resident - {id} && s.nativeIds == r.nativeIds - {id} && s.nextNativeId == r.nextNativeId
    ensures Coupled(s, tree - {r.nativeIds[id]})
  {
    var n := r.nativeIds[id];
    forall m | m in tree - {n} ensures Assigned(s, m) {
      assert Assigned(r, m);
      var a :| a in r.nativeIds && r.nativeIds[a] == m;
      assert a in s.nativeIds && s.nativeIds[a] == m;
    }
    forall a | a in s.nativeIds ensures Mirrored(s, tree - {n}, a) {
      assert Mirrored(r, tree, a);
      OtherBlocks(tree, n, s.nativeIds[a]);
    }
  }

  /** A load without the native extension. */
  lemma UnbackedLoad(c: Config, r: Registry, id: AdapterId, sizes: seq<nat>, s: Registry)
    requires Sound(c, r) && c.backing.None?
    requires id !in r.resident && Total(r.resident) + TotalSize(sizes) <= c.budget
    requires s == r.(resident := r.resident[id := sizes])
    ensures Fault(c, r, Load(id, sizes)) == None && Step(c, r, Load(id, sizes)) == s && Sound(c, s)
  {
    LoadCases(c, r, id, sizes);
    LoadKeepsSound(c, r, id, sizes);
  }

  /** A load whose blocks were all granted. */
  lemma GrantedLoad(c: Config, r: Registry, tree: Tree, id: AdapterId, sizes: seq<nat>, s: Registry)
    requires Sound(c, r) && Coupled(r, tree - {r.nextNativeId}) && c.backing.Some?
    requires id !in r.resident && Total(r.resident) + TotalSize(sizes) <= c.budget
    requires !Refuses(c.backing.value, r.calls, |NonZero(sizes)|)
    requires Sizes(BlocksOf(tree, r.nextNativeId)) == NonZero(sizes)
    requires s == Registry(r.resident[id := sizes], r.active, r.nativeIds[id := r.nextNativeId], r.nextNativeId + 1,
                           r.calls + Requests(c.backing.value, r.calls, |NonZero(sizes)|))
    ensures Fault(c, r, Load(id, sizes)) == None && Step(c, r, Load(id, sizes)) == s
    ensures Sound(c, s) && Coupled(s, tree)
  {
    LoadCases(c, r, id, sizes);
    LoadKeepsSound(c, r, id, sizes);
    CoupledLoad(r, tree, id, s);
  }

  /** A load that was rolled back. */
  lemma FailedLoad(c: Config, r: Registry, tree: Tree, id: AdapterId, sizes: seq<nat>, s: Registry)
    requires Sound(c, r) && Coupled(r, tree) && c.backing.Some?
    requires id !in r.resident && Total(r.resident) + TotalSize(sizes) <= c.budget
    requires Refuses(c.backing.value, r.calls, |NonZero(sizes)|)
    requires s == r.(nextNativeId := r.nextNativeId + 1,
                     calls := r.calls + Requests(c.backing.value, r.calls, |NonZero(sizes)|))
    ensures Fault(c, r, Load(id, sizes)) == Some(AllocationFailed) && Step(c, r, Load(id, sizes)) == s
    ensures Sound(c, s) && Coupled(s, tree)
  {
    LoadCases(c, r, id, sizes);
    StepKeepsSound(c, r, Load(id, sizes));
    CoupledAdvance(r, tree, s);
  }

  /** What the allocator reports for an adapter is what its layers occupy. */
  lemma NativeBytesMatch(r: Registry, tree: Tree, a: AdapterId)
    requires Coupled(r, tree) && a in r.resident
    ensures TotalSize(Sizes(BlocksOf(tree, r.nativeIds[a]))) == TotalSize(r.resident[a])
  {
    assert Mirrored(r, tree, a);
    SumNonZero(r.resident[a]);
  }

  lemma {:induction false} PositiveIffNonZero(sizes: seq<nat>)
    ensures NonZero(sizes) != [] <==> TotalSize(sizes) > 0
  {
    if sizes != [] {
      PositiveIffNonZero(sizes[..|sizes| - 1]);
    }
  }

  /** The allocator has an entry for exactly the adapters that occupy memory. */
  lemma EntryIffBytes(r: Registry, tree: Tree, live: Live, a: AdapterId)
    requires Coupled(r, tree) && Owns(tree, live) && a in r.resident
    ensures r.nativeIds[a] in tree <==> TotalSize(r.resident[a]) > 0
  {
    assert Mirrored(r, tree, a);
    PositiveIffNonZero(r.resident[a]);
    assert |Sizes(BlocksOf(tree, r.nativeIds[a]))| == |BlocksOf(tree, r.nativeIds[a])|;
  }

  function WithBytes(resident: Resident): set<AdapterId> {
    set a | a in resident && TotalSize(resident[a]) > 0
  }

  lemma {:induction false} InjectiveImage(ids: map<AdapterId, int>, s: set<AdapterId>)
    requires s <= ids.Keys
    requires forall a, b | a in ids && b in ids && ids[a] == ids[b] :: a == b
    ensures |set a | a in s :: ids[a]| == |s|
    decreases |s|
  {
    if s != {} {
      var a := Pick(s);
      InjectiveImage(ids, s - {a});
      assert (set b | b in s :: ids[b]) == (set b | b in s - {a} :: ids[b]) + {ids[a]};
    }
  }

  /** So resident_adapter_count counts the resident adapters that occupy memory. */
  lemma TreeCountsAdapters(r: Registry, tree: Tree, live: Live)
    requires Coupled(r, tree) && Owns(tree, live)
    ensures |tree| == |WithBytes(r.resident)|
  {
    var s := WithBytes(r.resident);
    InjectiveImage(r.nativeIds, s);
    forall n | n in tree ensures exists a :: a in s && r.nativeIds[a] == n {
      assert Assigned(r, n);
      var a :| a in r.nativeIds && r.nativeIds[a] == n;
      EntryIffBytes(r, tree, live, a);
    }
    forall a | a in s ensures r.nativeIds[a] in tree {
      EntryIffBytes(r, tree, live, a);
    }
    assert tree.Keys == set a | a in s :: r.nativeIds[a];
    assert |tree| == |tree.Keys|;
  }

  lemma NoEntries(r: Registry, tree: Tree)
    requires Coupled(r, tree) && r.resident == map[]
    ensures tree == map[]
  {
    assert forall n | n in tree :: Assigned(r, n);
    assert (forall n :: n !in tree) ==> tree == map[];
  }

  lemma {:induction false} TreeHoldsResidentBytes(r: Registry, tree: Tree)
    requires Coupled(r, tree)
    ensures TreeBytes(tree) == Total(r.resident)
    decreases |r.resident|
  {
    if r.resident == map[] {
      NoEntries(r, tree);
    } else {
      var id := Pick(r.resident.Keys);
      var s := r.(resident := r.resident - {id}, nativeIds := r.nativeIds - {id});
      CoupledUnload(r, tree, id, s);
      TreeHoldsResidentBytes(s, tree - {r.nativeIds[id]});
      TreeBytesRemove(tree, r.nativeIds[id]);
      NativeBytesMatch(r, tree, id);
      TotalRemove(r.resident, id);
    }
  }

  /** The native heap holds exactly the resident bytes. */
  lemma HeapHoldsResidentBytes(r: Registry, tree: Tree, live: Live)
    requires Coupled(r, tree) && Owns(tree, live)
    ensures LiveBytes(live) == Total(r.resident)
  {
    LiveBytesOfTree(tree, live);
    TreeHoldsResidentBytes(r, tree);
  }
}
