/**
  The adapter manager (src/python/msp/adapter_manager.py) over real layers and
  the native allocator: every operation does what the budgeted registry does,
  and keeps the native side coupled to it.
 */
module AdapterManager {
  import opened Wrappers
  import opened PluginLayer
  import opened EloraAllocator
  import opened AdapterRegistry
  import opened NativeBlocks
  import opened Sets

  function LayerBytes(layer: Layer): nat {
    AdapterBytes(layer.base, layer.rank, layer.dtype)
  }

  function LayerSizes(layers: seq<Layer>): seq<nat> {
    seq(|layers|, i requires 0 <= i < |layers| => LayerBytes(layers[i]))
  }

  function ResidentSizes(adapters: map<AdapterId, seq<Layer>>): Resident {
    map id | id in adapters :: LayerSizes(adapters[id])
  }

  ghost function LayersOf(adapters: map<AdapterId, seq<Layer>>): set<Layer> {
    set id, i | id in adapters && 0 <= i < |adapters[id]| :: adapters[id][i]
  }

  ghost function LayerSet(layers: seq<Layer>): set<Layer> {
    set i | 0 <= i < |layers| :: layers[i]
  }

  ghost predicate AllValid(layers: set<Layer>)
    reads layers
  {
    forall layer | layer in layers :: layer.Valid()
  }

  lemma LayerSetWithin(adapters: map<AdapterId, seq<Layer>>, id: AdapterId)
    requires id in adapters
    ensures LayerSet(adapters[id]) <= LayersOf(adapters)
  {
  }

  lemma LayersOfInsert(adapters: map<AdapterId, seq<Layer>>, id: AdapterId, layers: seq<Layer>)
    ensures LayersOf(adapters[id := layers]) <= LayersOf(adapters) + LayerSet(layers)
    ensures ResidentSizes(adapters[id := layers]) == ResidentSizes(adapters)[id := LayerSizes(layers)]
  {
  }

  lemma LayersOfRemove(adapters: map<AdapterId, seq<Layer>>, id: AdapterId)
    ensures LayersOf(adapters - {id}) <= LayersOf(adapters)
    ensures ResidentSizes(adapters - {id}) == ResidentSizes(adapters) - {id}
  {
  }

  lemma AbsentUnload(c: Config, r: Registry, id: AdapterId)
    requires Sound(c, r) && id !in r.resident
    ensures Step(c, r, Unload(id)) == r
  {
    assert r.resident - {id} == r.resident && r.nativeIds - {id} == r.nativeIds;
  }

  method SumOf(sizes: seq<nat>) returns (total: nat)
    ensures total == TotalSize(sizes)
  {
    total := 0;
    for k := 0 to |sizes|
      invariant total == TotalSize(sizes[..k])
    {
      assert sizes[..k + 1][..k] == sizes[..k];
      total := total + sizes[k];
    }
    assert sizes[..|sizes|] == sizes;
  }

  method ParameterSizes(layers: seq<Layer>) returns (sizes: seq<nat>)
    requires AllValid(LayerSet(layers))
    ensures sizes == LayerSizes(layers)
  {
    sizes := [];
    for k := 0 to |layers|
      invariant sizes == LayerSizes(layers)[..k]
    {
      assert layers[k] in LayerSet(layers);
      sizes := sizes + [layers[k].ParameterBytes()];
    }
  }

  method ByteSize(layers: seq<Layer>) returns (bytes: nat)
    requires AllValid(LayerSet(layers))
    ensures bytes == TotalSize(LayerSizes(layers))
  {
    var sizes := ParameterSizes(layers);
    bytes := SumOf(sizes);
  }

  method ClearHooks(layers: seq<Layer>)
    modifies LayerSet(layers)`gradGateHandles
    ensures forall layer | layer in LayerSet(layers) ::
      layer.gradGateHandles == [] && (old(layer.Valid()) ==> layer.Valid())
  {
    for k := 0 to |layers|
      invariant forall j | 0 <= j < k :: layers[j].gradGateHandles == []
      invariant forall layer | layer in LayerSet(layers) :: old(layer.Valid()) ==> layer.Valid()
    {
      assert layers[k] in LayerSet(layers);
      layers[k].ClearGradientGate();
    }
  }

  class Manager {
    const memoryBudgetBytes: nat
    const native: Allocator?
    var adapters: map<AdapterId, seq<Layer>>
    var activeAdapterId: Option<AdapterId>
    var nativeIds: map<AdapterId, int>
    var nextNativeId: int

    ghost function Settings(): Config {
      Config(memoryBudgetBytes, if native == null then None else Some(native.heap.fails))
    }

    ghost function NativeRepr(): set<object> {
      if native == null then {} else {native, native.heap}
    }

    ghost function Abs(): Registry
      reads this, NativeRepr()
    {
      Registry(ResidentSizes(adapters), activeAdapterId, nativeIds, nextNativeId,
               if native == null then 0 else native.heap.calls)
    }

    /**
      The registry keeps its budget, and the native tree and the live heap
      mirror it. The layers belong to the callers, who keep them well formed.
     */
    ghost predicate Valid()
      reads this, NativeRepr()
    {
      && memoryBudgetBytes > 0
      && Sound(Settings(), Abs())
      && (native != null ==> native.Valid() && Coupled(Abs(), native.tree))
    }

    constructor (budget: nat, native: Allocator?)
      requires budget > 0 && (native != null ==> native.tree == map[] && native.heap.live == map[])
      ensures Valid() && memoryBudgetBytes == budget && this.native == native
      ensures adapters == map[] && activeAdapterId == None && nativeIds == map[] && nextNativeId == 1
    {
      memoryBudgetBytes := budget;
      this.native := native;
      adapters, activeAdapterId := map[], None;
      nativeIds, nextNativeId := map[], 1;
      new;
      assert ResidentSizes(adapters) == map[];
    }

    /** backing tells whether the extension is there, and how its host behaves. */
    static method Create(budget: int, backing: Option<nat -> bool>) returns (r: Result<Manager, Error>)
      ensures r == Err(BadBudget) <==> budget <= 0
      ensures r.Ok? ==>
        && fresh(r.value) && fresh(r.value.NativeRepr()) && r.value.Valid()
        && r.value.Settings() == Config(budget, backing) && r.value.Abs() == EMPTY
    {
      if budget <= 0 {
        return Err(BadBudget);
      }
      var native: Allocator? := null;
      if backing.Some? {
        var heap := new Heap(backing.value);
        native := new Allocator(heap);
      }
      var manager := new Manager(budget, native);
      assert ResidentSizes(manager.adapters) == map[];
      r := Ok(manager);
    }

    method ResidentBytes() returns (total: nat)
      requires AllValid(LayersOf(adapters))
      ensures total == Total(Abs().resident)
    {
      total := 0;
      var rest := adapters;
      while rest != map[]
        invariant rest.Keys <= adapters.Keys && forall id | id in rest :: rest[id] == adapters[id]
        invariant total + Total(ResidentSizes(rest)) == Total(ResidentSizes(adapters))
        decreases |rest|
      {
        ghost var some := Pick(rest.Keys);
        var id :| id in rest;
        assert LayersOf(rest) <= LayersOf(adapters);
        LayerSetWithin(rest, id);
        var bytes := ByteSize(rest[id]);
        TotalRemove(ResidentSizes(rest), id);
        assert ResidentSizes(rest) - {id} == ResidentSizes(rest - {id});
        total := total + bytes;
        rest := rest - {id};
      }
      assert ResidentSizes(rest) == map[];
    }

    /** The native half of a load: an id and the blocks, or only a used-up id. */
    method Back(native: Allocator, id: AdapterId, sizes: seq<nat>) returns (ok: bool)
      requires native == this.native && id !in nativeIds && native.Valid() && nextNativeId !in native.tree
      modifies this`nativeIds, this`nextNativeId, native, native.heap
      ensures native.Valid() && nextNativeId == old(nextNativeId) + 1
      ensures native.heap.calls == old(native.heap.calls)
        + Requests(native.heap.fails, old(native.heap.calls), |NonZero(sizes)|)
      ensures ok <==> !Refuses(native.heap.fails, old(native.heap.calls), |NonZero(sizes)|)
      ensures !ok ==> nativeIds == old(nativeIds)
      ensures !ok ==> native.tree == old(native.tree) && native.heap.live == old(native.heap.live)
      ensures ok ==> nativeIds == old(nativeIds)[id := old(nextNativeId)]
      ensures ok ==>
        && native.tree - {old(nextNativeId)} == old(native.tree)
        && Sizes(BlocksOf(native.tree, old(nextNativeId))) == NonZero(sizes)
    {
      var nativeId := nextNativeId;
      nextNativeId := nextNativeId + 1;
      nativeIds := nativeIds[id := nativeId];
      ok := ReserveBlocks(native, nativeId, sizes);
      if !ok {
        nativeIds := nativeIds - {id};
      }
    }

    /** Registry entry, id and blocks, or none of them. */
    method Commit(id: AdapterId, layers: seq<Layer>, sizes: seq<nat>) returns (error: Option<Error>)
      requires id !in adapters && id !in nativeIds && sizes == LayerSizes(layers)
      requires native != null ==> native.Valid() && nextNativeId !in native.tree
      modifies this, NativeRepr()
      ensures activeAdapterId == old(activeAdapterId)
      ensures adapters == if error.None? then old(adapters)[id := layers] else old(adapters)
      ensures native == null ==> error.None? && nativeIds == old(nativeIds) && nextNativeId == old(nextNativeId)
      ensures native != null ==>
        && native.Valid() && nextNativeId == old(nextNativeId) + 1
        && native.heap.calls == old(native.heap.calls)
          + Requests(native.heap.fails, old(native.heap.calls), |NonZero(sizes)|)
        && error == if Refuses(native.heap.fails, old(native.heap.calls), |NonZero(sizes)|)
                    then Some(AllocationFailed) else None
      ensures native != null && error.Some? ==>
        && nativeIds == old(nativeIds)
        && native.tree == old(native.tree) && native.heap.live == old(native.heap.live)
      ensures native != null && error.None? ==>
        && nativeIds == old(nativeIds)[id := old(nextNativeId)]
        && native.tree - {old(nextNativeId)} == old(native.tree)
        && Sizes(BlocksOf(native.tree, old(nextNativeId))) == NonZero(sizes)
    {
      adapters := adapters[id := layers];
      if native != null {
        var ok := Back(native, id, sizes);
        if !ok {
          adapters := adapters - {id};
          return Some(AllocationFailed);
        }
      }
      error := None;
    }

    /** The part of a load that follows the two checks keeps the native side coupled. */
    method Admit(id: AdapterId, layers: seq<Layer>, sizes: seq<nat>) returns (error: Option<Error>)
      requires Valid() && sizes == LayerSizes(layers)
      requires id !in adapters && Total(Abs().resident) + TotalSize(sizes) <= memoryBudgetBytes
      modifies this, NativeRepr()
      ensures Valid()
      ensures error == Fault(Settings(), old(Abs()), Load(id, sizes))
      ensures Abs() == Step(Settings(), old(Abs()), Load(id, sizes))
      ensures adapters == if error.None? then old(adapters)[id := layers] else old(adapters)
      ensures error.Some? && native != null ==>
        native.tree == old(native.tree) && native.heap.live == old(native.heap.live)
    {
      ghost var before := Abs();
      LayersOfInsert(adapters, id, layers);
      if native != null {
        FreshId(before, native.tree);
      }
      error := Commit(id, layers, sizes);
      if native == null {
        UnbackedLoad(Settings(), before, id, sizes, Abs());
      } else if error.None? {
        GrantedLoad(Settings(), before, native.tree, id, sizes, Abs());
      } else {
        FailedLoad(Settings(), before, native.tree, id, sizes, Abs());
      }
    }

    /**
      Refused or failed loads leave registry, active id, id map, tree and live
      heap as they were; only the id counter and the request count move.
     */
    method LoadAdapter(id: AdapterId, layers: seq<Layer>) returns (error: Option<Error>)
      requires Valid() && AllValid(LayersOf(adapters)) && AllValid(LayerSet(layers))
      modifies this, NativeRepr()
      ensures Valid()
      ensures error == Fault(Settings(), old(Abs()), Load(id, LayerSizes(layers)))
      ensures Abs() == Step(Settings(), old(Abs()), Load(id, LayerSizes(layers)))
      ensures adapters == if error.None? then old(adapters)[id := layers] else old(adapters)
      ensures error.Some? && native != null ==>
        native.tree == old(native.tree) && native.heap.live == old(native.heap.live)
    {
      if id in adapters {
        return Some(AlreadyLoaded);
      }
      var sizes := ParameterSizes(layers);
      var incoming := SumOf(sizes);
      var resident := ResidentBytes();
      if resident + incoming > memoryBudgetBytes {
        return Some(OverBudget);
      }
      error := Admit(id, layers, sizes);
    }

    function Entry(id: AdapterId): seq<Layer>
      reads this
    {
      if id in adapters then adapters[id] else []
    }

    /** Registry entry, active id, native id and blocks go together. */
    method Detach(id: AdapterId)
      requires native != null ==> native.Valid() && id in nativeIds
      requires native == null ==> nativeIds == map[]
      modifies this, NativeRepr()
      ensures adapters == old(adapters) - {id}
      ensures nativeIds == old(nativeIds) - {id} && nextNativeId == old(nextNativeId)
      ensures activeAdapterId == if old(activeAdapterId) == Some(id) then None else old(activeAdapterId)
      ensures native != null ==>
        && native.Valid() && native.heap.calls == old(native.heap.calls)
        && native.tree == old(native.tree) - {old(nativeIds)[id]}
    {
      adapters := adapters - {id};
      if activeAdapterId == Some(id) {
        activeAdapterId := None;
      }
      if native != null {
        var nativeId := nativeIds[id];
        nativeIds := nativeIds - {id};
        native.ExecuteDependencyEviction(nativeId);
      }
    }

    /** Removing an adapter that is there keeps the native side coupled. */
    method Remove(id: AdapterId)
      requires Valid() && id in adapters
      modifies this, NativeRepr()
      ensures Valid()
      ensures Abs() == Step(Settings(), old(Abs()), Unload(id))
      ensures adapters == old(adapters) - {id}
    {
      ghost var before := Abs();
      UnloadKeepsSound(Settings(), before, id);
      LayersOfRemove(adapters, id);
      Detach(id);
      if native != null {
        CoupledUnload(before, old(native.tree), id, Abs());
      }
    }

    /** No hook of the adapter's layers outlives it, and its blocks are freed. */
    method UnloadAdapter(id: AdapterId)
      requires Valid()
      modifies this, NativeRepr(), LayerSet(Entry(id))`gradGateHandles
      ensures Valid()
      ensures Abs() == Step(Settings(), old(Abs()), Unload(id))
      ensures adapters == old(adapters) - {id}
      ensures forall layer | layer in LayerSet(old(Entry(id))) ::
        layer.gradGateHandles == [] && (old(layer.Valid()) ==> layer.Valid())
    {
      if id in adapters {
        ClearHooks(adapters[id]);
        Remove(id);
      } else {
        AbsentUnload(Settings(), Abs(), id);
      }
    }

    method Activate(id: AdapterId) returns (error: Option<Error>)
      requires Valid()
      modifies this`activeAdapterId
      ensures Valid()
      ensures error == if id in adapters then None else Some(NotLoaded)
      ensures activeAdapterId == if id in adapters then Some(id) else old(activeAdapterId)
      ensures error == Fault(Settings(), old(Abs()), AdapterRegistry.Activate(id))
      ensures Abs() == Step(Settings(), old(Abs()), AdapterRegistry.Activate(id))
    {
      if id !in adapters {
        return Some(NotLoaded);
      }
      activeAdapterId := Some(id);
      error := None;
    }

    /** Only switches: the adapter that was active stays resident. */
    method Swap(fromId: Option<AdapterId>, toId: AdapterId) returns (error: Option<Error>)
      requires Valid()
      modifies this`activeAdapterId
      ensures Valid()
      ensures error == if toId in adapters then None else Some(NotLoaded)
      ensures activeAdapterId == if toId in adapters then Some(toId) else old(activeAdapterId)
      ensures error == Fault(Settings(), old(Abs()), AdapterRegistry.Swap(fromId, toId))
      ensures Abs() == Step(Settings(), old(Abs()), AdapterRegistry.Swap(fromId, toId))
    {
      error := Activate(toId);
    }
  }

  // ---------------------------------------------------------------------
  // Whole runs
  // ---------------------------------------------------------------------

  /** The native heap never holds more than the budget, and holds exactly what is resident. */
  lemma NativeHeapWithinBudget(m: Manager)
    requires m.Valid() && m.native != null
    ensures LiveBytes(m.native.heap.live) == Total(m.Abs().resident) <= m.memoryBudgetBytes
  {
    HeapHoldsResidentBytes(m.Abs(), m.native.tree, m.native.heap.live);
  }

  /** What the allocator's count means: the resident adapters that occupy memory. */
  method BackedAdapterCount(m: Manager) returns (n: nat)
    requires m.Valid() && m.native != null
    ensures n == |WithBytes(m.Abs().resident)|
  {
    TreeCountsAdapters(m.Abs(), m.native.tree, m.native.heap.live);
    n := m.native.ResidentAdapterCount();
  }

  datatype Call =
    | LoadCall(id: AdapterId, layers: seq<Layer>)
    | UnloadCall(id: AdapterId)
    | ActivateCall(id: AdapterId)
    | SwapCall(fromId: Option<AdapterId>, id: AdapterId)

  function OperationOf(call: Call): Operation {
    match call
    case LoadCall(id, layers) => Load(id, LayerSizes(layers))
    case UnloadCall(id) => Unload(id)
    case ActivateCall(id) => Activate(id)
    case SwapCall(fromId, id) => Swap(fromId, id)
  }

  function OperationsOf(calls: seq<Call>): seq<Operation> {
    seq(|calls|, i requires 0 <= i < |calls| => OperationOf(calls[i]))
  }

  ghost function CallLayers(call: Call): set<Layer> {
    if call.LoadCall? then LayerSet(call.layers) else {}
  }

  /** known bounds the layers that the manager may ever see. */
  method Perform(m: Manager, call: Call, ghost known: set<Layer>)
    requires m.Valid() && AllValid(known) && LayersOf(m.adapters) + CallLayers(call) <= known
    modifies m, m.NativeRepr(), known`gradGateHandles
    ensures m.Valid() && AllValid(known) && LayersOf(m.adapters) <= known
    ensures m.Abs() == Step(m.Settings(), old(m.Abs()), OperationOf(call))
  {
    match call {
      case LoadCall(id, layers) =>
        LayersOfInsert(m.adapters, id, layers);
        var _ := m.LoadAdapter(id, layers);
      case UnloadCall(id) =>
        LayersOfRemove(m.adapters, id);
        m.UnloadAdapter(id);
      case ActivateCall(id) =>
        var _ := m.Activate(id);
      case SwapCall(fromId, id) =>
        var _ := m.Swap(fromId, id);
    }
  }

  /** Any run of calls does what the budgeted registry does, and stays coupled. */
  method PerformAll(m: Manager, calls: seq<Call>, ghost known: set<Layer>)
    requires m.Valid() && AllValid(known) && LayersOf(m.adapters) <= known
    requires forall call | call in calls :: CallLayers(call) <= known
    modifies m, m.NativeRepr(), known`gradGateHandles
    ensures m.Valid() && m.Abs() == Run(m.Settings(), old(m.Abs()), OperationsOf(calls))
  {
    ghost var c, before, ops := m.Settings(), m.Abs(), OperationsOf(calls);
    for k := 0 to |calls|
      invariant m.Valid() && AllValid(known) && LayersOf(m.adapters) <= known
      invariant m.Abs() == Run(c, before, ops[..k])
    {
      Perform(m, calls[k], known);
      RunNext(c, before, ops, k);
    }
    assert ops[..|calls|] == ops;
  }
}
