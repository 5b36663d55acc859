/**
  How the adapter manager (src/python/msp/adapter_manager.py) reserves the
  native blocks of one adapter, and gives them back if the host refuses one.
 */
module NativeBlocks {
  import opened Wrappers
  import opened EloraAllocator
  import opened AdapterRegistry

  lemma OneMoreLayer(fails: nat -> bool, calls: nat, sizes: seq<nat>, k: nat)
    requires k < |sizes| && !Refuses(fails, calls, |NonZero(sizes[..k])|)
    ensures NonZero(sizes[..k + 1]) == NonZero(sizes[..k]) + if sizes[k] == 0 then [] else [sizes[k]]
    ensures Refuses(fails, calls, |NonZero(sizes[..k + 1])|) <==> sizes[k] != 0 && fails(calls + |NonZero(sizes[..k])|)
  {
    NonZeroNext(sizes, k);
    RefusesNext(fails, calls, |NonZero(sizes[..k])|);
  }

  lemma RefusedAt(fails: nat -> bool, calls: nat, sizes: seq<nat>, k: nat)
    requires k < |sizes| && sizes[k] != 0
    requires !Refuses(fails, calls, |NonZero(sizes[..k])|) && fails(calls + |NonZero(sizes[..k])|)
    ensures Refuses(fails, calls, |NonZero(sizes)|)
    ensures Requests(fails, calls, |NonZero(sizes)|) == |NonZero(sizes[..k])| + 1
  {
    var granted := |NonZero(sizes[..k])|;
    NonZeroNext(sizes, k);
    NonZeroPrefix(sizes, k + 1);
    assert calls <= calls + granted < calls + |NonZero(sizes)|;
    RequestsAfter(fails, calls, |NonZero(sizes)|, granted);
  }

  /** The block of one layer; a layer without bytes needs none. */
  method ReserveBlock(native: Allocator, nativeId: int, bytes: nat) returns (ok: bool)
    requires native.Valid()
    modifies native, native.heap
    ensures native.Valid()
    ensures ok <==> bytes == 0 || !native.heap.fails(old(native.heap.calls))
    ensures native.heap.calls == old(native.heap.calls) + if bytes == 0 then 0 else 1
    ensures native.tree - {nativeId} == old(native.tree) - {nativeId}
    ensures Sizes(BlocksOf(native.tree, nativeId))
      == Sizes(BlocksOf(old(native.tree), nativeId)) + if bytes == 0 || !ok then [] else [bytes]
  {
    if bytes == 0 {
      return true;
    }
    var handle := native.AllocateKvContext(nativeId, bytes);
    ok := handle.Some?;
    if ok {
      SizesPush(BlocksOf(old(native.tree), nativeId), Block(handle.value, bytes));
    }
  }

  /** One turn of the loop: so far every request was granted, and the blocks are the layers with bytes, in order. */
  method ReserveNext(native: Allocator, nativeId: int, sizes: seq<nat>, k: nat, ghost calls: nat) returns (ok: bool)
    requires native.Valid() && k < |sizes|
    requires Sizes(BlocksOf(native.tree, nativeId)) == NonZero(sizes[..k])
    requires native.heap.calls == calls + |NonZero(sizes[..k])|
    requires !Refuses(native.heap.fails, calls, |NonZero(sizes[..k])|)
    modifies native, native.heap
    ensures native.Valid() && native.tree - {nativeId} == old(native.tree) - {nativeId}
    ensures ok ==>
      && Sizes(BlocksOf(native.tree, nativeId)) == NonZero(sizes[..k + 1])
      && native.heap.calls == calls + |NonZero(sizes[..k + 1])|
      && !Refuses(native.heap.fails, calls, |NonZero(sizes[..k + 1])|)
    ensures !ok ==>
      && Refuses(native.heap.fails, calls, |NonZero(sizes)|)
      && native.heap.calls == calls + Requests(native.heap.fails, calls, |NonZero(sizes)|)
  {
    OneMoreLayer(native.heap.fails, calls, sizes, k);
    ok := ReserveBlock(native, nativeId, sizes[k]);
    if !ok {
      RefusedAt(native.heap.fails, calls, sizes, k);
    }
  }

  method ReserveUntilRefused(native: Allocator, nativeId: int, sizes: seq<nat>) returns (ok: bool)
    requires native.Valid() && nativeId !in native.tree
    modifies native, native.heap
    ensures native.Valid()
    ensures ok <==> !Refuses(native.heap.fails, old(native.heap.calls), |NonZero(sizes)|)
    ensures native.heap.calls ==
      old(native.heap.calls) + Requests(native.heap.fails, old(native.heap.calls), |NonZero(sizes)|)
    ensures native.tree - {nativeId} == old(native.tree)
    ensures ok ==> Sizes(BlocksOf(native.tree, nativeId)) == NonZero(sizes)
  {
    ghost var calls := native.heap.calls;
    ok := true;
    for k := 0 to |sizes|
      invariant native.Valid() && ok
      invariant native.tree - {nativeId} == old(native.tree)
      invariant Sizes(BlocksOf(native.tree, nativeId)) == NonZero(sizes[..k])
      invariant native.heap.calls == calls + |NonZero(sizes[..k])|
      invariant !Refuses(native.heap.fails, calls, |NonZero(sizes[..k])|)
    {
      ok := ReserveNext(native, nativeId, sizes, k, calls);
      if !ok {
        return;
      }
    }
    assert sizes[..|sizes|] == sizes;
    RequestsAfter(native.heap.fails, calls, |NonZero(sizes)|, |NonZero(sizes)|);
  }

  /** One block for each layer with bytes; if the host refuses one, all are returned. */
  method ReserveBlocks(native: Allocator, nativeId: int, sizes: seq<nat>) returns (ok: bool)
    requires native.Valid() && nativeId !in native.tree
    modifies native, native.heap
    ensures native.Valid()
    ensures ok <==> !Refuses(native.heap.fails, old(native.heap.calls), |NonZero(sizes)|)
    ensures native.heap.calls ==
      old(native.heap.calls) + Requests(native.heap.fails, old(native.heap.calls), |NonZero(sizes)|)
    ensures ok ==>
      native.tree - {nativeId} == old(native.tree) && Sizes(BlocksOf(native.tree, nativeId)) == NonZero(sizes)
    ensures !ok ==> native.tree == old(native.tree) && native.heap.live == old(native.heap.live)
  {
    ok := ReserveUntilRefused(native, nativeId, sizes);
    if !ok {
      native.ExecuteDependencyEviction(nativeId);
      LiveDetermined(native.tree, native.heap.live, old(native.heap.live));
    }
  }
}
