/**
  The native allocator (src/cpp/elora_allocator.cpp) over a raw heap that may
  refuse any request and hands out any free address.
 */
module EloraAllocator {
  import opened Sets
  import opened Wrappers

  // ---------------------------------------------------------------------
  // The raw heap
  // ---------------------------------------------------------------------

  /** The blocks that the allocator has obtained and not yet returned, by address. */
  type Live = map<nat, nat>

  lemma {:induction false} AboveAll(s: set<nat>) returns (bound: nat)
    ensures bound != 0 && forall p | p in s :: p < bound
    decreases |s|
  {
    bound := 1;
    if s != {} {
      var p :| p in s;
      var rest := AboveAll(s - {p});
      bound := if p < rest then rest else p + 1;
      forall q | q in s ensures q < bound {
        assert q == p || q in s - {p};
      }
    }
  }

  lemma FreeAddressExists(live: Live)
    ensures exists p: nat :: p != 0 && p !in live
  {
    var bound := AboveAll(live.Keys);
    assert bound != 0 && bound !in live;
  }

  class Heap {
    const fails: nat -> bool   // which requests are refused, by number
    var calls: nat
    var live: Live

    constructor (fails: nat -> bool)
      ensures this.fails == fails && calls == 0 && live == map[]
    {
      this.fails := fails;
      calls, live := 0, map[];
    }

    method Malloc(size: nat) returns (p: Option<nat>)
      modifies this
      ensures calls == old(calls) + 1
      ensures p.None? <==> fails(old(calls))
      ensures p.None? ==> live == old(live)
      ensures p.Some? ==> p.value != 0 && p.value !in old(live) && live == old(live)[p.value := size]
    {
      calls := calls + 1;
      if fails(calls - 1) {
        return None;
      }
      FreeAddressExists(live);
      var address: nat :| address != 0 && address !in live;
      live := live[address := size];
      p := Some(address);
    }

    /** Returning a block that is not live would be a double free. */
    method Free(p: nat)
      requires p in live
      modifies this`live
      ensures live == old(live) - {p}
    {
      live := live - {p};
    }
  }

  // ---------------------------------------------------------------------
  // Who owns what
  // ---------------------------------------------------------------------

  datatype Block = Block(ptr: nat, size: nat)

  type Tree = map<int, seq<Block>>

  predicate HasBlock(tree: Tree, id: int, i: int) { id in tree && 0 <= i < |tree[id]| }

  /** Every entry has a block, every block is live with its size, and every live block sits in exactly one place. */
  ghost predicate Owns(tree: Tree, live: Live) {
    && (forall id | id in tree :: tree[id] != [])
    && (forall id, i | HasBlock(tree, id, i) :: tree[id][i].ptr in live && live[tree[id][i].ptr] == tree[id][i].size)
    && (forall id, i, id', i' |
          HasBlock(tree, id, i) && HasBlock(tree, id', i') && tree[id][i].ptr == tree[id'][i'].ptr ::
            id == id' && i == i')
    && (forall p | p in live :: exists id, i :: HasBlock(tree, id, i) && tree[id][i].ptr == p)
  }

  /** The tree determines the live heap. */
  lemma LiveDetermined(tree: Tree, live: Live, live': Live)
    requires Owns(tree, live) && Owns(tree, live')
    ensures live == live'
  {
    forall p | p in live ensures p in live' && live[p] == live'[p] {
      var id, i :| HasBlock(tree, id, i) && tree[id][i].ptr == p;
    }
    forall p | p in live' ensures p in live {
      var id, i :| HasBlock(tree, id, i) && tree[id][i].ptr == p;
    }
  }

  function BlocksOf(tree: Tree, id: int): seq<Block> {
    if id in tree then tree[id] else []
  }

  lemma OwnsPush(tree: Tree, live: Live, id: int, b: Block)
    requires Owns(tree, live) && b.ptr !in live
    ensures Owns(tree[id := BlocksOf(tree, id) + [b]], live[b.ptr := b.size])
  {
    var tree', live' := tree[id := BlocksOf(tree, id) + [b]], live[b.ptr := b.size];
    var last := |BlocksOf(tree, id)|;
    forall k, i | HasBlock(tree', k, i) && !(k == id && i == last)
      ensures HasBlock(tree, k, i) && tree'[k][i] == tree[k][i]
    {
    }
    assert HasBlock(tree', id, last) && tree'[id][last] == b;
    forall p | p in live' ensures exists k, i :: HasBlock(tree', k, i) && tree'[k][i].ptr == p {
      if p != b.ptr {
        var k, i :| HasBlock(tree, k, i) && tree[k][i].ptr == p;
        assert HasBlock(tree', k, i) && tree'[k][i] == tree[k][i];
      }
    }
  }

  function Pointers(blocks: seq<Block>): set<nat> {
    set i | 0 <= i < |blocks| :: blocks[i].ptr
  }

  lemma PointerOf(blocks: seq<Block>, i: nat)
    requires i < |blocks|
    ensures blocks[i].ptr in Pointers(blocks)
  {
  }

  lemma OwnsNothing(live: Live)
    requires Owns(map[], live)
    ensures live == map[]
  {
    var empty: Live := map[];
    assert Owns(map[], empty);
    LiveDetermined(map[], live, empty);
  }

  lemma OwnsEvict(tree: Tree, live: Live, id: int)
    requires Owns(tree, live)
    ensures Owns(tree - {id}, live - Pointers(BlocksOf(tree, id)))
  {
    var tree', live' := tree - {id}, live - Pointers(BlocksOf(tree, id));
    forall k, i | HasBlock(tree', k, i) ensures tree'[k][i].ptr in live' && live'[tree'[k][i].ptr] == tree'[k][i].size {
      assert HasBlock(tree, k, i);
      if tree[k][i].ptr in Pointers(BlocksOf(tree, id)) {
        var j :| 0 <= j < |BlocksOf(tree, id)| && BlocksOf(tree, id)[j].ptr == tree[k][i].ptr;
        assert HasBlock(tree, id, j);
      }
    }
    forall k, i, k', i' | HasBlock(tree', k, i) && HasBlock(tree', k', i') && tree'[k][i].ptr == tree'[k'][i'].ptr
      ensures k == k' && i == i'
    {
      assert HasBlock(tree, k, i) && HasBlock(tree, k', i');
    }
    forall i: nat | i < |BlocksOf(tree, id)| ensures BlocksOf(tree, id)[i].ptr !in live' {
      PointerOf(BlocksOf(tree, id), i);
    }
    forall p | p in live' ensures exists k, i :: HasBlock(tree', k, i) && tree'[k][i].ptr == p {
      var k, i :| HasBlock(tree, k, i) && tree[k][i].ptr == p;
      assert HasBlock(tree', k, i);
    }
  }

  function Sizes(blocks: seq<Block>): seq<nat> {
    seq(|blocks|, i requires 0 <= i < |blocks| => blocks[i].size)
  }

  lemma SizesPush(blocks: seq<Block>, b: Block)
    ensures Sizes(blocks + [b]) == Sizes(blocks) + [b.size]
  {
  }

  function TotalSize(sizes: seq<nat>): nat {
    if sizes == [] then 0 else TotalSize(sizes[..|sizes| - 1]) + sizes[|sizes| - 1]
  }

  /** A total counts every size once. */
  lemma {:induction false} TotalSizeSplit(sizes: seq<nat>, more: seq<nat>)
    ensures TotalSize(sizes + more) == TotalSize(sizes) + TotalSize(more)
    ensures forall n: nat :: TotalSize([n]) == n
  {
    if more == [] {
      assert sizes + more == sizes;
    } else {
      TotalSizeSplit(sizes, more[..|more| - 1]);
      assert (sizes + more)[..|sizes + more| - 1] == sizes + more[..|more| - 1];
    }
  }

  lemma NextSize(blocks: seq<Block>, k: nat)
    requires k < |blocks|
    ensures TotalSize(Sizes(blocks[..k + 1])) == TotalSize(Sizes(blocks[..k])) + blocks[k].size
  {
    assert Sizes(blocks[..k + 1])[..k] == Sizes(blocks[..k]);
  }

  ghost function LiveBytes(live: Live): nat
    decreases |live|
  {
    if live == map[] then 0 else
      var p := Pick(live.Keys);
      live[p] + LiveBytes(live - {p})
  }

  lemma {:induction false} LiveBytesRemove(live: Live, p: nat)
    requires p in live
    ensures LiveBytes(live) == live[p] + LiveBytes(live - {p})
    decreases |live|
  {
    var first := Pick(live.Keys);
    if first != p {
      LiveBytesRemove(live - {first}, p);
      LiveBytesRemove(live - {p}, first);
      assert live - {first} - {p} == live - {p} - {first};
    }
  }

  lemma PointersPush(blocks: seq<Block>, b: Block)
    ensures Pointers(blocks + [b]) == Pointers(blocks) + {b.ptr}
  {
    var pushed := blocks + [b];
    forall p | p in Pointers(blocks) ensures p in Pointers(pushed) {
      var i :| 0 <= i < |blocks| && blocks[i].ptr == p;
      assert pushed[i].ptr == p;
    }
    assert pushed[|blocks|].ptr == b.ptr;
  }

  /** Removing distinct live blocks removes the sum of their sizes. */
  lemma {:induction false} BlocksBytes(live: Live, blocks: seq<Block>)
    requires forall i | 0 <= i < |blocks| :: blocks[i].ptr in live && live[blocks[i].ptr] == blocks[i].size
    requires forall i, j | 0 <= i < |blocks| && 0 <= j < |blocks| && blocks[i].ptr == blocks[j].ptr :: i == j
    ensures LiveBytes(live) == TotalSize(Sizes(blocks)) + LiveBytes(live - Pointers(blocks))
    decreases |blocks|
  {
    if blocks == [] {
      assert live - Pointers(blocks) == live;
    } else {
      var last := |blocks| - 1;
      var rest, b := blocks[..last], blocks[last];
      BlocksBytes(live, rest);
      assert b.ptr !in Pointers(rest);
      LiveBytesRemove(live - Pointers(rest), b.ptr);
      assert Pointers(blocks) == Pointers(rest) + {b.ptr} by {
        assert blocks == rest + [b];
        PointersPush(rest, b);
      }
      assert live - Pointers(rest) - {b.ptr} == live - Pointers(blocks);
      assert Sizes(blocks)[..last] == Sizes(rest);
    }
  }

  /** An eviction lowers the live bytes by what the entry held. */
  lemma EvictedBytes(tree: Tree, live: Live, id: int)
    requires Owns(tree, live)
    ensures LiveBytes(live) == TotalSize(Sizes(BlocksOf(tree, id))) + LiveBytes(live - Pointers(BlocksOf(tree, id)))
  {
    var blocks := BlocksOf(tree, id);
    assert forall i | 0 <= i < |blocks| :: HasBlock(tree, id, i);
    BlocksBytes(live, blocks);
  }

  /** The bytes that all entries report together. */
  ghost function TreeBytes(tree: Tree): nat
    decreases |tree|
  {
    if tree == map[] then 0 else
      var id := Pick(tree.Keys);
      TotalSize(Sizes(tree[id])) + TreeBytes(tree - {id})
  }

  lemma {:induction false} TreeBytesRemove(tree: Tree, id: int)
    ensures TreeBytes(tree) == TotalSize(Sizes(BlocksOf(tree, id))) + TreeBytes(tree - {id})
    decreases |tree|
  {
    if id !in tree {
      assert tree - {id} == tree;
    } else {
      var first := Pick(tree.Keys);
      if first != id {
        TreeBytesRemove(tree - {first}, id);
        TreeBytesRemove(tree - {id}, first);
        assert tree - {first} - {id} == tree - {id} - {first};
      }
    }
  }

  /** The live heap holds as many bytes as the entries report. */
  lemma {:induction false} LiveBytesOfTree(tree: Tree, live: Live)
    requires Owns(tree, live)
    ensures LiveBytes(live) == TreeBytes(tree)
    decreases |tree|
  {
    if tree == map[] {
      OwnsNothing(live);
    } else {
      var id := Pick(tree.Keys);
      var rest := live - Pointers(BlocksOf(tree, id));
      EvictedBytes(tree, live, id);
      TreeBytesRemove(tree, id);
      OwnsEvict(tree, live, id);
      LiveBytesOfTree(tree - {id}, rest);
    }
  }

  // ---------------------------------------------------------------------
  // The allocator
  // ---------------------------------------------------------------------

  class Allocator {
    const heap: Heap
    var tree: Tree

    ghost predicate Valid()
      reads this, heap
    {
      Owns(tree, heap.live)
    }

    constructor (heap: Heap)
      requires heap.live == map[]
      ensures this.heap == heap && tree == map[] && Valid()
    {
      this.heap := heap;
      tree := map[];
    }

    method AllocateKvContext(id: int, size: nat) returns (handle: Option<nat>)
      requires Valid()
      modifies this, heap
      ensures Valid()
      ensures heap.calls == old(heap.calls) + if size == 0 then 0 else 1
      ensures handle.None? <==> size == 0 || heap.fails(old(heap.calls))
      ensures handle.None? ==> tree == old(tree) && heap.live == old(heap.live)
      ensures handle.Some? ==>
        && handle.value !in old(heap.live) && heap.live == old(heap.live)[handle.value := size]
        && tree == old(tree)[id := BlocksOf(old(tree), id) + [Block(handle.value, size)]]
    {
      if size == 0 {
        return None;
      }
      handle := heap.Malloc(size);
      if handle.None? {
        return;
      }
      OwnsPush(tree, old(heap.live), id, Block(handle.value, size));
      tree := tree[id := BlocksOf(tree, id) + [Block(handle.value, size)]];
    }

    method FreeAll(blocks: seq<Block>)
      requires forall i | 0 <= i < |blocks| :: blocks[i].ptr in heap.live
      requires forall i, j | 0 <= i < |blocks| && 0 <= j < |blocks| && blocks[i].ptr == blocks[j].ptr :: i == j
      modifies heap`live
      ensures heap.live == old(heap.live) - Pointers(blocks)
    {
      var k := 0;
      while k < |blocks|
        invariant 0 <= k <= |blocks|
        invariant heap.live == old(heap.live) - Pointers(blocks[..k])
      {
        assert blocks[k].ptr !in Pointers(blocks[..k]);
        heap.Free(blocks[k].ptr);
        assert Pointers(blocks[..k + 1]) == Pointers(blocks[..k]) + {blocks[k].ptr};
        k := k + 1;
      }
      assert blocks[..k] == blocks;
    }

    /** Frees every block of id, each exactly once, and nothing else. */
    method ExecuteDependencyEviction(id: int)
      requires Valid()
      modifies this, heap
      ensures Valid()
      ensures tree == old(tree) - {id}
      ensures heap.live == old(heap.live) - Pointers(BlocksOf(old(tree), id))
      ensures heap.calls == old(heap.calls)
    {
      OwnsEvict(tree, heap.live, id);
      if id !in tree {
        assert tree - {id} == tree;
        return;
      }
      FreeAll(tree[id]);
      tree := tree - {id};
    }

    method BytesResidentFor(id: int) returns (total: nat)
      ensures total == TotalSize(Sizes(BlocksOf(tree, id)))
    {
      if id !in tree {
        return 0;
      }
      total := 0;
      var blocks := tree[id];
      var k := 0;
      while k < |blocks|
        invariant 0 <= k <= |blocks|
        invariant total == TotalSize(Sizes(blocks[..k]))
      {
        NextSize(blocks, k);
        total := total + blocks[k].size;
        k := k + 1;
      }
      assert blocks[..k] == blocks;
    }

    method ResidentAdapterCount() returns (n: nat)
      ensures n == |tree|
    {
      n := |tree|;
    }

    /** The destructor: nothing stays allocated. */
    method Destroy()
      requires Valid()
      modifies this, heap
      ensures tree == map[] && heap.live == map[]
    {
      var ids := tree.Keys;
      while ids != {}
        invariant Valid() && ids == tree.Keys
        decreases |ids|
      {
        ghost var some := Pick(ids);
        var id :| id in ids;
        ExecuteDependencyEviction(id);
        ids := ids - {id};
      }
      assert tree == map[];
      OwnsNothing(heap.live);
    }
  }
}
