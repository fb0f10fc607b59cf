/** The chained bump arena of valete.c (lines 64-104). Addresses are
    abstract: a block is described by its capacity (`end - begin`) and the
    offset of its cursor from `begin`, a chain by the sequence of its blocks
    from the one pushed into onwards, and a returned pointer by the block it
    lies in, its offset there and the size asked for. */
module Arenas {

  datatype Block = Block(capacity: nat, cursor: nat)

  /** Memory handed out by one push: `size` bytes from `offset` in the
      `block`-th block of the chain (counting the receiving block as 0). */
  datatype Region = Region(block: nat, offset: nat, size: nat)

  function Max(a: nat, b: nat): nat
  {
    if a > b then a else b
  }

  /** Bytes still free in a block: `end - cursor`. */
  function Spare(b: Block): int
  {
    b.capacity - b.cursor
  }

  /** Every cursor lies between the begin and the end of its block. */
  predicate Bounded(chain: seq<Block>)
  {
    forall k :: 0 <= k < |chain| ==> chain[k].cursor <= chain[k].capacity
  }

  /** Block capacities never shrink along the chain. */
  predicate Growing(chain: seq<Block>)
  {
    forall j, k :: 0 <= j < k < |chain| ==> chain[j].capacity <= chain[k].capacity
  }

  predicate WellFormed(chain: seq<Block>)
  {
    |chain| >= 1 && Bounded(chain) && Growing(chain)
  }

  /** `arena_push` on the chain: bump the first block if it has room,
      otherwise (creating the overflow block sized `max(size, capacity)` when
      there is none yet) push into the next block. The result is the new
      chain and the region handed out. */
  function PushChain(chain: seq<Block>, size: nat): (r: (seq<Block>, Region))
    requires |chain| >= 1 && Bounded(chain)
    ensures Bounded(r.0) && |chain| <= |r.0| <= |chain| + 1
    decreases |chain| + (if Spare(chain[0]) >= size then 0 else 1)
  {
    var b := chain[0];
    if Spare(b) >= size then
      ([Block(b.capacity, b.cursor + size)] + chain[1..], Region(0, b.cursor, size))
    else
      var rest := if |chain| == 1 then [Block(Max(size, b.capacity), 0)] else chain[1..];
      var pushed := PushChain(rest, size);
      ([b] + pushed.0, Region(pushed.1.block + 1, pushed.1.offset, size))
  }

  /** What a push does: the request is served, in full, by the first block
      with enough spare room, whose cursor it returns and then advances by
      `size`; when no block has room, by a new block appended at the end,
      sized `max(size, capacity of the last block)`. No other block changes. */
  lemma {:induction false} PushChainServes(chain: seq<Block>, size: nat)
    requires |chain| >= 1 && Bounded(chain)
    ensures var after, region := PushChain(chain, size).0, PushChain(chain, size).1;
      && region.size == size
      && region.block < |after|
      && region.offset + size == after[region.block].cursor
      && (forall j :: 0 <= j < region.block ==> Spare(chain[j]) < size)
      && (forall k :: 0 <= k < |chain| && k != region.block ==> after[k] == chain[k])
      && (region.block < |chain| ==>
            |after| == |chain| && Spare(chain[region.block]) >= size
            && after[region.block] == Block(chain[region.block].capacity, chain[region.block].cursor + size)
            && region.offset == chain[region.block].cursor)
      && (region.block == |chain| ==>
            |after| == |chain| + 1 && region.offset == 0
            && after[region.block] == Block(Max(size, chain[|chain| - 1].capacity), size))
    decreases |chain|, 1
  {
    var b := chain[0];
    if Spare(b) >= size {
      assert PushChain(chain, size) == ([Block(b.capacity, b.cursor + size)] + chain[1..], Region(0, b.cursor, size));
    } else if |chain| == 1 {
      var m := Max(size, b.capacity);
      assert [Block(m, 0)][1..] == [];
      assert [Block(m, size)] + [] == [Block(m, size)];
      assert [b] + [Block(m, size)] == [b, Block(m, size)];
      assert PushChain([Block(m, 0)], size) == ([Block(m, size)], Region(0, 0, size));
      assert PushChain(chain, size) == ([b, Block(m, size)], Region(1, 0, size));
    } else {
      PushChainServesLater(chain, size);
    }
  }

  /** `PushChainServes` when the receiving block has no room but there is a
      next block: the push passes down to the rest of the chain. */
  lemma {:induction false} PushChainServesLater(chain: seq<Block>, size: nat)
    requires |chain| >= 2 && Bounded(chain) && Spare(chain[0]) < size
    ensures var after, region := PushChain(chain, size).0, PushChain(chain, size).1;
      && region.size == size
      && region.block < |after|
      && region.offset + size == after[region.block].cursor
      && (forall j :: 0 <= j < region.block ==> Spare(chain[j]) < size)
      && (forall k :: 0 <= k < |chain| && k != region.block ==> after[k] == chain[k])
      && (region.block < |chain| ==>
            |after| == |chain| && Spare(chain[region.block]) >= size
            && after[region.block] == Block(chain[region.block].capacity, chain[region.block].cursor + size)
            && region.offset == chain[region.block].cursor)
      && (region.block == |chain| ==>
            |after| == |chain| + 1 && region.offset == 0
            && after[region.block] == Block(Max(size, chain[|chain| - 1].capacity), size))
    decreases |chain|, 0
  {
    var rest := chain[1..];
    PushChainServes(rest, size);
    var pushed := PushChain(rest, size);
    var after, region := [chain[0]] + pushed.0, Region(pushed.1.block + 1, pushed.1.offset, size);
    assert PushChain(chain, size) == (after, region);
    assert after[region.block] == pushed.0[pushed.1.block];
    forall j | 0 <= j < region.block ensures Spare(chain[j]) < size {
      if j > 0 { assert chain[j] == rest[j - 1]; }
    }
    forall k | 0 <= k < |chain| && k != region.block ensures after[k] == chain[k] {
      if k > 0 { assert after[k] == pushed.0[k - 1] && chain[k] == rest[k - 1]; }
    }
    if region.block < |chain| {
      assert chain[region.block] == rest[pushed.1.block];
    } else {
      assert chain[|chain| - 1] == rest[|rest| - 1];
    }
  }

  /** A push keeps the chain well formed: in particular a new overflow block
      is never smaller than the last block before it. */
  lemma PushKeepsWellFormed(chain: seq<Block>, size: nat)
    requires WellFormed(chain)
    ensures WellFormed(PushChain(chain, size).0)
  {
    PushChainServes(chain, size);
    var (after, region) := PushChain(chain, size);
    forall j, k | 0 <= j < k < |after| ensures after[j].capacity <= after[k].capacity {
      if k == |chain| {
        assert after[j].capacity == chain[j].capacity <= chain[|chain| - 1].capacity;
      }
    }
  }

  /** A zero-size push returns the cursor of the receiving block and changes
      nothing: in particular it never grows the chain. */
  lemma {:induction false} PushZero(chain: seq<Block>)
    requires |chain| >= 1 && Bounded(chain)
    ensures PushChain(chain, 0) == (chain, Region(0, chain[0].cursor, 0))
  {
    var (after, region) := PushChain(chain, 0);
    assert region.block == 0;
    assert after == chain;
  }

  /** A request larger than every block of the chain gets exactly one new
      block, sized to the request. */
  lemma PushLargerThanAll(chain: seq<Block>, size: nat)
    requires WellFormed(chain)
    requires size > chain[|chain| - 1].capacity
    ensures var (after, region) := PushChain(chain, size);
      && |after| == |chain| + 1
      && after[|chain|] == Block(size, size)
      && region == Region(|chain|, 0, size)
  {
    PushChainServes(chain, size);
    assert forall j :: 0 <= j < |chain| ==> Spare(chain[j]) <= chain[|chain| - 1].capacity;
  }

  /** Two regions share no byte. */
  predicate Disjoint(a: Region, b: Region)
  {
    a.block != b.block || a.offset + a.size <= b.offset || b.offset + b.size <= a.offset
  }

  predicate PairwiseDisjoint(regions: seq<Region>)
  {
    forall i, j :: 0 <= i < j < |regions| ==> Disjoint(regions[i], regions[j])
  }

  /** Every region lies in the used part of its block, before the cursor. */
  predicate Covered(chain: seq<Block>, regions: seq<Region>)
  {
    forall i :: 0 <= i < |regions| ==>
      regions[i].block < |chain| && regions[i].offset + regions[i].size <= chain[regions[i].block].cursor
  }

  /** A run of pushes, in order, on the same chain: the final chain and the
      regions handed out. */
  function PushAll(chain: seq<Block>, sizes: seq<nat>): (seq<Block>, seq<Region>)
    requires |chain| >= 1 && Bounded(chain)
    decreases |sizes|
  {
    if sizes == [] then (chain, [])
    else
      var pushed := PushChain(chain, sizes[0]);
      var rest := PushAll(pushed.0, sizes[1..]);
      (rest.0, [pushed.1] + rest.1)
  }

  /** One push: earlier regions stay in use and the new region overlaps none
      of them, since it starts at or after its block's old cursor. */
  lemma PushDisjoint(chain: seq<Block>, size: nat, prior: seq<Region>)
    requires |chain| >= 1 && Bounded(chain)
    requires Covered(chain, prior) && PairwiseDisjoint(prior)
    ensures var (after, region) := PushChain(chain, size);
      Covered(after, prior + [region]) && PairwiseDisjoint(prior + [region])
  {
    PushChainServes(chain, size);
    var (after, region) := PushChain(chain, size);
    var all := prior + [region];
    forall i | 0 <= i < |prior|
      ensures prior[i].offset + prior[i].size <= after[prior[i].block].cursor
      ensures Disjoint(prior[i], region)
    {
    }
    assert all[|prior|] == region;
  }

  /** Every run of pushes hands out regions that pairwise do not overlap,
      each inside the used part of its block. */
  lemma {:induction false} PushAllDisjoint(chain: seq<Block>, sizes: seq<nat>, prior: seq<Region>)
    requires |chain| >= 1 && Bounded(chain)
    requires Covered(chain, prior) && PairwiseDisjoint(prior)
    ensures |PushAll(chain, sizes).1| == |sizes|
    ensures Covered(PushAll(chain, sizes).0, prior + PushAll(chain, sizes).1)
    ensures PairwiseDisjoint(prior + PushAll(chain, sizes).1)
    decreases |sizes|
  {
    if sizes != [] {
      var pushed := PushChain(chain, sizes[0]);
      var grown := prior + [pushed.1];
      PushDisjoint(chain, sizes[0], prior);
      PushAllDisjoint(pushed.0, sizes[1..], grown);
      var rest := PushAll(pushed.0, sizes[1..]);
      assert PushAll(chain, sizes) == (rest.0, [pushed.1] + rest.1);
      assert prior + PushAll(chain, sizes).1 == grown + rest.1;
    }
  }

  /** One block of the chain: `arena_create` gives it its capacity once and
      for all; `arena_push` moves `cursor` forward and links `next`. The ghost
      field `Blocks` is the chain from this block on. */
  class Arena {
    const capacity: nat
    var cursor: nat
    var next: Arena?
    ghost var Blocks: seq<Block>
    ghost var Repr: set<object>

    ghost predicate Valid()
      reads this, Repr
      ensures Valid() ==> this in Repr && WellFormed(Blocks)
      decreases Repr
    {
      this in Repr && cursor <= capacity
      && |Blocks| >= 1 && Blocks[0] == Block(capacity, cursor)
      && (next == null ==> Blocks == [Block(capacity, cursor)] && Repr == {this})
      && (next != null ==>
            next in Repr && next.Repr <= Repr && this !in next.Repr && Repr == {this} + next.Repr
            && next.Valid() && capacity <= next.capacity
            && Blocks == [Block(capacity, cursor)] + next.Blocks)
    }

    /** `arena_create`: a block of `length` bytes, cursor at its beginning,
      no overflow block. */
    constructor (length: nat)
      ensures Valid() && fresh(Repr)
      ensures Blocks == [Block(length, 0)]
    {
      capacity := length;
      cursor := 0;
      next := null;
      Blocks := [Block(length, 0)];
      Repr := {this};
    }

    /** `arena_push`: serves `size` bytes from this block or, recursively,
      from the overflow chain, creating one overflow block when the chain
      ends here. */
    method Push(size: nat) returns (region: Region)
      requires Valid()
      modifies Repr
      ensures Valid() && fresh(Repr - old(Repr))
      ensures (Blocks, region) == PushChain(old(Blocks), size)
      decreases |Blocks| + (if Spare(Blocks[0]) >= size then 0 else 1)
    {
      ghost var before := Blocks;
      var spare := capacity - cursor;
      if spare >= size {
        region := Region(0, cursor, size);
        cursor := cursor + size;
        Blocks := [Block(capacity, cursor)] + Blocks[1..];
        assert PushChain(before, size) == (Blocks, region);
        return;
      }
      if next == null {
        var thisSize := capacity;
        next := new Arena(if size > thisSize then size else thisSize);
        Blocks := [Block(capacity, cursor)] + next.Blocks;
        Repr := Repr + next.Repr;
      }
      ghost var rest := next.Blocks;
      assert rest == (if |before| == 1 then [Block(Max(size, capacity), 0)] else before[1..]);
      var served := next.Push(size);
      region := Region(served.block + 1, served.offset, size);
      Blocks := [Block(capacity, cursor)] + next.Blocks;
      assert PushChain(before, size) == (Blocks, region);
      Repr := {this} + next.Repr;
    }
  }
}
