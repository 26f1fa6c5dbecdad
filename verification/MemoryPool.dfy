/**
 The fixed-block memory pool: one buffer cut into blocks of equal size, and a list of the
 free ones used as a stack. Blocks are named by their offset in the buffer.
 */
module MemoryPool {
  import opened Options
  import opened Bytes
  import opened Distinct
  import opened Products
  import opened Runs

  const SIZE_LIMIT: nat := 0x1_0000_0000_0000_0000 // size_t wraps around here

  datatype Pool = Pool(
    blockSize: nat,
    numBlocks: nat,
    bytes: seq<byte>,
    free: seq<nat>,  // the end of the list is the top of the stack
    live: set<nat>)  // the blocks handed out and not given back

  datatype Op =
    | Allocate
    | Deallocate(block: nat)
    | Write(block: nat, offset: nat, value: byte)

  // ---- The layout of the blocks ----

  /** The address the constructor computes for block i, relative to the buffer. */
  function Address(blockSize: nat, i: nat): nat {
    (i * blockSize) % SIZE_LIMIT
  }

  /** The size of the buffer the constructor allocates. */
  function BufferSize(blockSize: nat, numBlocks: nat): nat {
    (blockSize * numBlocks) % SIZE_LIMIT
  }

  predicate InBuffer(blockSize: nat, numBlocks: nat, i: nat) {
    && Address(blockSize, i) < BufferSize(blockSize, numBlocks)
    && Address(blockSize, i) + blockSize <= BufferSize(blockSize, numBlocks)
  }

  predicate Fits(blockSize: nat, numBlocks: nat) {
    blockSize >= 1 && blockSize * numBlocks < SIZE_LIMIT
  }

  lemma BlockBound(blockSize: nat, numBlocks: nat, i: nat)
    requires i < numBlocks
    ensures i * blockSize + blockSize <= blockSize * numBlocks
  {
    ScaleMonotone(blockSize, i + 1, numBlocks);
  }

  lemma BlocksOrdered(blockSize: nat, i: nat, j: nat)
    requires i < j
    ensures i * blockSize + blockSize <= j * blockSize
  {
    BlockBound(blockSize, j, i);
  }

  /** The constructor lays out usable blocks exactly when the sizes are sane: otherwise
      some block does not lie in the buffer. */
  lemma LayoutSoundIff(blockSize: nat, numBlocks: nat)
    ensures (forall i: nat :: i < numBlocks ==> InBuffer(blockSize, numBlocks, i))
            <==> numBlocks == 0 || Fits(blockSize, numBlocks)
  {
    if Fits(blockSize, numBlocks) {
      forall i: nat | i < numBlocks
        ensures InBuffer(blockSize, numBlocks, i)
      {
        BlockBound(blockSize, numBlocks, i);
      }
    } else if numBlocks > 0 {
      if blockSize == 0 {
        assert !InBuffer(blockSize, numBlocks, 0);
      } else {
        BlockAcrossTheLimit(blockSize, numBlocks);
      }
    }
  }

  /** If the total wraps around, the block that crosses the limit is out of the buffer. */
  lemma BlockAcrossTheLimit(blockSize: nat, numBlocks: nat)
    requires blockSize >= 1 && blockSize * numBlocks >= SIZE_LIMIT
    ensures exists i: nat :: i < numBlocks && !InBuffer(blockSize, numBlocks, i)
  {
    var i := (SIZE_LIMIT - 1) / blockSize;
    assert i * blockSize + (SIZE_LIMIT - 1) % blockSize == SIZE_LIMIT - 1;
    assert i >= numBlocks ==> blockSize * i >= blockSize * numBlocks by {
      if i >= numBlocks {
        ScaleMonotone(blockSize, numBlocks, i);
      }
    }
    assert !InBuffer(blockSize, numBlocks, i);
  }

  // ---- The operations ----

  function Blocks(blockSize: nat, numBlocks: nat): seq<nat> {
    seq(numBlocks, i requires 0 <= i => Address(blockSize, i))
  }

  function Init(blockSize: nat, numBlocks: nat): Pool {
    Pool(blockSize, numBlocks, seq(BufferSize(blockSize, numBlocks), _ => 0), Blocks(blockSize, numBlocks), {})
  }

  /** What allocate returns: the top of the free list, or null. */
  function Allocated(p: Pool): Option<nat> {
    if p.free == [] then None else Some(p.free[|p.free| - 1])
  }

  /** The effect of an operation; None for a block the caller does not hold. */
  function Next(p: Pool, op: Op): Option<Pool> {
    match op
    case Allocate =>
      if p.free == [] then Some(p) else
      Some(p.(free := p.free[..|p.free| - 1], live := p.live + {p.free[|p.free| - 1]}))
    case Deallocate(b) =>
      if b in p.live then Some(p.(free := p.free + [b], live := p.live - {b})) else None
    case Write(b, offset, value) =>
      if b in p.live && offset < p.blockSize && b + offset < |p.bytes| then
        Some(p.(bytes := p.bytes[b + offset := value]))
      else None
  }

  // ---- The invariant ----

  predicate IsBlock(p: Pool, b: nat) {
    exists i: nat :: i < p.numBlocks && b == i * p.blockSize
  }

  /** The free and the live blocks are disjoint, without duplicates, and together all the blocks. */
  ghost predicate Inv(p: Pool) {
    && Fits(p.blockSize, p.numBlocks)
    && |p.bytes| == p.blockSize * p.numBlocks
    && NoDuplicates(p.free)
    && (forall b :: b in p.free ==> b !in p.live)
    && (forall b :: IsBlock(p, b) <==> b in p.free || b in p.live)
    && |p.free| + |p.live| == p.numBlocks
  }

  lemma BlockAt(blockSize: nat, numBlocks: nat, i: nat)
    requires Fits(blockSize, numBlocks) && i < numBlocks
    ensures Blocks(blockSize, numBlocks)[i] == i * blockSize
  {
    BlockBound(blockSize, numBlocks, i);
  }

  lemma InitInv(blockSize: nat, numBlocks: nat)
    requires Fits(blockSize, numBlocks)
    ensures Inv(Init(blockSize, numBlocks))
  {
    var p := Init(blockSize, numBlocks);
    forall k, l | 0 <= k < l < |p.free|
      ensures p.free[k] != p.free[l]
    {
      BlockAt(blockSize, numBlocks, k);
      BlockAt(blockSize, numBlocks, l);
      BlocksOrdered(blockSize, k, l);
    }
    forall b
      ensures IsBlock(p, b) <==> b in p.free
    {
      if IsBlock(p, b) {
        var i: nat :| i < p.numBlocks && b == i * p.blockSize;
        BlockAt(blockSize, numBlocks, i);
        assert p.free[i] == b;
      }
      if b in p.free {
        var i :| 0 <= i < |p.free| && p.free[i] == b;
        BlockAt(blockSize, numBlocks, i);
      }
    }
  }

  lemma NextInv(p: Pool, op: Op)
    requires Inv(p) && Next(p, op).Some?
    ensures Inv(Next(p, op).value)
  {
    var p' := Next(p, op).value;
    assert forall b :: IsBlock(p', b) <==> IsBlock(p, b);
    if op.Allocate? && p.free != [] {
      var n := |p.free| - 1;
      assert p.free == p.free[..n] + [p.free[n]];
      assert forall b :: b in p.free <==> b in p.free[..n] || b == p.free[n];
    }
  }

  lemma RunInv(p: Pool, ops: seq<Op>, p': Pool)
    requires Inv(p) && Reaches(Next, p, ops, p')
    ensures Inv(p')
  {
    forall u, op | Inv(u) && Next(u, op).Some?
      ensures Inv(Next(u, op).value)
    {
      NextInv(u, op);
    }
    Preserved(Next, Inv, p, ops);
  }

  lemma RunConstants(p: Pool, ops: seq<Op>, p': Pool)
    requires Reaches(Next, p, ops, p')
    ensures p'.blockSize == p.blockSize && p'.numBlocks == p.numBlocks && |p'.bytes| == |p.bytes|
    decreases |ops|
  {
    if ops != [] {
      RunConstants(p, ops[..|ops| - 1], Exec(Next, p, ops[..|ops| - 1]).value);
    }
  }

  /** Different blocks have no byte in common. */
  lemma BlocksApart(p: Pool, a: nat, b: nat)
    requires IsBlock(p, a) && IsBlock(p, b) && a != b
    ensures a + p.blockSize <= b || b + p.blockSize <= a
  {
    var i: nat :| i < p.numBlocks && a == i * p.blockSize;
    var j: nat :| j < p.numBlocks && b == j * p.blockSize;
    if i < j {
      BlocksOrdered(p.blockSize, i, j);
    } else if j < i {
      BlocksOrdered(p.blockSize, j, i);
    }
  }

  lemma BlockInBounds(p: Pool, b: nat)
    requires IsBlock(p, b)
    ensures b + p.blockSize <= p.blockSize * p.numBlocks
  {
    var i: nat :| i < p.numBlocks && b == i * p.blockSize;
    BlockBound(p.blockSize, p.numBlocks, i);
  }

  /** After any sequence of allocations, deallocations and writes: every live block
      is a whole block of the buffer, live blocks never overlap, live and free blocks
      add up, and the next allocation returns a block that is not in use, or null
      exactly when all the blocks are live. */
  lemma PoolSafety(blockSize: nat, numBlocks: nat, ops: seq<Op>, p: Pool)
    requires Fits(blockSize, numBlocks) && Reaches(Next, Init(blockSize, numBlocks), ops, p)
    ensures forall b :: b in p.live ==> b % blockSize == 0 && b + blockSize <= |p.bytes| == blockSize * numBlocks
    ensures forall a, b :: a in p.live && b in p.live && a != b ==> a + blockSize <= b || b + blockSize <= a
    ensures |p.free| + |p.live| == numBlocks
    ensures Allocated(p).None? <==> |p.live| == numBlocks
    ensures Allocated(p).Some? ==> Allocated(p).value !in p.live && IsBlock(p, Allocated(p).value)
  {
    InitInv(blockSize, numBlocks);
    RunInv(Init(blockSize, numBlocks), ops, p);
    RunConstants(Init(blockSize, numBlocks), ops, p);
    forall b | b in p.live
      ensures b % blockSize == 0 && b + blockSize <= blockSize * numBlocks
    {
      assert IsBlock(p, b);
      BlockInBounds(p, b);
      var i: nat :| i < p.numBlocks && b == i * p.blockSize;
      QuotientUnique(blockSize, i, 0);
    }
    forall a, b | a in p.live && b in p.live && a != b
      ensures a + blockSize <= b || b + blockSize <= a
    {
      BlocksApart(p, a, b);
    }
  }

  // ---- The order in which a new pool hands out its blocks ----

  /** The blocks numbered from `from` on. */
  function BlocksFrom(blockSize: nat, numBlocks: nat, from: nat): set<nat> {
    set i: nat | from <= i < numBlocks :: i * blockSize
  }

  lemma OneBlockMore(blockSize: nat, numBlocks: nat, from: nat)
    requires from < numBlocks
    ensures BlocksFrom(blockSize, numBlocks, from) == BlocksFrom(blockSize, numBlocks, from + 1) + {from * blockSize}
  {
    var all, rest := BlocksFrom(blockSize, numBlocks, from), BlocksFrom(blockSize, numBlocks, from + 1);
    forall b | b in all
      ensures b in rest + {from * blockSize}
    {
      var i: nat :| from <= i < numBlocks && b == i * blockSize;
      if i > from {
        assert from + 1 <= i < numBlocks;
      }
    }
  }

  /** A new pool hands out its blocks from the last one down, and null when all are out;
      all bytes are zero, and the blocks handed out so far are exactly the upper ones. */
  lemma {:induction false} LastBlockFirst(blockSize: nat, numBlocks: nat, k: nat)
    requires Fits(blockSize, numBlocks) && k <= numBlocks
    ensures var last := Exec(Next, Init(blockSize, numBlocks), seq(k, _ => Allocate));
            && last.Some? && last.value.bytes == seq(blockSize * numBlocks, _ => 0)
            && last.value.free == Blocks(blockSize, numBlocks)[..numBlocks - k]
            && last.value.live == BlocksFrom(blockSize, numBlocks, numBlocks - k)
            && Allocated(last.value) == if k == numBlocks then None else Some((numBlocks - 1 - k) * blockSize)
    decreases k
  {
    var ops: seq<Op> := seq(k, _ => Allocate);
    if k > 0 {
      LastBlockFirst(blockSize, numBlocks, k - 1);
      assert ops[..k - 1] == seq(k - 1, _ => Allocate);
      OneBlockMore(blockSize, numBlocks, numBlocks - k);
      BlockAt(blockSize, numBlocks, numBlocks - k);
    }
    if k < numBlocks {
      BlockAt(blockSize, numBlocks, numBlocks - 1 - k);
    }
  }

  // ---- What one operation undoes ----

  /** Giving a block straight back restores the pool, free list and all. */
  lemma DeallocateUndoesAllocate(p: Pool)
    requires Inv(p) && p.free != []
    ensures var b := Allocated(p).value;
            Next(Next(p, Allocate).value, Deallocate(b)) == Some(p)
  {
    var n := |p.free| - 1;
    assert p.free[..n] + [p.free[n]] == p.free;
    assert p.free[n] in p.free;
    assert p.live + {p.free[n]} - {p.free[n]} == p.live;
  }

  /** The block given back last is the next one handed out. */
  lemma AllocateUndoesDeallocate(p: Pool, b: nat)
    requires b in p.live
    ensures var q := Next(p, Deallocate(b)).value;
            Allocated(q) == Some(b) && Next(q, Allocate) == Some(p)
  {
    var q := Next(p, Deallocate(b)).value;
    assert q.free[..|q.free| - 1] == p.free;
    assert p.live - {b} + {b} == p.live;
  }

  // ---- The contents of a block ----

  function Contents(p: Pool, b: nat): seq<byte>
    requires b + p.blockSize <= |p.bytes|
  {
    p.bytes[b..b + p.blockSize]
  }

  /** The contents its holder has written into block b, by the writes to b alone. */
  function OwnWrites(contents: seq<byte>, ops: seq<Op>, b: nat): seq<byte>
    ensures |OwnWrites(contents, ops, b)| == |contents|
  {
    if ops == [] then contents else
    var before := OwnWrites(contents, ops[..|ops| - 1], b);
    var op := ops[|ops| - 1];
    if op.Write? && op.block == b && op.offset < |before| then before[op.offset := op.value] else before
  }

  lemma NextContents(p: Pool, op: Op, b: nat)
    requires Inv(p) && Next(p, op).Some? && b in p.live && op != Deallocate(b)
    ensures b in Next(p, op).value.live && b + p.blockSize <= |p.bytes|
    ensures Contents(Next(p, op).value, b) == OwnWrites(Contents(p, b), [op], b)
  {
    var p' := Next(p, op).value;
    assert IsBlock(p, b);
    BlockInBounds(p, b);
    assert OwnWrites(Contents(p, b), [], b) == Contents(p, b);
    assert [op][..0] == [];
    if op.Write? {
      assert IsBlock(p, op.block);
      if op.block != b {
        BlocksApart(p, op.block, b);
      }
    }
  }

  /** As long as a block is not given back, its contents depend on the writes to that
      block alone: no allocation, deallocation or write through another block shows. */
  lemma {:induction false} ContentsPrivate(p: Pool, ops: seq<Op>, b: nat, p': Pool)
    requires Inv(p) && Reaches(Next, p, ops, p') && b in p.live && Deallocate(b) !in ops
    ensures b in p'.live && b + p.blockSize <= |p.bytes| == |p'.bytes| && p'.blockSize == p.blockSize
    ensures Contents(p', b) == OwnWrites(Contents(p, b), ops, b)
    decreases |ops|
  {
    RunConstants(p, ops, p');
    assert IsBlock(p, b);
    BlockInBounds(p, b);
    if ops != [] {
      var init, op := ops[..|ops| - 1], ops[|ops| - 1];
      var mid := Exec(Next, p, init).value;
      ContentsPrivate(p, init, b, mid);
      RunInv(p, init, mid);
      RunConstants(p, init, mid);
      NextContents(mid, op, b);
      assert [op][..0] == [];
    }
  }

  /** In particular, a block nobody writes to or gives back keeps its bytes. */
  lemma {:induction false} ContentsKept(p: Pool, ops: seq<Op>, b: nat, p': Pool)
    requires Inv(p) && Reaches(Next, p, ops, p') && b in p.live
    requires forall op :: op in ops ==> op != Deallocate(b) && !(op.Write? && op.block == b)
    ensures b + p.blockSize <= |p.bytes| == |p'.bytes| && p'.blockSize == p.blockSize
    ensures Contents(p', b) == Contents(p, b)
  {
    ContentsPrivate(p, ops, b, p');
    NoOwnWrites(Contents(p, b), ops, b);
  }

  lemma {:induction false} NoOwnWrites(contents: seq<byte>, ops: seq<Op>, b: nat)
    requires forall op :: op in ops ==> !(op.Write? && op.block == b)
    ensures OwnWrites(contents, ops, b) == contents
    decreases |ops|
  {
    if ops != [] {
      NoOwnWrites(contents, ops[..|ops| - 1], b);
    }
  }

  // ---- The pool object ----

  class FixedPool {
    const blockSize: nat
    const numBlocks: nat
    const pool: array<byte>
    var freeList: seq<nat>
    ghost var live: set<nat>

    ghost function Value(): Pool
      reads this, pool
    {
      Pool(blockSize, numBlocks, pool[..], freeList, live)
    }

    constructor (blockSize: nat, numBlocks: nat)
      requires Fits(blockSize, numBlocks)
      ensures Value() == Init(blockSize, numBlocks) && Inv(Value())
      ensures fresh(pool) && pool.Length == blockSize * numBlocks
      ensures forall i :: 0 <= i < pool.Length ==> pool[i] == 0
      ensures |freeList| == numBlocks && live == {}
      ensures forall i :: 0 <= i < numBlocks ==> freeList[i] == i * blockSize
    {
      this.blockSize, this.numBlocks := blockSize, numBlocks;
      pool := new byte[blockSize * numBlocks](_ => 0);
      freeList, live := [], {};
      new;
      var i := 0;
      while i < numBlocks
        invariant 0 <= i <= numBlocks
        invariant freeList == Blocks(blockSize, i)
        modifies this`freeList
      {
        BlockBound(blockSize, numBlocks, i);
        freeList := freeList + [i * blockSize];
        i := i + 1;
      }
      assert pool[..] == Init(blockSize, numBlocks).bytes;
      InitInv(blockSize, numBlocks);
      forall k | 0 <= k < numBlocks
        ensures freeList[k] == k * blockSize
      {
        BlockAt(blockSize, numBlocks, k);
      }
    }

    method AllocateBlock() returns (block: Option<nat>)
      requires Inv(Value())
      modifies this`freeList, this`live
      ensures block == Allocated(old(Value()))
      ensures Next(old(Value()), Allocate) == Some(Value()) && Inv(Value())
    {
      ghost var p := Value();
      if freeList == [] {
        block := None;
      } else {
        var n := |freeList| - 1;
        block := Some(freeList[n]);
        freeList, live := freeList[..n], live + {freeList[n]};
      }
      NextInv(p, Allocate);
    }

    method DeallocateBlock(block: nat)
      requires Inv(Value()) && block in live
      modifies this`freeList, this`live
      ensures Next(old(Value()), Deallocate(block)) == Some(Value()) && Inv(Value())
    {
      ghost var p := Value();
      freeList, live := freeList + [block], live - {block};
      NextInv(p, Deallocate(block));
    }

    /** A holder writes one byte into its block. */
    method WriteByte(block: nat, offset: nat, value: byte)
      requires Inv(Value()) && block in live && offset < blockSize
      modifies pool
      ensures Next(old(Value()), Write(block, offset, value)) == Some(Value()) && Inv(Value())
      ensures block + offset < pool.Length && pool[..] == old(pool[..])[block + offset := value]
    {
      ghost var p := Value();
      assert IsBlock(p, block);
      BlockInBounds(p, block);
      pool[block + offset] := value;
      assert pool[..] == p.bytes[block + offset := value];
      NextInv(p, Write(block, offset, value));
    }
  }
}
