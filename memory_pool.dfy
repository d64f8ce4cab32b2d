// MemoryPool (memory_pool.cpp): a fixed pool of numBlocks blocks of
// blockSize bytes handed out from a LIFO free list. A pointer into the pool
// is modelled as its byte offset from the start of the pool; a pointer that
// lies outside the pool is any offset outside [0, blockSize * numBlocks),
// and nullptr is None.
module MemoryPool {
  import opened Common

  /** The starts of the first n blocks, in construction order. */
  function BlockStarts(n: nat, blockSize: nat): (s: seq<int>)
    ensures |s| == n && forall i :: 0 <= i < n ==> s[i] == i * blockSize
  {
    seq(n, i => i * blockSize)
  }

  /** What allocate returns for a free list: its last entry, or nullptr when it is empty. */
  function Allocation(free: seq<int>): Option<int>
  {
    if |free| == 0 then None else Some(free[|free| - 1])
  }

  /** The free list after allocate. */
  function AfterAllocate(free: seq<int>): seq<int>
  {
    if |free| == 0 then free else free[..|free| - 1]
  }

  /** The free list after deallocate: only a pointer inside the pool is taken back. */
  function AfterDeallocate(free: seq<int>, ptr: int, poolSize: nat): seq<int>
  {
    if 0 <= ptr < poolSize then free + [ptr] else free
  }

  /** Giving back the block just handed out restores the free list exactly. */
  lemma AllocateThenDeallocate(free: seq<int>, poolSize: nat)
    requires |free| > 0 && 0 <= free[|free| - 1] < poolSize
    ensures Allocation(free).Some?
    ensures AfterDeallocate(AfterAllocate(free), Allocation(free).value, poolSize) == free
  {
    assert free[..|free| - 1] + [free[|free| - 1]] == free;
  }

  /** The list is LIFO: the block given back last is the next one handed out. */
  lemma DeallocateThenAllocate(free: seq<int>, ptr: int, poolSize: nat)
    requires 0 <= ptr < poolSize
    ensures Allocation(AfterDeallocate(free, ptr, poolSize)) == Some(ptr)
    ensures AfterAllocate(AfterDeallocate(free, ptr, poolSize)) == free
  {
    assert (free + [ptr])[..|free|] == free;
  }

  /** Block starts are distinct, aligned and inside the pool when blocks have a size. */
  lemma {:induction false} BlockStartsInPool(n: nat, blockSize: nat)
    requires blockSize > 0
    ensures forall i :: 0 <= i < n ==> 0 <= BlockStarts(n, blockSize)[i] < n * blockSize
    ensures forall i, j :: 0 <= i < j < n ==> BlockStarts(n, blockSize)[i] < BlockStarts(n, blockSize)[j]
    ensures forall i :: 0 <= i < n ==> BlockStarts(n, blockSize)[i] % blockSize == 0
  {
    var s := BlockStarts(n, blockSize);
    forall i | 0 <= i < n ensures 0 <= s[i] < n * blockSize {
      MulStrict(i, n, blockSize);
    }
    forall i, j | 0 <= i < j < n ensures s[i] < s[j] {
      MulStrict(i, j, blockSize);
    }
    forall i | 0 <= i < n ensures s[i] % blockSize == 0 {
      DivModUnique(i * blockSize, blockSize, i, 0);
    }
  }

  lemma MulStrict(i: nat, j: nat, b: nat)
    requires i < j && b > 0
    ensures i * b < j * b
  {
    assert j * b == i * b + (j - i) * b;
  }

  /** deallocate checks the range only: a block given back twice is listed twice. */
  lemma DoubleFreeGrowsList(n: nat, blockSize: nat)
    requires n >= 1 && blockSize >= 1
    ensures |AfterDeallocate(BlockStarts(n, blockSize), 0, n * blockSize)| == n + 1
  {
    assert 0 < n * blockSize by { MulStrict(0, n, blockSize); }
  }

  class MemoryPool {
    const blockSize: nat
    const numBlocks: nat
    /** m_pool.size(). */
    const poolSize: nat
    /** m_freeBlocks, as offsets into the pool. */
    var freeBlocks: seq<int>

    /** Every free entry lies in the pool, or is the start 0 of a zero-sized block. */
    ghost predicate Valid()
      reads this
    {
      poolSize == blockSize * numBlocks
      && forall i :: 0 <= i < |freeBlocks| ==> 0 <= freeBlocks[i] < poolSize || (blockSize == 0 && freeBlocks[i] == 0)
    }

    constructor (blockSize: nat, numBlocks: nat)
      ensures Valid() && this.blockSize == blockSize && this.numBlocks == numBlocks
      ensures freeBlocks == BlockStarts(numBlocks, blockSize)
    {
      this.blockSize := blockSize;
      this.numBlocks := numBlocks;
      poolSize := blockSize * numBlocks;
      new;
      Refill();
    }

    /** The loop shared by the constructor and reset: push every block start in order. */
    method Refill()
      requires poolSize == blockSize * numBlocks
      modifies this`freeBlocks
      ensures Valid() && freeBlocks == BlockStarts(numBlocks, blockSize)
    {
      freeBlocks := [];
      var i := 0;
      while i < numBlocks
        invariant 0 <= i <= numBlocks
        invariant freeBlocks == BlockStarts(i, blockSize)
      {
        assert BlockStarts(i + 1, blockSize) == BlockStarts(i, blockSize) + [i * blockSize];
        freeBlocks := freeBlocks + [i * blockSize];
        i := i + 1;
      }
      if blockSize > 0 {
        BlockStartsInPool(numBlocks, blockSize);
      }
    }

    method Allocate() returns (block: Option<int>)
      requires Valid()
      modifies this`freeBlocks
      ensures Valid()
      ensures block == Allocation(old(freeBlocks)) && freeBlocks == AfterAllocate(old(freeBlocks))
      ensures block.None? <==> |old(freeBlocks)| == 0
      ensures block.Some? ==> |freeBlocks| == |old(freeBlocks)| - 1
    {
      if |freeBlocks| == 0 {
        return None;
      }
      block := Some(freeBlocks[|freeBlocks| - 1]);
      freeBlocks := freeBlocks[..|freeBlocks| - 1];
    }

    method Deallocate(ptr: int)
      requires Valid()
      modifies this`freeBlocks
      ensures Valid()
      ensures freeBlocks == AfterDeallocate(old(freeBlocks), ptr, poolSize)
    {
      if 0 <= ptr && ptr < poolSize {
        freeBlocks := freeBlocks + [ptr];
      }
    }

    method Reset()
      requires Valid()
      modifies this`freeBlocks
      ensures Valid() && freeBlocks == BlockStarts(numBlocks, blockSize)
    {
      Refill();
    }

    method GetBlockSize() returns (r: nat)
      ensures r == blockSize
    {
      return blockSize;
    }

    method GetTotalBlocks() returns (r: nat)
      ensures r == numBlocks
    {
      return numBlocks;
    }

    method GetFreeBlocks() returns (r: nat)
      ensures r == |freeBlocks|
    {
      return |freeBlocks|;
    }
  }
}
