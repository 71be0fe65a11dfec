/** The memory behind PoolBuffer's blocks, and the operations that copy into and out of it. */
module PoolMemory {
  import opened PoolBuffers

  /** Block i of a pool of `count` blocks of `padded` bytes each. */
  function Slice(raw: seq<bv8>, padded: nat, count: nat, i: nat): (s: seq<bv8>)
    requires |raw| == padded * count && i < count
    ensures |s| == padded
  {
    SliceBounds(padded, count, i);
    raw[i * padded..i * padded + padded]
  }

  lemma SliceBounds(padded: nat, count: nat, i: nat)
    requires i < count
    ensures i * padded + padded <= padded * count
  {
    Ordered(i + 1, count, padded);
  }

  /** The memory with `bytes` written at the start of block b. */
  function Patched(raw: seq<bv8>, padded: nat, count: nat, b: nat, bytes: seq<bv8>): (r: seq<bv8>)
    requires |raw| == padded * count && b < count && |bytes| <= padded
    ensures |r| == |raw|
  {
    SliceBounds(padded, count, b);
    raw[..b * padded] + bytes + raw[b * padded + |bytes|..]
  }

  lemma PatchedElsewhere(raw: seq<bv8>, start: nat, bytes: seq<bv8>, other: nat, padded: nat)
    requires start + padded <= |raw| && other + padded <= |raw| && |bytes| <= padded
    requires start + padded <= other || other + padded <= start
    ensures (raw[..start] + bytes + raw[start + |bytes|..])[other..other + padded] == raw[other..other + padded]
  {
    var patched := raw[..start] + bytes + raw[start + |bytes|..];
    forall k | other <= k < other + padded
      ensures patched[k] == raw[k]
    {
    }
  }

  lemma PatchedHere(raw: seq<bv8>, start: nat, bytes: seq<bv8>, padded: nat)
    requires start + padded <= |raw| && |bytes| <= padded
    ensures (raw[..start] + bytes + raw[start + |bytes|..])[start..start + padded]
            == bytes + raw[start..start + padded][|bytes|..]
  {
    var before, tail, rest := raw[..start], raw[start + |bytes|..], padded - |bytes|;
    assert (before + bytes + tail)[start..] == bytes + tail;
    assert (before + bytes + tail)[start..start + padded] == bytes + tail[..rest];
    assert raw[start..start + padded][|bytes|..] == tail[..rest];
  }

  /** Writing inside one block changes nothing behind the written bytes and no other block. */
  lemma PatchIsLocal(raw: seq<bv8>, padded: nat, count: nat, b: nat, bytes: seq<bv8>, i: nat)
    requires |raw| == padded * count && b < count && |bytes| <= padded && i < count
    ensures Slice(Patched(raw, padded, count, b, bytes), padded, count, i)
            == if i == b then bytes + Slice(raw, padded, count, b)[|bytes|..] else Slice(raw, padded, count, i)
  {
    SliceBounds(padded, count, b);
    SliceBounds(padded, count, i);
    var start, other := b * padded, i * padded;
    if i == b {
      PatchedHere(raw, start, bytes, padded);
    } else if i < b {
      Ordered(i + 1, b, padded);
      assert other + padded == (i + 1) * padded;
      PatchedElsewhere(raw, start, bytes, other, padded);
    } else {
      Ordered(b + 1, i, padded);
      assert start + padded == (b + 1) * padded;
      PatchedElsewhere(raw, start, bytes, other, padded);
    }
  }

  /** The first `sizes[i]` bytes of every block i. */
  function StoredBytes(raw: seq<bv8>, padded: nat, count: nat, sizes: seq<nat>): (s: seq<seq<bv8>>)
    requires |raw| == padded * count && |sizes| == count
    requires forall i | 0 <= i < count :: sizes[i] <= padded
    ensures |s| == count
  {
    seq(count, i requires 0 <= i < count => Slice(raw, padded, count, i)[..sizes[i]])
  }

  lemma FillEffect(raw: seq<bv8>, padded: nat, count: nat, b: nat, bytes: seq<bv8>, sizes: seq<nat>)
    requires |raw| == padded * count && |sizes| == count && b < count && |bytes| <= padded
    requires forall i | 0 <= i < count :: sizes[i] <= padded
    ensures StoredBytes(Patched(raw, padded, count, b, bytes), padded, count, sizes[b := |bytes|])
            == StoredBytes(raw, padded, count, sizes)[b := bytes]
  {
    forall i | 0 <= i < count
      ensures Slice(Patched(raw, padded, count, b, bytes), padded, count, i)
           == if i == b then bytes + Slice(raw, padded, count, b)[|bytes|..] else Slice(raw, padded, count, i)
    {
      PatchIsLocal(raw, padded, count, b, bytes, i);
    }
  }

  lemma CommonPrefix(block: seq<bv8>, length: nat, size: nat)
    requires length <= |block| && size <= |block|
    ensures block[..length][..Min(length, size)] == block[..size][..Min(length, size)]
  {
  }

  lemma RedzoneKept(before: seq<bv8>, after: seq<bv8>, written: nat, margin: nat)
    requires |before| == |after| && written + margin <= |before| && before[written..] == after[written..]
    ensures before[|before| - margin..] == after[|after| - margin..]
  {
    assert before[|before| - margin..] == before[written..][|before| - margin - written..];
  }

  predicate GuardedAt(raw: seq<bv8>, padded: nat, count: nat, i: nat)
    requires |raw| == padded * count && REDZONE_SIZE <= padded && i < count
  {
    Slice(raw, padded, count, i)[padded - REDZONE_SIZE..] == REDZONE
  }

  /** Every block ends in its red zone. */
  ghost predicate Guarded(raw: seq<bv8>, padded: nat, count: nat)
    requires |raw| == padded * count && REDZONE_SIZE <= padded
  {
    forall i | 0 <= i < count :: GuardedAt(raw, padded, count, i)
  }

  /** A patch that ends before the red zones leaves them all as they are. */
  lemma {:induction false} PatchKeepsGuard(raw: seq<bv8>, padded: nat, count: nat, b: nat, bytes: seq<bv8>)
    requires |raw| == padded * count && b < count && |bytes| + REDZONE_SIZE <= padded
    requires Guarded(raw, padded, count)
    ensures Guarded(Patched(raw, padded, count, b, bytes), padded, count)
  {
    var patched := Patched(raw, padded, count, b, bytes);
    forall i | 0 <= i < count
      ensures GuardedAt(patched, padded, count, i)
    {
      assert GuardedAt(raw, padded, count, i);
      PatchIsLocal(raw, padded, count, b, bytes, i);
      RedzoneKept(Slice(raw, padded, count, i), Slice(patched, padded, count, i), |bytes|, REDZONE_SIZE);
    }
  }

  /** The stored bytes of the blocks named in `ids`, in that order. */
  function Pick(stored: seq<seq<bv8>>, ids: seq<nat>): (r: seq<seq<bv8>>)
    ensures |r| == |ids|
  {
    seq(|ids|, k requires 0 <= k < |ids| => if ids[k] < |stored| then stored[ids[k]] else [])
  }

  lemma PickAppend(stored: seq<seq<bv8>>, ids: seq<nat>, b: nat)
    requires b < |stored|
    ensures Pick(stored, ids + [b]) == Pick(stored, ids) + [stored[b]]
  {
  }

  lemma PickElsewhere(stored: seq<seq<bv8>>, ids: seq<nat>, b: nat, bytes: seq<bv8>)
    requires b < |stored| && b !in ids
    ensures Pick(stored[b := bytes], ids) == Pick(stored, ids)
  {
  }

  lemma PickTail(stored: seq<seq<bv8>>, ids: seq<nat>)
    requires ids != [] && ids[0] < |stored|
    ensures Pick(stored, ids)[1..] == Pick(stored, ids[1..])
  {
  }

  datatype Transfer = LengthError | Transferred(size: nat)

  class PoolBuffer {
    var raw: array<bv8>
    var blockCount: nat
    var blockSize: nat
    var paddedSize: nat
    var poolBufferSize: nat
    var enableRedzones: bool
    var dataSize: seq<nat>
    var pool: Pool
    var totalBytesRead: nat
    var totalBlocksRead: nat
    var totalBytesWritten: nat
    var totalBlocksWritten: nat

    ghost predicate Valid()
      reads `raw, `paddedSize, `blockCount, `poolBufferSize, `blockSize, `enableRedzones, `dataSize, raw, `pool
    {
      && MemoryValid()
      && BlocksUnique(pool, blockCount)
    }

    ghost predicate MemoryValid()
      reads `raw, `paddedSize, `blockCount, `poolBufferSize, `blockSize, `enableRedzones, `dataSize, raw
    {
      && raw.Length == paddedSize * blockCount == poolBufferSize
      && blockSize + Margin(enableRedzones) <= paddedSize
      && |dataSize| == blockCount
      && (forall i | 0 <= i < blockCount :: dataSize[i] <= blockSize)
      && (enableRedzones ==> Guarded(raw[..], paddedSize, blockCount))
    }

    ghost function Block(i: nat): (s: seq<bv8>)
      requires raw.Length == paddedSize * blockCount && i < blockCount
      reads `raw, `paddedSize, `blockCount, raw
      ensures |s| == paddedSize
    {
      Slice(raw[..], paddedSize, blockCount, i)
    }

    /** The bytes last stored in each block. */
    ghost function Stored(): (s: seq<seq<bv8>>)
      requires MemoryValid()
      reads `raw, `paddedSize, `blockCount, `poolBufferSize, `blockSize, `enableRedzones, `dataSize, raw
      ensures |s| == blockCount
    {
      StoredBytes(raw[..], paddedSize, blockCount, dataSize)
    }

    /** What the active queue holds, oldest first. */
    ghost function Contents(): (c: seq<seq<bv8>>)
      requires Valid()
      reads `raw, `paddedSize, `blockCount, `poolBufferSize, `blockSize, `enableRedzones, `dataSize, raw, `pool
      ensures |c| == |pool.active|
    {
      Pick(Stored(), pool.active)
    }

    constructor ()
      ensures poolBufferSize == 0 && fresh(raw)
    {
      raw := new bv8[0];
      blockCount, blockSize, paddedSize, poolBufferSize, enableRedzones := 0, 0, 0, 0, false;
      dataSize, pool := [], Pool([], [], 0, 0);
      totalBytesRead, totalBlocksRead, totalBytesWritten, totalBlocksWritten := 0, 0, 0, 0;
    }

    /** allocate: on success the pool is as large as announced and all its blocks are free. */
    method Allocate(size: nat, poolSize: nat, redzones: bool) returns (r: AllocateResult)
      requires size < SIZE_LIMIT
      modifies this
      ensures r == AllocateOutcome(old(poolBufferSize), size, poolSize, redzones)
      ensures r.Allocated? ==> poolBufferSize == r.poolBufferSize && fresh(raw) && pool == FreshPool(blockCount)
      ensures r.Allocated? ==>
                && blockSize == size && enableRedzones == redzones && paddedSize == PaddedSize(size, redzones)
                && paddedSize > 0 && blockCount == poolSize / paddedSize
      ensures r.Reallocation? || r.InvalidPoolSize? ==>
                pool == old(pool) && poolBufferSize == old(poolBufferSize) && raw == old(raw)
                && blockSize == old(blockSize) && blockCount == old(blockCount) && dataSize == old(dataSize)
      ensures r.Allocated? && size + Margin(redzones) < SIZE_LIMIT ==> Valid() && Contents() == []
    {
      r := AllocateOutcome(poolBufferSize, size, poolSize, redzones);
      if !r.Allocated? {
        return;
      }
      AcceptedGeometry(size, poolSize, redzones);
      BlockFitsUnlessWrapped(size, poolSize, redzones);
      var padded := PaddedSize(size, redzones);
      SetUp(size, redzones, padded, poolSize / padded, r.poolBufferSize);
    }

    /** The pool of an accepted request, all bytes 42 but the red zones. */
    method SetUp(size: nat, redzones: bool, padded: nat, count: nat, total: nat)
      requires total == padded * count && (redzones ==> REDZONE_SIZE <= padded)
      modifies this
      ensures poolBufferSize == total && fresh(raw) && blockCount == count && pool == FreshPool(count)
      ensures blockSize == size && enableRedzones == redzones && paddedSize == padded
      ensures size + Margin(redzones) <= padded ==> Valid() && Contents() == []
    {
      enableRedzones, blockSize, paddedSize, blockCount, poolBufferSize := redzones, size, padded, count, total;
      raw := new bv8[total](_ => 42);
      dataSize := seq(count, _ => 0);
      pool := FreshPool(count);
      FreshBlocksUnique(count);
      if redzones {
        StampRedzones();
      }
    }

    method StampRedzones()
      requires raw.Length == paddedSize * blockCount && REDZONE_SIZE <= paddedSize
      modifies raw
      ensures Guarded(raw[..], paddedSize, blockCount)
    {
      for i := 0 to blockCount
        invariant forall j | 0 <= j < i :: GuardedAt(raw[..], paddedSize, blockCount, j)
      {
        ghost var before := raw[..];
        StampRedzone(i);
        forall j | 0 <= j < i
          ensures GuardedAt(raw[..], paddedSize, blockCount, j)
        {
          assert GuardedAt(before, paddedSize, blockCount, j) && Block(j) == Slice(before, paddedSize, blockCount, j);
        }
      }
    }

    method StampRedzone(i: nat)
      requires raw.Length == paddedSize * blockCount && i < blockCount && REDZONE_SIZE <= paddedSize
      modifies raw
      ensures Block(i)[paddedSize - REDZONE_SIZE..] == REDZONE
      ensures forall j | 0 <= j < blockCount && j != i :: Block(j) == old(Block(j))
    {
      ghost var was := raw[..];
      ghost var bytes := Slice(was, paddedSize, blockCount, i)[..paddedSize - REDZONE_SIZE] + REDZONE;
      SliceBounds(paddedSize, blockCount, i);
      var start := i * paddedSize + paddedSize - REDZONE_SIZE;
      forall k | 0 <= k < REDZONE_SIZE {
        raw[start + k] := REDZONE[k];
      }
      assert raw[..] == Patched(was, paddedSize, blockCount, i, bytes);
      forall j | 0 <= j < blockCount
        ensures Block(j) == if j == i then bytes else Slice(was, paddedSize, blockCount, j)
      {
        PatchIsLocal(was, paddedSize, blockCount, i, bytes, j);
      }
    }

    method TakeFreeBlock() returns (block: Option<nat>)
      requires Valid()
      modifies `pool
      ensures Valid() && (pool, block) == old(pool).TakeFree()
      ensures block.Some? ==> block.value < blockCount && block.value !in pool.Blocks()
      ensures Contents() == old(Contents())
    {
      TakeFreeMovesBlock(pool);
      block := pool.TakeFree().1;
      if block.Some? {
        UniqueWithout(pool, pool.TakeFree().0, blockCount, block.value);
      }
      pool := pool.TakeFree().0;
    }

    method TakeActiveBlock() returns (block: Option<nat>)
      requires Valid()
      modifies `pool
      ensures Valid() && (pool, block) == old(pool).TakeActive()
      ensures block.Some? ==> block.value < blockCount && block.value !in pool.Blocks()
      ensures block.Some? ==> Contents() == old(Contents())[1..] && Stored()[block.value] == old(Contents())[0]
      ensures block.None? ==> Contents() == old(Contents())
    {
      TakeActiveMovesBlock(pool);
      block := pool.TakeActive().1;
      if block.Some? {
        UniqueWithout(pool, pool.TakeActive().0, blockCount, block.value);
        PickTail(Stored(), pool.active);
      }
      pool := pool.TakeActive().0;
    }

    method ReturnFreeBlock(b: nat)
      requires Valid() && b < blockCount && b !in pool.Blocks()
      modifies `pool, `dataSize
      ensures Valid() && pool == old(pool).ReturnFree(b)
      ensures Stored() == old(Stored())[b := []]
      ensures Contents() == old(Contents())
    {
      ReturnMovesBlock(pool, b);
      UniqueWith(pool, pool.ReturnFree(b), blockCount, b);
      PickElsewhere(Stored(), pool.active, b, []);
      dataSize := dataSize[b := 0];
      assert Stored() == old(Stored())[b := []];
      pool := pool.ReturnFree(b);
    }

    method ReturnActiveBlock(b: nat)
      requires Valid() && b < blockCount && b !in pool.Blocks()
      modifies `pool
      ensures Valid() && pool == old(pool).ReturnActive(b)
      ensures Contents() == old(Contents()) + [Stored()[b]]
    {
      ReturnMovesBlock(pool, b);
      UniqueWith(pool, pool.ReturnActive(b), blockCount, b);
      PickAppend(Stored(), pool.active, b);
      pool := pool.ReturnActive(b);
    }

    /** Filling a block that a thread holds: no other block and no red zone changes. */
    method Fill(b: nat, bytes: seq<bv8>)
      requires Valid() && b < blockCount && b !in pool.Blocks() && |bytes| <= blockSize
      modifies `dataSize, raw
      ensures Valid() && Stored() == old(Stored())[b := bytes]
      ensures Contents() == old(Contents())
    {
      PickElsewhere(Stored(), pool.active, b, bytes);
      FillMemory(b, bytes);
    }

    method FillMemory(b: nat, bytes: seq<bv8>)
      requires MemoryValid() && b < blockCount && |bytes| <= blockSize
      modifies `dataSize, raw
      ensures MemoryValid() && Stored() == old(Stored())[b := bytes]
    {
      ghost var before := raw[..];
      FillEffect(before, paddedSize, blockCount, b, bytes, dataSize);
      CopyIn(b, bytes);
      dataSize := dataSize[b := |bytes|];
      if enableRedzones {
        PatchKeepsGuard(before, paddedSize, blockCount, b, bytes);
      }
    }

    method CopyIn(b: nat, bytes: seq<bv8>)
      requires raw.Length == paddedSize * blockCount && b < blockCount && |bytes| <= paddedSize
      modifies raw
      ensures raw[..] == Patched(old(raw[..]), paddedSize, blockCount, b, bytes)
    {
      SliceBounds(paddedSize, blockCount, b);
      var start := b * paddedSize;
      forall k | 0 <= k < |bytes| {
        raw[start + k] := bytes[k];
      }
    }

    method BlockBytes(b: nat) returns (block: seq<bv8>)
      requires raw.Length == paddedSize * blockCount && b < blockCount
      ensures block == Block(b)
    {
      SliceBounds(paddedSize, blockCount, b);
      var start: int := b * paddedSize;
      block := raw[start..start + paddedSize];
    }

    method VerifyRedzone(b: nat) returns (intact: bool)
      requires raw.Length == paddedSize * blockCount && b < blockCount && REDZONE_SIZE <= paddedSize
      ensures intact <==> Block(b)[paddedSize - REDZONE_SIZE..] == REDZONE
    {
      var block := BlockBytes(b);
      intact := block[paddedSize - REDZONE_SIZE..] == REDZONE;
    }

    /** write: queues the bytes behind everything already queued, or reports a full pool as 0. */
    method Write(range: seq<bv8>) returns (r: Transfer)
      requires Valid()
      modifies `dataSize, `pool, `totalBytesWritten, `totalBlocksWritten, raw
      ensures Valid() && pool.Blocks() == old(pool.Blocks())
      ensures |range| > blockSize <==> r.LengthError?
      ensures |range| <= blockSize && |old(pool.free)| == 0 ==> r == Transferred(0)
      ensures |range| <= blockSize && |old(pool.free)| > 0 ==>
                r == Transferred(|range|) && Contents() == old(Contents()) + [range]
      ensures |range| <= blockSize && |old(pool.free)| > 0 ==>
                var block := old(pool.free)[|old(pool.free)| - 1];
                && pool.free == old(pool.free)[..|old(pool.free)| - 1] && pool.active == old(pool.active) + [block]
                && block < old(blockCount) && Stored() == old(Stored())[block := range]
      ensures |range| > blockSize || |old(pool.free)| == 0 ==>
                pool == old(pool) && Stored() == old(Stored()) && Contents() == old(Contents())
      ensures var written := |range| <= blockSize && |old(pool.free)| > 0;
              && totalBytesWritten == old(totalBytesWritten) + (if written then |range| else 0)
              && totalBlocksWritten == old(totalBlocksWritten) + if written then 1 else 0
    {
      if |range| > blockSize {
        return LengthError;
      }
      var block := TakeFreeBlock();
      if block.None? {
        block := TakeFreeBlock();
      }
      if block.None? {
        return Transferred(0);
      }
      TakeFreeMovesBlock(old(pool));
      ReturnMovesBlock(pool, block.value);
      Enqueue(block.value, range);
      return Transferred(|range|);
    }

    method Enqueue(b: nat, range: seq<bv8>)
      requires Valid() && b < blockCount && b !in pool.Blocks() && |range| <= blockSize
      modifies `dataSize, `pool, `totalBytesWritten, `totalBlocksWritten, raw
      ensures Valid() && Contents() == old(Contents()) + [range]
      ensures pool == old(pool).ReturnActive(b) && Stored() == old(Stored())[b := range]
      ensures totalBytesWritten == old(totalBytesWritten) + |range|
      ensures totalBlocksWritten == old(totalBlocksWritten) + 1
    {
      Fill(b, range);
      totalBytesWritten, totalBlocksWritten := totalBytesWritten + |range|, totalBlocksWritten + 1;
      ReturnActiveBlock(b);
    }

    /** read: the oldest queued block, whose first bytes are what was written to it. */
    method Read(length: nat) returns (r: Transfer, data: seq<bv8>)
      requires Valid()
      modifies `dataSize, `pool, `totalBytesRead, `totalBlocksRead
      ensures Valid() && pool.Blocks() == old(pool.Blocks())
      ensures length > blockSize <==> r.LengthError?
      ensures length > blockSize || |old(pool.active)| == 0 ==>
                data == [] && pool == old(pool) && Stored() == old(Stored()) && Contents() == old(Contents())
      ensures length <= blockSize && |old(pool.active)| == 0 ==> r == Transferred(0)
      ensures length <= blockSize && |old(pool.active)| > 0 ==>
                && r == Transferred(length) && |data| == length
                && Contents() == old(Contents())[1..]
                && data[..Min(length, |old(Contents())[0]|)] == old(Contents())[0][..Min(length, |old(Contents())[0]|)]
      ensures length <= blockSize && |old(pool.active)| > 0 ==>
                var block := old(pool.active)[0];
                && pool.active == old(pool.active)[1..] && pool.free == old(pool.free) + [block]
                && block < old(blockCount) && Stored() == old(Stored())[block := []]
      ensures var read := length <= blockSize && |old(pool.active)| > 0;
              && totalBytesRead == old(totalBytesRead) + (if read then length else 0)
              && totalBlocksRead == old(totalBlocksRead) + if read then 1 else 0
    {
      data := [];
      if length > blockSize {
        return LengthError, [];
      }
      var block := TakeActiveBlock();
      if block.None? {
        block := TakeActiveBlock();
      }
      if block.None? {
        return Transferred(0), [];
      }
      TakeActiveMovesBlock(old(pool));
      ReturnMovesBlock(pool, block.value);
      data := CopyOut(block.value, length);
      totalBytesRead, totalBlocksRead := totalBytesRead + length, totalBlocksRead + 1;
      ReturnFreeBlock(block.value);
      return Transferred(length), data;
    }

    /** The red-zone check of a valid pool passes, so the copy is always reached. */
    method CopyOut(b: nat, length: nat) returns (data: seq<bv8>)
      requires Valid() && b < blockCount && length <= blockSize
      ensures |data| == length
      ensures data[..Min(length, |Stored()[b]|)] == Stored()[b][..Min(length, |Stored()[b]|)]
    {
      if enableRedzones {
        var intact := VerifyRedzone(b);
        assert intact by {
          assert GuardedAt(raw[..], paddedSize, blockCount, b);
        }
      }
      var block := BlockBytes(b);
      CommonPrefix(block, length, dataSize[b]);
      data := block[..length];
    }
  }
}
