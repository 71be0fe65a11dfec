/**
 * PoolBuffer: a memory pool cut into blocks, a stack of free blocks and a queue of filled
 * ones. `Pool` is the queue-level view that the two readout threads share; the class below
 * adds the memory.
 */
module PoolBuffers {
  datatype Option<T> = None | Some(value: T)

  // ---------------------------------------------------------------------------------
  // Block queues
  // ---------------------------------------------------------------------------------

  /** Free blocks (a stack, top last), active blocks (a queue, front first) and the two gauges. */
  datatype Pool = Pool(free: seq<nat>, active: seq<nat>, lowWaterMark: nat, fullyDrained: nat) {

    function TakeFree(): (Pool, Option<nat>) {
      if free == [] then (this, None)
      else
        var left := |free| - 1;
        var pool := this.(free := free[..left],
                          fullyDrained := if |free| == 1 then fullyDrained + 1 else fullyDrained,
                          lowWaterMark := if left < lowWaterMark then left else lowWaterMark);
        (pool, Some(free[left]))
    }

    function TakeActive(): (Pool, Option<nat>) {
      if active == [] then (this, None) else (this.(active := active[1..]), Some(active[0]))
    }

    function ReturnFree(b: nat): Pool {
      this.(free := free + [b])
    }

    function ReturnActive(b: nat): Pool {
      this.(active := active + [b])
    }

    /** Every block the pool still has, counted with multiplicity. */
    ghost function Blocks(): multiset<nat> {
      multiset(free) + multiset(active)
    }
  }

  /** No block is in the pool twice, and all are blocks of an n-block pool. */
  ghost predicate BlocksUnique(p: Pool, n: nat) {
    forall b | b in p.Blocks() :: b < n && p.Blocks()[b] == 1
  }

  lemma TakeFreeMovesBlock(p: Pool)
    ensures p.free != [] ==> p.Blocks() == p.TakeFree().0.Blocks() + multiset{p.TakeFree().1.value}
  {
    if p.free != [] {
      assert p.free == p.free[..|p.free| - 1] + [p.free[|p.free| - 1]];
    }
  }

  lemma TakeActiveMovesBlock(p: Pool)
    ensures p.active != [] ==> p.Blocks() == p.TakeActive().0.Blocks() + multiset{p.active[0]}
  {
    if p.active != [] {
      assert p.active == [p.active[0]] + p.active[1..];
    }
  }

  lemma ReturnMovesBlock(p: Pool, b: nat)
    ensures p.ReturnFree(b).Blocks() == p.Blocks() + multiset{b}
    ensures p.ReturnActive(b).Blocks() == p.Blocks() + multiset{b}
  {
  }

  /** Taking a block out of the pool, or putting a held one back, keeps blocks unique. */
  lemma UniqueWithout(p: Pool, next: Pool, n: nat, b: nat)
    requires BlocksUnique(p, n) && p.Blocks() == next.Blocks() + multiset{b}
    ensures BlocksUnique(next, n) && b < n && b !in next.Blocks()
  {
    assert p.Blocks()[b] == next.Blocks()[b] + 1;
    forall c | c in next.Blocks()
      ensures c < n && next.Blocks()[c] == 1
    {
      assert c in p.Blocks();
    }
  }

  lemma UniqueWith(p: Pool, next: Pool, n: nat, b: nat)
    requires BlocksUnique(p, n) && b < n && b !in p.Blocks() && next.Blocks() == p.Blocks() + multiset{b}
    ensures BlocksUnique(next, n)
  {
    forall c | c in next.Blocks()
      ensures c < n && next.Blocks()[c] == 1
    {
      if c != b { assert c in p.Blocks(); }
    }
  }

  /** A freshly allocated pool: block 0 is on top of the free stack. */
  function FreshPool(blockCount: nat): (p: Pool)
    ensures |p.free| == blockCount && p.active == []
    ensures forall i | 0 <= i < blockCount :: p.free[i] == blockCount - 1 - i
  {
    Pool(seq(blockCount, i requires 0 <= i < blockCount => blockCount - 1 - i), [], blockCount, 0)
  }

  lemma FreshBlocksUnique(n: nat)
    ensures BlocksUnique(FreshPool(n), n)
  {
    var free := FreshPool(n).free;
    forall b | b in FreshPool(n).Blocks()
      ensures b < n && FreshPool(n).Blocks()[b] == 1
    {
      assert b in free;
      var i := n - 1 - b;
      assert free[i] == b;
      assert free == free[..i] + [b] + free[i + 1..];
    }
  }

  /** One operation of either thread on the shared queues. */
  datatype PoolStep = TakeFree | TakeActive | ReturnFree(b: nat) | ReturnActive(b: nat)

  function Apply(p: Pool, step: PoolStep): Pool {
    match step
    case TakeFree => p.TakeFree().0
    case TakeActive => p.TakeActive().0
    case ReturnFree(b) => p.ReturnFree(b)
    case ReturnActive(b) => p.ReturnActive(b)
  }

  /** The pool after each operation of a history, the initial pool first. */
  function History(p: Pool, steps: seq<PoolStep>): (pools: seq<Pool>)
    ensures |pools| == |steps| + 1 && pools[0] == p
    decreases |steps|
  {
    if steps == [] then [p] else [p] + History(Apply(p, steps[0]), steps[1..])
  }

  /** How often the free stack went from one block to none. */
  ghost function Drains(pools: seq<Pool>): nat {
    if |pools| <= 1 then 0 else Drained(pools[0], pools[1]) + Drains(pools[1..])
  }

  function Drained(p: Pool, next: Pool): nat {
    if |p.free| > 0 && |next.free| == 0 then 1 else 0
  }

  function Min(a: nat, b: nat): nat {
    if a < b then a else b
  }

  /** The least free count of a history. */
  ghost function MinFree(pools: seq<Pool>): nat
    requires pools != []
  {
    if |pools| == 1 then |pools[0].free| else Min(|pools[0].free|, MinFree(pools[1..]))
  }

  lemma {:induction false} MinFreeIsMinimum(pools: seq<Pool>)
    requires pools != []
    ensures forall i | 0 <= i < |pools| :: MinFree(pools) <= |pools[i].free|
    ensures exists i :: 0 <= i < |pools| && MinFree(pools) == |pools[i].free|
  {
    if |pools| == 1 || MinFree(pools) == |pools[0].free| {
      assert MinFree(pools) == |pools[0].free|;
    }
    if |pools| > 1 {
      MinFreeIsMinimum(pools[1..]);
      var j :| 0 <= j < |pools[1..]| && MinFree(pools[1..]) == |pools[1..][j].free|;
      assert pools[j + 1] == pools[1..][j];
      assert forall i | 0 < i < |pools| :: pools[i] == pools[1..][i - 1];
    }
  }

  /** How one operation moves the gauges. */
  predicate Gauged(p: Pool, next: Pool) {
    && next.fullyDrained == p.fullyDrained + Drained(p, next)
    && next.lowWaterMark == Min(p.lowWaterMark, |next.free|)
    && next.lowWaterMark <= |next.free|
  }

  predicate AllGauged(pools: seq<Pool>) {
    forall i | 0 <= i < |pools| - 1 :: Gauged(pools[i], pools[i + 1])
  }

  lemma {:induction false} HistoryIsGauged(p: Pool, steps: seq<PoolStep>)
    requires p.lowWaterMark <= |p.free|
    ensures AllGauged(History(p, steps))
    decreases |steps|
  {
    if steps != [] {
      var next := Apply(p, steps[0]);
      assert Gauged(p, next);
      HistoryIsGauged(next, steps[1..]);
      var rest := History(next, steps[1..]);
      forall i | 0 <= i < |rest|
        ensures Gauged(([p] + rest)[i], ([p] + rest)[i + 1])
      {
        if i > 0 { assert Gauged(rest[i - 1], rest[i - 1 + 1]); }
      }
    }
  }

  lemma {:induction false} GaugesFollow(pools: seq<Pool>)
    requires pools != [] && pools[0].lowWaterMark <= |pools[0].free|
    requires AllGauged(pools)
    ensures var last := pools[|pools| - 1];
            && last.fullyDrained == pools[0].fullyDrained + Drains(pools)
            && last.lowWaterMark == Min(pools[0].lowWaterMark, MinFree(pools))
  {
    if |pools| > 1 {
      assert Gauged(pools[0], pools[1]);
      GaugesFollow(pools[1..]);
    }
  }

  /** From allocation on, the low-water mark is exactly the minimum of the free count over the whole history. */
  lemma {:induction false} LowWaterMarkIsMinimum(blockCount: nat, steps: seq<PoolStep>)
    ensures var pools := History(FreshPool(blockCount), steps);
            && pools[|steps|].fullyDrained == Drains(pools)
            && (forall i | 0 <= i < |pools| :: pools[|steps|].lowWaterMark <= |pools[i].free|)
            && exists i :: 0 <= i < |pools| && pools[|steps|].lowWaterMark == |pools[i].free|
  {
    var pools := History(FreshPool(blockCount), steps);
    HistoryIsGauged(FreshPool(blockCount), steps);
    assert pools[|pools| - 1] == pools[|steps|];
    GaugesFollow(pools);
    MinFreeIsMinimum(pools);
    assert |pools[0].free| == blockCount;
  }

  // ---------------------------------------------------------------------------------
  // Geometry
  // ---------------------------------------------------------------------------------

  const SIZE_LIMIT: nat := 0x1_0000_0000_0000_0000 // std::size_t arithmetic wraps here
  const MAX_BUFFER_SIZE: nat := 2 * 1024 * 1024 * 1024
  const REDZONE_SIZE: nat := 8
  const REDZONE: seq<bv8> := [114, 101, 100, 45, 122, 111, 110, 101] // "red-zone"

  function AlignCacheline(size: nat): nat {
    if size % 64 != 0 then ((size / 64 + 1) * 64) % SIZE_LIMIT else size
  }

  function Margin(enableRedzones: bool): nat {
    if enableRedzones then REDZONE_SIZE else 0
  }

  /** Distance between the starts of two blocks. */
  function PaddedSize(blockSize: nat, enableRedzones: bool): nat {
    AlignCacheline((blockSize + Margin(enableRedzones)) % SIZE_LIMIT)
  }

  datatype AllocateResult =
    | Allocated(poolBufferSize: nat)
    | Reallocation
    | InvalidPoolSize
    | DivisionByZero
    | AssertionFailed

  function AllocateOutcome(current: nat, blockSize: nat, poolSize: nat, enableRedzones: bool): AllocateResult {
    var padded := PaddedSize(blockSize, enableRedzones);
    if current != 0 then Reallocation
    else if poolSize == 0 || poolSize > MAX_BUFFER_SIZE then InvalidPoolSize
    else if padded == 0 then DivisionByZero
    else
      var size := AlignCacheline(padded * (poolSize / padded) % SIZE_LIMIT);
      if size == 0 || size > MAX_BUFFER_SIZE || blockSize == 0 then AssertionFailed else Allocated(size)
  }

  /** An accepted request yields a pool that is exactly its blocks, none reaching outside the request. */
  lemma {:induction false} AcceptedGeometry(blockSize: nat, poolSize: nat, enableRedzones: bool)
    requires blockSize < SIZE_LIMIT
    requires AllocateOutcome(0, blockSize, poolSize, enableRedzones).Allocated?
    ensures var padded := PaddedSize(blockSize, enableRedzones);
            var size := AllocateOutcome(0, blockSize, poolSize, enableRedzones).poolBufferSize;
            padded > 0 && padded % 64 == 0 && poolSize / padded > 0 && size == padded * (poolSize / padded) <= poolSize
  {
    var padded := PaddedSize(blockSize, enableRedzones);
    AlignedSize((blockSize + Margin(enableRedzones)) % SIZE_LIMIT);
    CutPool(poolSize, padded);
  }

  lemma {:induction false} CutPool(poolSize: nat, padded: nat)
    requires padded > 0 && padded % 64 == 0 && poolSize <= MAX_BUFFER_SIZE
    ensures AlignCacheline(padded * (poolSize / padded) % SIZE_LIMIT) == padded * (poolSize / padded) <= poolSize
    ensures poolSize / padded == 0 ==> padded * (poolSize / padded) == 0
  {
    NoNegativeQuotient(poolSize, padded);
    CutSize(poolSize, padded, poolSize / padded, padded * (poolSize / padded));
  }

  lemma {:induction false} CutSize(poolSize: nat, padded: nat, count: nat, size: int)
    requires padded > 0 && padded % 64 == 0 && poolSize <= MAX_BUFFER_SIZE
    requires count == poolSize / padded && size == padded * count
    ensures AlignCacheline(size % SIZE_LIMIT) == size <= poolSize
    ensures count == 0 ==> size == 0
  {
    WholeBlocks(poolSize, padded);
    MultipleOf64(padded, count);
    NoNegativeProduct(padded, count);
    AlignedKeeps(size, poolSize);
  }

  lemma {:induction false} NoNegativeQuotient(a: nat, b: nat)
    requires b > 0
    ensures a / b >= 0
  {
  }

  lemma {:induction false} NoNegativeProduct(a: nat, b: nat)
    ensures a * b >= 0
  {
  }

  lemma {:induction false} AlignedKeeps(size: nat, poolSize: nat)
    requires size % 64 == 0 && size <= poolSize <= MAX_BUFFER_SIZE
    ensures AlignCacheline(size % SIZE_LIMIT) == size
  {
    assert size % SIZE_LIMIT == size;
  }

  lemma {:induction false} WholeBlocks(poolSize: nat, padded: nat)
    requires padded > 0
    ensures padded * (poolSize / padded) <= poolSize
    ensures poolSize / padded == 0 ==> padded * (poolSize / padded) == 0
    ensures poolSize / padded > 0 ==> padded <= poolSize
  {
    assert poolSize == padded * (poolSize / padded) + poolSize % padded;
    assert poolSize / padded >= 1 ==> padded * (poolSize / padded) >= padded;
  }

  lemma {:induction false} AlignedSize(size: nat)
    requires size < SIZE_LIMIT
    ensures AlignCacheline(size) % 64 == 0
    ensures AlignCacheline(size) >= size <==> size <= SIZE_LIMIT - 64
    ensures AlignCacheline(size) < size ==> AlignCacheline(size) == 0
  {
  }

  lemma {:induction false} MultipleOf64(padded: nat, count: nat)
    requires padded % 64 == 0
    ensures (padded * count) % 64 == 0
  {
    var k := padded / 64;
    assert padded * count == 64 * (k * count);
  }

  /**
   * A block's usable bytes and its red zone both fit in the block, for an accepted request,
   * exactly when the block size plus the red zone does not wrap around.
   */
  lemma {:induction false} BlockFitsUnlessWrapped(blockSize: nat, poolSize: nat, enableRedzones: bool)
    requires blockSize < SIZE_LIMIT
    requires AllocateOutcome(0, blockSize, poolSize, enableRedzones).Allocated?
    ensures blockSize + Margin(enableRedzones) <= PaddedSize(blockSize, enableRedzones) <==>
            blockSize + Margin(enableRedzones) < SIZE_LIMIT
  {
    AcceptedBlockIsSmall(blockSize, poolSize, enableRedzones);
    FitsUnlessWrapped(blockSize + Margin(enableRedzones));
  }

  lemma {:induction false} AcceptedBlockIsSmall(blockSize: nat, poolSize: nat, enableRedzones: bool)
    requires blockSize < SIZE_LIMIT
    requires AllocateOutcome(0, blockSize, poolSize, enableRedzones).Allocated?
    ensures 0 < PaddedSize(blockSize, enableRedzones) <= MAX_BUFFER_SIZE
  {
    AcceptedGeometry(blockSize, poolSize, enableRedzones);
    WholeBlocks(poolSize, PaddedSize(blockSize, enableRedzones));
  }

  lemma {:induction false} FitsUnlessWrapped(wanted: nat)
    requires wanted < SIZE_LIMIT + REDZONE_SIZE && 0 < AlignCacheline(wanted % SIZE_LIMIT) <= MAX_BUFFER_SIZE
    ensures wanted <= AlignCacheline(wanted % SIZE_LIMIT) <==> wanted < SIZE_LIMIT
  {
    AlignedSize(wanted % SIZE_LIMIT);
  }

  /** The wrap is reachable: such a request is accepted and its blocks overlap their red zones. */
  lemma WrappedBlockSizeIsAccepted()
    ensures AllocateOutcome(0, SIZE_LIMIT - 4, 64, true) == Allocated(64)
    ensures PaddedSize(SIZE_LIMIT - 4, true) == 64
  {
  }

  /** Blocks are disjoint slices inside the pool. */
  lemma SlicesDisjoint(padded: nat, count: nat, i: nat, j: nat)
    requires i < j < count
    ensures (i + 1) * padded <= j * padded && (j + 1) * padded <= padded * count
  {
    Ordered(i + 1, j, padded);
    Ordered(j + 1, count, padded);
  }

  lemma Ordered(a: nat, b: nat, padded: nat)
    requires a <= b
    ensures a * padded <= b * padded
  {
  }
}
