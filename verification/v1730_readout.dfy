/** The board reader's own state, and the two loops that update it, each seen while the other thread waits. */
module V1730Readout {
  import opened PoolBuffers
  import opened EventCounter

  /** What one CAEN_DGTZ_ReadData call and the checks behind it come to. */
  datatype Read =
    | ReadError
    | NoData
    | Oversized
    | RedzoneBroken
    | WrongEventSize
    | Good(counter: nat, timestamp: int)

  /** Reads that end a pass but not the run. */
  predicate EndsPass(r: Read) {
    r.NoData? || r.Oversized? || r.WrongEventSize?
  }

  predicate AllGood(rs: seq<Read>) {
    forall i | 0 <= i < |rs| :: rs[i].Good?
  }

  /** The reads of a pass up to the first one that ends the loop. */
  function Accepted(outcomes: seq<Read>): (good: seq<Read>)
    ensures good <= outcomes && AllGood(good)
  {
    if outcomes == [] || !outcomes[0].Good? then [] else [outcomes[0]] + Accepted(outcomes[1..])
  }

  lemma {:induction false} AcceptedSoFar(outcomes: seq<Read>, n: nat)
    requires n <= |outcomes| && AllGood(outcomes[..n])
    ensures outcomes[..n] <= Accepted(outcomes)
    ensures n == |outcomes| || !outcomes[n].Good? ==> Accepted(outcomes) == outcomes[..n]
  {
    if n > 0 {
      assert outcomes[0] == outcomes[..n][0];
      assert outcomes[1..][..n - 1] == outcomes[..n][1..];
      AcceptedSoFar(outcomes[1..], n - 1);
      assert outcomes[..n] == [outcomes[0]] + outcomes[1..][..n - 1];
    }
  }

  /** The timestamp map after publishing reads in order. */
  function Published(timestamps: map<nat, int>, outcomes: seq<Read>): map<nat, int>
    requires AllGood(outcomes)
  {
    if outcomes == [] then timestamps
    else
      var r := outcomes[|outcomes| - 1];
      Published(timestamps, outcomes[..|outcomes| - 1])[r.counter := r.timestamp]
  }

  /** The triggers counted over reads in order. */
  function Triggers(last: nat, outcomes: seq<Read>): nat
    requires AllGood(outcomes)
  {
    if outcomes == [] then 0
    else
      var n := |outcomes| - 1;
      Triggers(last, outcomes[..n]) + Gap(LastCounter(last, outcomes[..n]), outcomes[n].counter)
  }

  function LastCounter(last: nat, outcomes: seq<Read>): nat
    requires AllGood(outcomes)
  {
    if outcomes == [] then last else outcomes[|outcomes| - 1].counter
  }

  /** One more read, appended to those before it. */
  lemma {:induction false} OneMore(timestamps: map<nat, int>, last: nat, outcomes: seq<Read>, n: nat)
    requires n < |outcomes| && AllGood(outcomes[..n]) && outcomes[n].Good?
    ensures AllGood(outcomes[..n + 1])
    ensures Published(timestamps, outcomes[..n + 1])
            == Published(timestamps, outcomes[..n])[outcomes[n].counter := outcomes[n].timestamp]
    ensures LastCounter(last, outcomes[..n + 1]) == outcomes[n].counter
    ensures Triggers(last, outcomes[..n + 1])
            == Triggers(last, outcomes[..n]) + Gap(LastCounter(last, outcomes[..n]), outcomes[n].counter)
  {
    assert outcomes[..n + 1][..n] == outcomes[..n];
  }

  /** For reads of true events, the triggers counted are those of the unbounded numbering. */
  lemma {:induction false} TriggersOfEvents(last: nat, numbers: seq<nat>, outcomes: seq<Read>)
    requires |numbers| == |outcomes| && numbers != [] && IncreasingFrom(last, numbers)
    requires forall i | 0 <= i < |outcomes| :: outcomes[i].Good? && outcomes[i].counter == numbers[i] % COUNTER_RANGE
    ensures Triggers(last % COUNTER_RANGE, outcomes) == numbers[|numbers| - 1] - last <==> ShortGaps(last, numbers)
  {
    TriggersAreTotalGap(last, numbers, outcomes);
    GapsTelescope(last, numbers);
  }

  lemma {:induction false} TriggersAreTotalGap(last: nat, numbers: seq<nat>, outcomes: seq<Read>)
    requires |numbers| == |outcomes|
    requires forall i | 0 <= i < |outcomes| :: outcomes[i].Good? && outcomes[i].counter == numbers[i] % COUNTER_RANGE
    ensures Triggers(last % COUNTER_RANGE, outcomes) == TotalGap(last, numbers)
    decreases |outcomes|
  {
    if outcomes != [] {
      var n := |outcomes| - 1;
      TriggersAreTotalGap(last, numbers[..n], outcomes[..n]);
      assert numbers == numbers[..n] + [numbers[n]];
      TotalGapAppend(last, numbers[..n], numbers[n]);
    }
  }

  lemma {:induction false} TotalGapAppend(last: nat, numbers: seq<nat>, number: nat)
    ensures TotalGap(last, numbers + [number])
            == TotalGap(last, numbers)
               + Gap((if numbers == [] then last else numbers[|numbers| - 1]) % COUNTER_RANGE, number % COUNTER_RANGE)
    decreases |numbers|
  {
    var all := numbers + [number];
    if numbers == [] {
      assert all[1..] == [];
    } else {
      assert all[1..] == numbers[1..] + [number];
      TotalGapAppend(numbers[0], numbers[1..], number);
    }
  }

  const CRASH_BUFFER_DEPTH: nat := 16

  /** The last events of a run, as many as the crash buffer holds. */
  function Latest<T>(events: seq<T>, depth: nat): seq<T> {
    if |events| <= depth then events else events[|events| - depth..]
  }

  datatype PassResult = Continue | Stop | Thrown

  class V1730Readout {
    var pool: Pool
    var timestampMap: map<nat, int>
    var failGetNext: bool
    var lastRcvEventCounter: nat
    var triggersReported: nat
    var lastSentEventCounter: nat
    var overflowCounter: nat
    var lastSentSeqid: nat
    var dumpCrashEvents: bool
    var crashBuffer: seq<seq<bv8>>

    /** ConfigureDataBuffer and start. */
    constructor (blockCount: nat, dumpCrashEvents: bool)
      ensures pool == FreshPool(blockCount) && timestampMap == map[] && !failGetNext
      ensures lastRcvEventCounter == 0 && triggersReported == 0
      ensures SequenceState() == START && lastSentSeqid == 0
      ensures this.dumpCrashEvents == dumpCrashEvents && crashBuffer == []
    {
      pool, timestampMap, failGetNext := FreshPool(blockCount), map[], false;
      lastRcvEventCounter, triggersReported := 0, 0;
      lastSentEventCounter, overflowCounter, lastSentSeqid := 0, 0, 0;
      this.dumpCrashEvents, crashBuffer := dumpCrashEvents, [];
    }

    function SequenceState(): Unwrapper
      reads this
    {
      Unwrapper(lastSentEventCounter, overflowCounter)
    }

    /**
     * readWindowDataBlocks over the reads of one pass, n of which end up queued. Whatever ends the
     * loop, short of an exception, every block taken is either queued or free again.
     */
    method ReadWindowDataBlocks(outcomes: seq<Read>) returns (r: PassResult, n: nat)
      modifies `pool, `timestampMap, `failGetNext, `lastRcvEventCounter, `triggersReported
      ensures n <= |outcomes| && outcomes[..n] <= Accepted(outcomes)
      ensures old(failGetNext) ==> failGetNext && n == 0
      ensures r == Stop <==> failGetNext || (n < |outcomes| && outcomes[n].ReadError?)
      ensures r == Thrown <==> !failGetNext && n < |outcomes| && outcomes[n].RedzoneBroken?
      ensures r == Continue <==>
                !failGetNext && (n == |outcomes| || EndsPass(outcomes[n]))
      ensures r != Thrown ==> pool.Blocks() == old(pool.Blocks())
      ensures r == Thrown ==> exists b :: pool.Blocks() + multiset{b} == old(pool.Blocks())
      ensures !failGetNext ==> outcomes[..n] == Accepted(outcomes)
      ensures failGetNext && !old(failGetNext) ==> pool.free == []
      ensures old(pool.active) <= pool.active && |pool.active| == |old(pool.active)| + n
      ensures timestampMap == Published(old(timestampMap), outcomes[..n])
      ensures lastRcvEventCounter == LastCounter(old(lastRcvEventCounter), outcomes[..n])
      ensures triggersReported == old(triggersReported) + Triggers(old(lastRcvEventCounter), outcomes[..n])
    {
      n := 0;
      AcceptedSoFar(outcomes, 0);
      if failGetNext {
        return Stop, 0;
      }
      while true
        invariant n <= |outcomes| && AllGood(outcomes[..n])
        invariant !failGetNext && pool.Blocks() == old(pool.Blocks())
        invariant old(pool.active) <= pool.active && |pool.active| == |old(pool.active)| + n
        invariant timestampMap == Published(old(timestampMap), outcomes[..n])
        invariant lastRcvEventCounter == LastCounter(old(lastRcvEventCounter), outcomes[..n])
        invariant triggersReported == old(triggersReported) + Triggers(old(lastRcvEventCounter), outcomes[..n])
        decreases |outcomes| - n
      {
        AcceptedSoFar(outcomes, n);
        var read := if n < |outcomes| then outcomes[n] else NoData;
        var end := ReadBlock(read);
        if end.Some? {
          return end.value, n;
        }
        OneMore(old(timestampMap), old(lastRcvEventCounter), outcomes, n);
        n := n + 1;
      }
    }

    /** One turn of the loop: None when the read was queued, or how the pass ends. */
    method ReadBlock(read: Read) returns (end: Option<PassResult>)
      requires !failGetNext
      modifies `pool, `timestampMap, `failGetNext, `lastRcvEventCounter, `triggersReported
      ensures failGetNext <==> old(pool).free == []
      ensures !failGetNext ==> (end == Some(Stop) <==> read.ReadError?)
      ensures !failGetNext ==> (end == Some(Thrown) <==> read.RedzoneBroken?)
      ensures !failGetNext ==> (end == Some(Continue) <==> EndsPass(read))
      ensures failGetNext ==> end == Some(Stop) && pool == old(pool)
      ensures end.None? ==>
                && read.Good? && pool.Blocks() == old(pool.Blocks())
                && pool.active == old(pool.active) + [old(pool).TakeFree().1.value]
                && timestampMap == old(timestampMap)[read.counter := read.timestamp]
                && lastRcvEventCounter == read.counter
                && triggersReported == old(triggersReported) + Gap(old(lastRcvEventCounter), read.counter)
      ensures end.Some? ==>
                && (read.Good? ==> failGetNext)
                && pool.active == old(pool.active) && timestampMap == old(timestampMap)
                && lastRcvEventCounter == old(lastRcvEventCounter) && triggersReported == old(triggersReported)
      ensures end == Some(Thrown) ==> exists b :: pool.Blocks() + multiset{b} == old(pool.Blocks())
      ensures end.Some? && end.value != Thrown ==> pool.Blocks() == old(pool.Blocks())
    {
      TakeFreeMovesBlock(pool);
      var block := pool.TakeFree().1;
      pool := pool.TakeFree().0;
      if block.None? {
        failGetNext := true;
        return Some(Stop);
      }
      ReturnMovesBlock(pool, block.value);
      end := FinishBlock(block.value, read);
    }

    /** What becomes of a block taken for a read: queued, given back, or, on an exception, kept from the pool. */
    method FinishBlock(block: nat, read: Read) returns (end: Option<PassResult>)
      modifies `pool, `timestampMap, `lastRcvEventCounter, `triggersReported
      ensures end.None? <==> read.Good?
      ensures end == Some(Stop) <==> read.ReadError?
      ensures end == Some(Continue) <==> EndsPass(read)
      ensures read.Good? ==>
                && pool == old(pool).ReturnActive(block)
                && timestampMap == old(timestampMap)[read.counter := read.timestamp]
                && lastRcvEventCounter == read.counter
                && triggersReported == old(triggersReported) + Gap(old(lastRcvEventCounter), read.counter)
      ensures !read.Good? ==>
                && pool == (if end == Some(Thrown) then old(pool) else old(pool).ReturnFree(block))
                && timestampMap == old(timestampMap)
                && lastRcvEventCounter == old(lastRcvEventCounter) && triggersReported == old(triggersReported)
      ensures end == Some(Thrown) <==> read.RedzoneBroken?
    {
      match read {
        case Good(counter, timestamp) =>
          timestampMap := timestampMap[counter := timestamp];
          triggersReported := triggersReported + Gap(lastRcvEventCounter, counter);
          lastRcvEventCounter := counter;
          pool := pool.ReturnActive(block);
          return None;
        case RedzoneBroken =>
          return Some(Thrown);
        case ReadError =>
          pool := pool.ReturnFree(block);
          return Some(Stop);
        case _ => // no data, oversized, wrong event size
          pool := pool.ReturnFree(block);
          return Some(Continue);
      }
    }

    /** bufferCrashEvent: when it holds the latest of the events so far, it then holds the latest with this one. */
    method BufferCrashEvent(data: seq<bv8>, ghost events: seq<seq<bv8>>)
      requires crashBuffer == Latest(events, CRASH_BUFFER_DEPTH)
      modifies `crashBuffer
      ensures crashBuffer == if dumpCrashEvents then Latest(events + [data], CRASH_BUFFER_DEPTH) else old(crashBuffer)
    {
      if !dumpCrashEvents {
        return;
      }
      if |crashBuffer| >= CRASH_BUFFER_DEPTH {
        crashBuffer := crashBuffer[1..];
      }
      crashBuffer := crashBuffer + [data];
    }

    /** The consumer's sequence id for the next fragment, kept with the state it depends on. */
    method NextSequenceId(counter: nat) returns (id: nat)
      modifies `lastSentEventCounter, `overflowCounter, `lastSentSeqid
      ensures SequenceState() == old(SequenceState()).Next(counter)
      ensures id == lastSentSeqid == SequenceState().SequenceId()
    {
      if counter < lastSentEventCounter && lastSentEventCounter - counter > EVENT_COUNTER_MASK * 9 / 10 {
        overflowCounter := (overflowCounter + 1) % UINT32_RANGE;
      }
      id := counter + overflowCounter * (EVENT_COUNTER_MASK + 1);
      lastSentEventCounter, lastSentSeqid := counter, id;
    }

    /** Fragments of a run of true events get the true numbers, however long the run. */
    method NumberFragments(numbers: seq<nat>) returns (ids: seq<nat>)
      requires SequenceState() == START
      modifies `lastSentEventCounter, `overflowCounter, `lastSentSeqid
      ensures ids == SequenceIds(START, numbers)
    {
      ids := [];
      for i := 0 to |numbers|
        invariant ids + SequenceIds(SequenceState(), numbers[i..]) == SequenceIds(START, numbers)
      {
        assert numbers[i..][1..] == numbers[i + 1..];
        var id := NextSequenceId(numbers[i] % COUNTER_RANGE);
        ids := ids + [id];
      }
    }

    /** The look-up of a fragment's timestamp, with its retries: found timestamps are used up. */
    method TakeTimestamp(counter: nat) returns (timestamp: Option<int>)
      modifies `timestampMap
      ensures counter in old(timestampMap) ==> timestamp == Some(old(timestampMap)[counter])
      ensures counter !in old(timestampMap) ==> timestamp == None
      ensures timestampMap == old(timestampMap) - {counter}
    {
      var found, tries := counter in timestampMap, 0;
      while tries < 3 && !found
        invariant found <==> counter in timestampMap
      {
        tries := tries + 1;
        found := counter in timestampMap;
      }
      if found {
        timestamp := Some(timestampMap[counter]);
        timestampMap := timestampMap - {counter};
      } else {
        timestamp := None;
        assert timestampMap - {counter} == timestampMap;
      }
    }
  }
}
