/**
 * Absolute time from a nanosecond reading and the poll window it was read in: the reading is
 * placed in the second that brings it closest to the middle of the window.
 */
module TimeRecovery {
  const SECOND: int := 1_000_000_000
  const HALF_SECOND: int := 500_000_000
  const UINT64_RANGE: nat := 0x1_0000_0000_0000_0000
  const UINT32_RANGE: nat := 0x1_0000_0000
  const INT32_RANGE: int := 0x8000_0000

  /** Storing into an unsigned 64-bit timestamp. */
  function U64(x: int): nat {
    x % UINT64_RANGE
  }

  /** The % operator of the source on signed operands. */
  function Remainder(x: int, m: int): int
    requires m > 0
  {
    if x >= 0 then x % m else -((-x) % m)
  }

  function MeanPollTime(begin: nat, end: nat): nat {
    begin / 2 + end / 2
  }

  /** Branch-free form. */
  function NearestSecond(mean: nat, ns: int): int {
    mean - mean % SECOND + ns
    + (if ns - mean % SECOND < -HALF_SECOND then 1 else 0) * SECOND
    - (if ns - mean % SECOND > HALF_SECOND then 1 else 0) * SECOND
  }

  /** The form with branches used by the ZeroMQ generator. */
  function NearestSecondByCases(mean: nat, ns: int): int {
    if ns - mean % SECOND < -HALF_SECOND then mean - mean % SECOND + ns + SECOND
    else if ns - mean % SECOND > HALF_SECOND then mean - mean % SECOND + ns - SECOND
    else mean - mean % SECOND + ns
  }

  lemma FormsAgree(mean: nat, ns: int)
    ensures NearestSecond(mean, ns) == NearestSecondByCases(mean, ns)
  {
  }

  /** The residue is kept, and the result is within half a second of the mean exactly for readings near a second. */
  lemma NearestSecondBounds(mean: nat, ns: int)
    ensures (NearestSecond(mean, ns) - ns) % SECOND == 0
    ensures -HALF_SECOND <= NearestSecond(mean, ns) - mean <= HALF_SECOND <==>
            -3 * HALF_SECOND <= ns - mean % SECOND <= 3 * HALF_SECOND
    ensures -HALF_SECOND < ns <= SECOND ==> -HALF_SECOND <= NearestSecond(mean, ns) - mean <= HALF_SECOND
  {
    assert mean - mean % SECOND == SECOND * (mean / SECOND);
  }

  /**
   * Exactly which true times are recovered from their nanoseconds: those less than half a second
   * from the mean, and one of the two ties depending on where the mean lies in its second.
   */
  lemma RecoveredTimes(mean: nat, time: int)
    ensures NearestSecond(mean, time % SECOND) == time <==>
            || -HALF_SECOND < time - mean < HALF_SECOND
            || (time - mean == HALF_SECOND && mean % SECOND < HALF_SECOND)
            || (time - mean == -HALF_SECOND && mean % SECOND >= HALF_SECOND)
  {
    NearestSecondBounds(mean, time % SECOND);
    var r := NearestSecond(mean, time % SECOND);
    assert (r - time % SECOND) % SECOND == 0 && (time - time % SECOND) % SECOND == 0;
    var k := (r - time % SECOND) / SECOND - (time - time % SECOND) / SECOND;
    assert r - time == SECOND * k;
    assert mean == SECOND * (mean / SECOND) + mean % SECOND;
    assert time == SECOND * (time / SECOND) + time % SECOND;
  }

  /** A reading at most three half seconds from the mean's nanoseconds: one correction by a second is enough. */
  predicate OneSecondCorrects(mean: nat, ns: int) {
    -3 * HALF_SECOND <= ns - mean % SECOND <= 3 * HALF_SECOND
  }

  /** A time near the mean is recovered from any number of its residue exactly when one second corrects it. */
  lemma ShiftedReadingRecovers(mean: nat, time: int, ns: int)
    requires (time - ns) % SECOND == 0 && -HALF_SECOND < time - mean < HALF_SECOND
    ensures NearestSecond(mean, ns) == time <==> OneSecondCorrects(mean, ns)
  {
    NearestSecondBounds(mean, ns);
    var k := (NearestSecond(mean, ns) - ns) / SECOND - (time - ns) / SECOND;
    assert NearestSecond(mean, ns) - time == SECOND * k;
  }

  /** Any time inside a poll window shorter than 1 s - 2 ns is close enough to the mean. */
  lemma PollWindowIsNarrow(begin: nat, end: nat, time: int)
    requires begin <= time <= end && end - begin < SECOND - 2
    ensures -HALF_SECOND < time - MeanPollTime(begin, end) < HALF_SECOND
  {
  }

  /** The bound is sharp: a window of 1 s - 2 ns can already lose its last nanosecond. */
  lemma {:induction false} WiderWindowCanFail()
    ensures var begin, end := 1_100_000_003, 2_100_000_001;
            end - begin == SECOND - 2
            && NearestSecond(MeanPollTime(begin, end), end % SECOND) != end
  {
  }

  /** CRT reading plus cable delay, brought into one second. */
  function PpsAdjusted(ts0: nat, ppsOffset: int): int {
    var r := Remainder(ts0 + ppsOffset, SECOND);
    if r < 0 then r + SECOND else r
  }

  /** CalculateTimestamp. */
  function HitTimestamp(ts0: nat, ppsOffset: int, lastPollStart: nat, thisPollEnd: nat): nat {
    U64(NearestSecond(MeanPollTime(lastPollStart, thisPollEnd), PpsAdjusted(ts0, ppsOffset)))
  }

  lemma PpsAdjustedIsModulo(ts0: nat, ppsOffset: int)
    ensures PpsAdjusted(ts0, ppsOffset) == (ts0 + ppsOffset) % SECOND
  {
    var x := ts0 + ppsOffset;
    if x < 0 {
      assert -x == SECOND * (-x / SECOND) + (-x) % SECOND;
    }
  }

  /** Every decoded CRT reading with a cable delay of up to a second stays in signed 32-bit arithmetic. */
  lemma PpsSumFits(ts0: nat, ppsOffset: int)
    requires ts0 <= 0x4000_0004 && -SECOND <= ppsOffset <= SECOND
    ensures -INT32_RANGE <= ts0 + ppsOffset < INT32_RANGE
  {
  }

  /** A CRT hit taken inside the poll window gets its true time back, whatever the cable delay. */
  lemma HitTimeIsRecovered(ts0: nat, ppsOffset: int, lastPollStart: nat, thisPollEnd: nat, time: nat)
    requires lastPollStart <= time <= thisPollEnd < UINT64_RANGE
    requires thisPollEnd - lastPollStart < SECOND - 2
    requires time % SECOND == (ts0 + ppsOffset) % SECOND
    ensures HitTimestamp(ts0, ppsOffset, lastPollStart, thisPollEnd) == time
  {
    PpsAdjustedIsModulo(ts0, ppsOffset);
    PollWindowIsNarrow(lastPollStart, thisPollEnd, time);
    RecoveredTimes(MeanPollTime(lastPollStart, thisPollEnd), time);
  }

  /** How a V1730 event is timed. */
  datatype TimestampMode = TimeTag | TimeTagShift(recordLength: nat, postPercent: nat) | PollEnd

  type Tag = t: nat | t < UINT32_RANGE

  /** What a time tag stands for, in nanoseconds truncated towards zero. */
  function TrueReading(mode: TimestampMode, timeTag: Tag): int {
    match mode
    case TimeTagShift(recordLength, postPercent) =>
      var x := timeTag * 800 - recordLength * 2 * postPercent;
      if x >= 0 then x / 100 else -(-x / 100)
    case _ => timeTag * 8
  }

  /** The reading as it is computed: without the shift in 32 bits, with it in floating point. */
  function TagReading(mode: TimestampMode, timeTag: Tag): int {
    if mode.TimeTagShift? then TrueReading(mode, timeTag) else timeTag * 8 % UINT32_RANGE
  }

  /** fTS as the producer computes it. */
  function EventTimestamp(mode: TimestampMode, timeTag: Tag, pollBegin: nat, pollEnd: nat, offset: nat): nat {
    match mode
    case PollEnd => U64(pollEnd - offset)
    case _ => U64(NearestSecond(MeanPollTime(pollBegin, pollEnd), TagReading(mode, timeTag)) - offset)
  }

  /**
   * With the shift, a tag stands for the start of its record: eight nanoseconds a tick, less the part of
   * the record after the trigger, at two nanoseconds a sample, and this is truncated towards zero.
   */
  lemma {:induction false} ShiftIsTruncated(recordLength: nat, postPercent: nat, timeTag: Tag)
    ensures var exact := 8.0 * timeTag as real - 2.0 * recordLength as real * (postPercent as real / 100.0);
            var reading := TrueReading(TimeTagShift(recordLength, postPercent), timeTag) as real;
            if exact >= 0.0 then reading <= exact < reading + 1.0 else reading - 1.0 < exact <= reading
  {
    var exact := 8.0 * timeTag as real - 2.0 * recordLength as real * (postPercent as real / 100.0);
    var x := timeTag * 800 - recordLength * 2 * postPercent;
    ProductAsReal(recordLength, postPercent);
    assert exact * 100.0 == x as real;
  }

  lemma ProductAsReal(a: nat, b: nat)
    ensures a as real * (b as real / 100.0) * 100.0 == (a * b) as real
  {
  }

  /** Stamped with the end of the poll, an event is late by the rest of the window and on time only at its end. */
  lemma PollEndIsLate(timeTag: Tag, pollBegin: nat, pollEnd: nat, offset: nat, time: nat)
    requires pollBegin <= time <= pollEnd < UINT64_RANGE && offset <= pollEnd
    ensures var stamp := EventTimestamp(PollEnd, timeTag, pollBegin, pollEnd, offset);
            && time - offset <= stamp <= time - offset + (pollEnd - pollBegin)
            && (stamp == time - offset <==> time == pollEnd)
  {
  }

  /** A reading that wrapped has lost its residue, and is far from any number of nanoseconds. */
  lemma WrappedReadingIsLost(mean: nat, timeTag: Tag)
    requires timeTag * 8 >= UINT32_RANGE
    ensures (timeTag * 8 - timeTag * 8 % UINT32_RANGE) % SECOND != 0
    ensures !OneSecondCorrects(mean, timeTag * 8)
  {
    var wraps := timeTag * 8 / UINT32_RANGE;
    assert timeTag * 8 - timeTag * 8 % UINT32_RANGE == UINT32_RANGE * wraps && 1 <= wraps < 8;
  }

  /**
   * A V1730 event taken inside the poll window gets its true time, up to the configured offset, exactly
   * when what its tag stands for is near enough to the mean's nanoseconds, as every time below a second is.
   */
  lemma EventTimeIsRecovered(mode: TimestampMode, timeTag: Tag, pollBegin: nat, pollEnd: nat, offset: nat, time: int)
    requires !mode.PollEnd?
    requires (time - TrueReading(mode, timeTag)) % SECOND == 0
    requires pollBegin <= time <= pollEnd && pollEnd - pollBegin < SECOND - 2
    ensures var mean, reading := MeanPollTime(pollBegin, pollEnd), TrueReading(mode, timeTag);
            && (NearestSecond(mean, TagReading(mode, timeTag)) == time <==> OneSecondCorrects(mean, reading))
            && (OneSecondCorrects(mean, reading) ==>
                  EventTimestamp(mode, timeTag, pollBegin, pollEnd, offset) == U64(time - offset))
            && (-HALF_SECOND <= reading <= SECOND ==> OneSecondCorrects(mean, reading))
  {
    var mean, reading := MeanPollTime(pollBegin, pollEnd), TrueReading(mode, timeTag);
    PollWindowIsNarrow(pollBegin, pollEnd, time);
    if TagReading(mode, timeTag) == reading {
      ShiftedReadingRecovers(mean, time, reading);
    } else {
      WrappedReadingIsLost(mean, timeTag);
      ResidueDecides(mean, time, reading, TagReading(mode, timeTag));
    }
  }

  lemma ResidueDecides(mean: nat, time: int, reading: int, other: int)
    requires (time - reading) % SECOND == 0 && (reading - other) % SECOND != 0
    ensures NearestSecond(mean, other) != time
  {
    NearestSecondBounds(mean, other);
  }

  /** A tag of two seconds, in a window around a whole second: the event is stamped a second late. */
  lemma {:induction false} LongTagIsLate(offset: nat)
    ensures var time := 10 * SECOND;
            EventTimestamp(TimeTag, 250_000_000, time - 1000, time + 1000, offset) == U64(time + SECOND - offset)
  {
  }
}
