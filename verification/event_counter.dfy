/** The V1730's 24-bit event counter: sequence ids that survive its overflow, and trigger gaps. */
module EventCounter {
  const COUNTER_RANGE: nat := 0x100_0000
  const EVENT_COUNTER_MASK: nat := 0xFF_FFFF
  const UINT32_RANGE: nat := 0x1_0000_0000

  /** The longest advance that is always recognised across an overflow. */
  const LONGEST_ADVANCE: nat := 1_677_722

  /** What the consumer remembers between fragments. */
  datatype Unwrapper = Unwrapper(lastCounter: nat, overflows: nat) {

    function Next(counter: nat): Unwrapper {
      if counter < lastCounter && lastCounter - counter > EVENT_COUNTER_MASK * 9 / 10
      then Unwrapper(counter, (overflows + 1) % UINT32_RANGE)
      else Unwrapper(counter, overflows)
    }

    function SequenceId(): nat {
      lastCounter + overflows * (EVENT_COUNTER_MASK + 1)
    }
  }

  const START: Unwrapper := Unwrapper(0, 0)

  /** The sequence ids given to fragments whose true event numbers are `numbers`. */
  function SequenceIds(u: Unwrapper, numbers: seq<nat>): (ids: seq<nat>)
    ensures |ids| == |numbers|
    decreases |numbers|
  {
    if numbers == [] then []
    else
      var next := u.Next(numbers[0] % COUNTER_RANGE);
      [next.SequenceId()] + SequenceIds(next, numbers[1..])
  }

  /** What is remembered after a run of fragments. */
  function After(u: Unwrapper, numbers: seq<nat>): Unwrapper
    decreases |numbers|
  {
    if numbers == [] then u else After(u.Next(numbers[0] % COUNTER_RANGE), numbers[1..])
  }

  lemma {:induction false} SequenceIdsGrow(u: Unwrapper, numbers: seq<nat>, number: nat)
    ensures After(u, numbers + [number]) == After(u, numbers).Next(number % COUNTER_RANGE)
    ensures SequenceIds(u, numbers + [number]) ==
            SequenceIds(u, numbers) + [After(u, numbers + [number]).SequenceId()]
    decreases |numbers|
  {
    if numbers != [] {
      assert (numbers + [number])[1..] == numbers[1..] + [number];
      SequenceIdsGrow(u.Next(numbers[0] % COUNTER_RANGE), numbers[1..], number);
    }
  }

  predicate Increasing(numbers: seq<nat>) {
    forall i, j | 0 <= i < j < |numbers| :: numbers[i] < numbers[j]
  }

  /** Numbers of a run start in the first epoch, increase, and end below 2^56 with the 32-bit overflow count. */
  predicate RunNumbers(numbers: seq<nat>) {
    && Increasing(numbers)
    && (numbers != [] ==> numbers[0] < COUNTER_RANGE)
    && forall n | n in numbers :: n / COUNTER_RANGE < UINT32_RANGE
  }

  lemma {:induction false} RunBegins(numbers: seq<nat>, more: seq<nat>)
    requires RunNumbers(numbers + more)
    ensures RunNumbers(numbers)
  {
    forall i, j | 0 <= i < j < |numbers|
      ensures numbers[i] < numbers[j]
    {
      assert (numbers + more)[i] < (numbers + more)[j];
    }
    assert numbers != [] ==> (numbers + more)[0] == numbers[0];
    forall n | n in numbers
      ensures n / COUNTER_RANGE < UINT32_RANGE
    {
      assert n in numbers + more;
    }
  }

  /** An advance is followed when it stays in its counter epoch, or enters the next one with a short step. */
  predicate Followed(from: nat, to: nat) {
    || to / COUNTER_RANGE == from / COUNTER_RANGE
    || (to / COUNTER_RANGE == from / COUNTER_RANGE + 1 && to - from <= LONGEST_ADVANCE)
  }

  predicate AllFollowed(numbers: seq<nat>) {
    forall i | 0 <= i < |numbers| - 1 :: Followed(numbers[i], numbers[i + 1])
  }

  function At(number: nat): Unwrapper {
    Unwrapper(number % COUNTER_RANGE, number / COUNTER_RANGE)
  }

  /** One step of the unwrapper is right exactly for the followed advances. */
  lemma StepIsRight(from: nat, to: nat)
    requires from < to && from / COUNTER_RANGE < UINT32_RANGE && to / COUNTER_RANGE < UINT32_RANGE
    ensures At(from).Next(to % COUNTER_RANGE).SequenceId() == to <==> Followed(from, to)
    ensures Followed(from, to) ==> At(from).Next(to % COUNTER_RANGE) == At(to)
  {
    var next := At(from).Next(to % COUNTER_RANGE);
    assert to == COUNTER_RANGE * (to / COUNTER_RANGE) + to % COUNTER_RANGE;
    assert next.SequenceId() == to <==> next.overflows == to / COUNTER_RANGE;
  }

  /** Sequence ids are the true event numbers, for a whole run, exactly when every advance is followed. */
  lemma {:induction false} SequenceIdsAreTrue(numbers: seq<nat>)
    requires RunNumbers(numbers)
    ensures SequenceIds(START, numbers) == numbers <==> AllFollowed(numbers)
  {
    if numbers != [] {
      assert START.Next(numbers[0]) == At(numbers[0]);
      SequenceIdsFrom(numbers);
    }
  }

  lemma {:induction false} SequenceIdsFrom(numbers: seq<nat>)
    requires numbers != [] && Increasing(numbers)
    requires forall n | n in numbers :: n / COUNTER_RANGE < UINT32_RANGE
    ensures [numbers[0]] + SequenceIds(At(numbers[0]), numbers[1..]) == numbers <==> AllFollowed(numbers)
    decreases |numbers|
  {
    var rest := numbers[1..];
    assert numbers == [numbers[0]] + rest;
    if rest != [] {
      assert rest[0] == numbers[1] && numbers[0] in numbers && numbers[1] in numbers;
      assert Increasing(rest) && forall n | n in rest :: n in numbers;
      StepIsRight(numbers[0], rest[0]);
      SequenceIdsFrom(rest);
      var next := At(numbers[0]).Next(rest[0] % COUNTER_RANGE);
      var ids := SequenceIds(At(numbers[0]), rest);
      assert ids == [next.SequenceId()] + SequenceIds(next, rest[1..]);
      if ids == rest {
        assert ids[0] == rest[0];
      }
      FollowedSplits(numbers);
    }
  }

  lemma {:induction false} FollowedSplits(numbers: seq<nat>)
    requires |numbers| >= 2
    ensures AllFollowed(numbers) <==> Followed(numbers[0], numbers[1]) && AllFollowed(numbers[1..])
  {
    var rest := numbers[1..];
    if Followed(numbers[0], numbers[1]) && AllFollowed(rest) {
      forall i | 0 <= i < |numbers| - 1
        ensures Followed(numbers[i], numbers[i + 1])
      {
        if i > 0 {
          var j := i - 1;
          assert Followed(rest[j], rest[j + 1]);
        }
      }
    }
    if AllFollowed(numbers) {
      assert Followed(numbers[0], numbers[0 + 1]);
      forall j | 0 <= j < |rest| - 1
        ensures Followed(rest[j], rest[j + 1])
      {
        var i := j + 1;
        assert Followed(numbers[i], numbers[i + 1]);
      }
    }
  }

  /** Advances of at most 1,677,722 are always followed; the next one up can fail. */
  lemma ShortAdvancesAreFollowed(from: nat, to: nat)
    requires from < to <= from + LONGEST_ADVANCE
    ensures Followed(from, to)
  {
  }

  lemma {:induction false} FirstAdvanceThatCanFail()
    ensures var from := COUNTER_RANGE - LONGEST_ADVANCE - 1;
            !Followed(from, from + LONGEST_ADVANCE + 1)
            && SequenceIds(START, [from, COUNTER_RANGE]) == [from, 0]
  {
    var from := COUNTER_RANGE - LONGEST_ADVANCE - 1;
    assert [from, COUNTER_RANGE][1..] == [COUNTER_RANGE];
    assert SequenceIds(START.Next(from), [COUNTER_RANGE]) == [0];
  }

  /** The producer's gap: a 32-bit difference of counters, masked to 24 bits. */
  function Gap(last: nat, current: nat): nat {
    (current - last) % UINT32_RANGE % COUNTER_RANGE
  }

  lemma GapIsAdvance(from: nat, to: nat)
    requires from <= to
    ensures Gap(from % COUNTER_RANGE, to % COUNTER_RANGE) == (to - from) % COUNTER_RANGE
  {
    var d := to % COUNTER_RANGE - from % COUNTER_RANGE;
    assert d % UINT32_RANGE == if d < 0 then d + UINT32_RANGE else d;
    assert to - from == COUNTER_RANGE * (to / COUNTER_RANGE - from / COUNTER_RANGE) + d;
  }

  /** Triggers reported over a run that starts at `last`. */
  function TotalGap(last: nat, numbers: seq<nat>): nat
    decreases |numbers|
  {
    if numbers == [] then 0
    else Gap(last % COUNTER_RANGE, numbers[0] % COUNTER_RANGE) + TotalGap(numbers[0], numbers[1..])
  }

  /** Every event number of the run is above the one before by less than 2^24. */
  predicate ShortGaps(last: nat, numbers: seq<nat>)
    decreases |numbers|
  {
    numbers == [] || (numbers[0] - last < COUNTER_RANGE && ShortGaps(numbers[0], numbers[1..]))
  }

  predicate IncreasingFrom(last: nat, numbers: seq<nat>)
    decreases |numbers|
  {
    numbers == [] || (last < numbers[0] && IncreasingFrom(numbers[0], numbers[1..]))
  }

  /** The gaps telescope to the true trigger count exactly when no advance reaches 2^24. */
  lemma {:induction false} GapsTelescope(last: nat, numbers: seq<nat>)
    requires numbers != [] && IncreasingFrom(last, numbers)
    ensures TotalGap(last, numbers) <= numbers[|numbers| - 1] - last
    ensures TotalGap(last, numbers) == numbers[|numbers| - 1] - last <==> ShortGaps(last, numbers)
    decreases |numbers|
  {
    GapIsAdvance(last, numbers[0]);
    if |numbers| > 1 {
      GapsTelescope(numbers[0], numbers[1..]);
    }
  }
}
