/**
 * CRT data over ZeroMQ: one packet carries the events of all boards, board after board, and a trailer
 * with the poll times; events are sorted into one buffer per board, and filtered on the way out.
 */
module ZmqGrouping {
  import opened Sequences
  import TimeRecovery
  import Bits

  const TRAILER_MAC: nat := 0xffff
  const MAGIC_NUMBER: nat := 0xaa55aa55
  const DUMMY_POLL_NS: nat := 300_000_000

  datatype Event = Event(mac5: nat, ts0: nat)

  datatype Trailer = Trailer(mac5: nat, flags: nat, magic: nat, version: nat, nEvents: nat, pollStart: nat,
                             pollEnd: nat)

  /** A board's key in the table of boards, which is indexed with eight bits. */
  function Key(mac5: nat): nat {
    mac5 % 0x100
  }

  datatype PollTimes = PollTimes(thisStart: nat, thisEnd: nat, lastStart: nat, lastEnd: nat)

  datatype Metadata = Metadata(times: PollTimes, eventsInPoll: nat, eventNumber: nat)

  datatype Stored = Stored(event: Event, metadata: Metadata)

  datatype Board = Board(buffer: seq<Stored>, eventNumber: nat, lastTimestamp: nat, lastNumber: nat) {

    /** A board's events of one group, numbered on from those before. */
    function Insert(group: seq<Event>, times: PollTimes): Board {
      this.(buffer := buffer + StoredGroup(group, times, eventNumber, |group|),
            eventNumber := (eventNumber + |group|) % 0x1_0000_0000)
    }

    /** Event numbers in the buffer are consecutive, and the next one follows. */
    predicate Consecutive() {
      forall j | 0 <= j < |buffer| :: buffer[j].metadata.eventNumber == (eventNumber - |buffer| + j) % 0x1_0000_0000
    }
  }

  /** What was stored is kept, and what is stored after it bears these poll times. */
  ghost predicate NewAreStamped(before: Board, after: Board, times: PollTimes) {
    && before.buffer <= after.buffer
    && forall i | |before.buffer| <= i < |after.buffer| :: after.buffer[i].metadata.times == times
  }

  const NEW_BOARD: Board := Board([], 0, 1, 0)

  /** The first events of a group as they are stored. */
  function StoredGroup(group: seq<Event>, times: PollTimes, first: nat, n: nat): seq<Stored>
    requires n <= |group|
  {
    seq(n, i requires 0 <= i < n => Stored(group[i], Metadata(times, |group|, (first + i) % 0x1_0000_0000)))
  }

  function EventsOf(stored: seq<Stored>): (events: seq<Event>)
    ensures |events| == |stored|
  {
    seq(|stored|, i requires 0 <= i < |stored| => stored[i].event)
  }

  /** A group goes to the board of its first event, if there is such a board. */
  function InsertGroup(boards: map<nat, Board>, group: seq<Event>, times: PollTimes): (more: map<nat, Board>)
    requires group != []
    ensures more.Keys == boards.Keys
  {
    var key := Key(group[0].mac5);
    if key in boards then boards[key := boards[key].Insert(group, times)] else boards
  }

  /** Sorting: a group is inserted when an event of another board, or the trailer, ends it. */
  function Route(boards: map<nat, Board>, group: seq<Event>, rest: seq<Event>, times: PollTimes)
      : (more: map<nat, Board>)
    ensures more.Keys == boards.Keys
    decreases |rest|
  {
    if rest == [] then boards
    else if group != [] && group[0].mac5 != rest[0].mac5
    then Route(InsertGroup(boards, group, times), [rest[0]], rest[1..], times)
    else Route(boards, group + [rest[0]], rest[1..], times)
  }

  /** The events of the board with a key. */
  function OfKey(events: seq<Event>, key: nat): seq<Event> {
    if events == [] then []
    else
      var last := |events| - 1;
      OfKey(events[..last], key) + if Key(events[last].mac5) == key then [events[last]] else []
  }

  lemma {:induction false} OfKeyJoins(a: seq<Event>, b: seq<Event>, key: nat)
    ensures OfKey(a + b, key) == OfKey(a, key) + OfKey(b, key)
    decreases |b|
  {
    if b == [] {
      assert a + b == a;
    } else {
      assert (a + b)[..|a + b| - 1] == a + b[..|b| - 1];
      OfKeyJoins(a, b[..|b| - 1], key);
    }
  }

  predicate OneMac(group: seq<Event>) {
    forall i | 0 <= i < |group| :: group[i].mac5 == group[0].mac5
  }

  lemma {:induction false} OfKeyStep(events: seq<Event>, e: Event, key: nat)
    ensures OfKey(events + [e], key) == if Key(e.mac5) == key then OfKey(events, key) + [e] else OfKey(events, key)
  {
    assert (events + [e])[..|events|] == events;
  }

  lemma {:induction false} OfKeyOfGroup(group: seq<Event>, key: nat)
    requires OneMac(group)
    ensures OfKey(group, key) == if group != [] && Key(group[0].mac5) == key then group else []
    decreases |group|
  {
    if group != [] {
      var n := |group| - 1;
      var first := group[..n];
      assert group == first + [group[n]];
      assert n > 0 ==> first[0] == group[0];
      assert group[n].mac5 == group[0].mac5;
      OfKeyOfGroup(first, key);
      OfKeyStep(first, group[n], key);
      assert n == 0 ==> first == [];
    }
  }

  /** The events without the last ones that bear a given address. */
  function WithoutTail(events: seq<Event>, mac5: nat): seq<Event> {
    if events != [] && events[|events| - 1].mac5 == mac5 then WithoutTail(events[..|events| - 1], mac5) else events
  }

  lemma {:induction false} WithoutTailOfGroup(events: seq<Event>, group: seq<Event>, mac5: nat)
    requires forall i | 0 <= i < |group| :: group[i].mac5 == mac5
    ensures WithoutTail(events + group, mac5) == WithoutTail(events, mac5)
    decreases |group|
  {
    if group == [] {
      assert events + group == events;
    } else {
      var n := |group| - 1;
      assert (events + group)[..|events| + n] == events + group[..n];
      WithoutTailOfGroup(events, group[..n], mac5);
    }
  }

  lemma {:induction false} WithoutTailJoins(a: seq<Event>, b: seq<Event>, mac5: nat)
    requires a == [] || a[|a| - 1].mac5 != mac5
    ensures WithoutTail(a + b, mac5) == a + WithoutTail(b, mac5)
    decreases |b|
  {
    if b == [] {
      assert a + b == a;
    } else if b[|b| - 1].mac5 == mac5 {
      assert (a + b)[..|a + b| - 1] == a + b[..|b| - 1];
      WithoutTailJoins(a, b[..|b| - 1], mac5);
    }
  }

  /** What one insertion does for a board: its events at the end, in order, and nothing for others. */
  lemma InsertGroupAppends(boards: map<nat, Board>, group: seq<Event>, times: PollTimes, key: nat)
    requires group != [] && OneMac(group) && key in boards
    ensures EventsOf(InsertGroup(boards, group, times)[key].buffer) == EventsOf(boards[key].buffer) + OfKey(group, key)
  {
    OfKeyOfGroup(group, key);
  }

  lemma {:induction false} RouteEnds(boards: map<nat, Board>, group: seq<Event>, trailer: Event, times: PollTimes,
                                     key: nat)
    requires OneMac(group) && key in boards
    ensures EventsOf(Route(boards, group, [trailer], times)[key].buffer)
            == EventsOf(boards[key].buffer) + OfKey(WithoutTail(group, trailer.mac5), key)
  {
    assert [trailer][1..] == [];
    if group != [] && group[0].mac5 != trailer.mac5 {
      InsertGroupAppends(boards, group, times, key);
      assert Route(boards, group, [trailer], times) == Route(InsertGroup(boards, group, times), [trailer], [], times);
    } else {
      WithoutTailOfGroup([], group, trailer.mac5);
      assert [] + group == group;
      assert Route(boards, group, [trailer], times) == Route(boards, group + [trailer], [], times);
    }
  }

  /** One turn of the sorting loop, whose running group is the n events before event i. */
  lemma {:induction false} RouteTurn(boards: map<nat, Board>, events: seq<Event>, i: nat, n: nat, times: PollTimes)
    requires n <= i < |events|
    ensures Route(boards, events[i - n..i], events[i..], times)
            == if n > 0 && events[i - n].mac5 != events[i].mac5
               then Route(InsertGroup(boards, events[i - n..i], times), events[i..i + 1], events[i + 1..], times)
               else Route(boards, events[i - n..i + 1], events[i + 1..], times)
    ensures OneMac(events[i..i + 1])
    ensures OneMac(events[i - n..i]) && (n > 0 ==> events[i - n].mac5 == events[i].mac5) ==>
              OneMac(events[i - n..i + 1]) && events[i - n].mac5 == events[i].mac5
  {
    assert events[i..][1..] == events[i + 1..];
    assert events[i..i + 1] == [events[i]];
    assert events[i - n..i + 1] == events[i - n..i] + [events[i]];
  }

  /** One turn of the sorting, on events that are not the last before the trailer. */
  lemma {:induction false} RouteNext(boards: map<nat, Board>, group: seq<Event>, rest: seq<Event>, trailer: Event,
                                     times: PollTimes)
    requires rest != []
    ensures Route(boards, group, rest + [trailer], times)
            == if group != [] && group[0].mac5 != rest[0].mac5
               then Route(InsertGroup(boards, group, times), [rest[0]], rest[1..] + [trailer], times)
               else Route(boards, group + [rest[0]], rest[1..] + [trailer], times)
  {
    assert (rest + [trailer])[1..] == rest[1..] + [trailer] && (rest + [trailer])[0] == rest[0];
  }

  /** What a board gets when a group is inserted before the rest is sorted. */
  lemma {:induction false} GroupThenRest(boards: map<nat, Board>, group: seq<Event>, rest: seq<Event>, mac5: nat,
                                         times: PollTimes, key: nat)
    requires OneMac(group) && group != [] && rest != [] && group[0].mac5 != rest[0].mac5 && key in boards
    ensures EventsOf(InsertGroup(boards, group, times)[key].buffer) + OfKey(WithoutTail(rest, mac5), key)
            == EventsOf(boards[key].buffer) + OfKey(WithoutTail(group + rest, mac5), key)
  {
    InsertGroupAppends(boards, group, times, key);
    GroupIsKept(group, rest, mac5);
    OfKeyJoins(group, WithoutTail(rest, mac5), key);
    Associate(EventsOf(boards[key].buffer), OfKey(group, key), OfKey(WithoutTail(rest, mac5), key));
  }

  /** Sorting appends to each board its own events in order, all but those last in line before the trailer. */
  lemma {:induction false} RouteSorts(boards: map<nat, Board>, group: seq<Event>, rest: seq<Event>, trailer: Event,
                                      times: PollTimes, key: nat)
    requires OneMac(group) && key in boards
    ensures EventsOf(Route(boards, group, rest + [trailer], times)[key].buffer)
            == EventsOf(boards[key].buffer) + OfKey(WithoutTail(group + rest, trailer.mac5), key)
    decreases |rest|
  {
    if rest == [] {
      RouteEnds(boards, group, trailer, times, key);
      assert rest + [trailer] == [trailer] && group + rest == group;
    } else {
      RouteNext(boards, group, rest, trailer, times);
      if group != [] && group[0].mac5 != rest[0].mac5 {
        RouteSorts(InsertGroup(boards, group, times), [rest[0]], rest[1..], trailer, times, key);
        assert [rest[0]] + rest[1..] == rest;
        GroupThenRest(boards, group, rest, trailer.mac5, times, key);
      } else {
        RouteSorts(boards, group + [rest[0]], rest[1..], trailer, times, key);
        assert group + [rest[0]] + rest[1..] == group + rest;
      }
    }
  }

  /** A group followed by an event of another board is not part of the tail. */
  lemma GroupIsKept(group: seq<Event>, rest: seq<Event>, mac5: nat)
    requires group != [] && OneMac(group) && rest != [] && rest[0].mac5 != group[0].mac5
    ensures WithoutTail(group + rest, mac5) == group + WithoutTail(rest, mac5)
  {
    if group[0].mac5 != mac5 {
      assert group[|group| - 1].mac5 == group[0].mac5;
      WithoutTailJoins(group, rest, mac5);
    } else {
      TailStays(group, rest, mac5);
    }
  }

  lemma {:induction false} TailStays(a: seq<Event>, b: seq<Event>, mac5: nat)
    requires b != [] && b[0].mac5 != mac5
    ensures WithoutTail(a + b, mac5) == a + WithoutTail(b, mac5)
    decreases |b|
  {
    if b[|b| - 1].mac5 == mac5 {
      assert (a + b)[..|a + b| - 1] == a + b[..|b| - 1];
      TailStays(a, b[..|b| - 1], mac5);
    }
  }

  /** Each board's buffer has grown by the board's own events, in order. */
  ghost predicate SortedInto(boards: map<nat, Board>, more: map<nat, Board>, events: seq<Event>) {
    more.Keys == boards.Keys
    && forall key | key in boards :: EventsOf(more[key].buffer) == EventsOf(boards[key].buffer) + OfKey(events, key)
  }

  /**
   * Main result on sorting: every event but the trailer reaches the end of its own board's buffer, in
   * order, exactly when the one right before the trailer does not bear the trailer's address or there is
   * no board of that address.
   */
  lemma {:induction false} EveryEventIsSorted(boards: map<nat, Board>, events: seq<Event>, trailer: Event,
                                              times: PollTimes)
    ensures SortedInto(boards, Route(boards, [], events + [trailer], times), events) <==>
            || events == []
            || events[|events| - 1].mac5 != trailer.mac5
            || Key(trailer.mac5) !in boards
  {
    var more, kept := Route(boards, [], events + [trailer], times), WithoutTail(events, trailer.mac5);
    forall key | key in boards
      ensures EventsOf(more[key].buffer) == EventsOf(boards[key].buffer) + OfKey(kept, key)
    {
      RouteSorts(boards, [], events, trailer, times, key);
      assert [] + events == events;
    }
    forall key | key in boards
      ensures OfKey(kept, key) == OfKey(events, key)
              <==> kept == events || key != Key(trailer.mac5)
    {
      TailIsOfKey(events, trailer.mac5, key);
    }
    if Key(trailer.mac5) in boards && kept != events {
      var key := Key(trailer.mac5);
      SamePrefix(EventsOf(boards[key].buffer), OfKey(kept, key), OfKey(events, key));
    }
    TailIsShorter(events, trailer.mac5);
  }

  lemma {:induction false} SamePrefix(a: seq<Event>, b: seq<Event>, c: seq<Event>)
    ensures a + b == a + c <==> b == c
  {
    assert (a + b)[|a|..] == b && (a + c)[|a|..] == c;
  }

  lemma {:induction false} TailIsShorter(events: seq<Event>, mac5: nat)
    ensures |WithoutTail(events, mac5)| <= |events|
    ensures WithoutTail(events, mac5) == events <==> events == [] || events[|events| - 1].mac5 != mac5
  {
    if events != [] && events[|events| - 1].mac5 == mac5 {
      TailIsShorter(events[..|events| - 1], mac5);
    }
  }

  /** The tail is missing from its own board, and from no other. */
  lemma {:induction false} TailIsOfKey(events: seq<Event>, mac5: nat, key: nat)
    ensures |OfKey(WithoutTail(events, mac5), key)| <= |OfKey(events, key)|
    ensures OfKey(WithoutTail(events, mac5), key) == OfKey(events, key)
            <==> WithoutTail(events, mac5) == events || key != Key(mac5)
  {
    if events != [] && events[|events| - 1].mac5 == mac5 {
      TailIsShorter(events, mac5);
      TailIsOfKey(events[..|events| - 1], mac5, key);
    }
  }

  /** A packet of one event that bears the trailer's address, for a board of that address: it is lost. */
  lemma {:induction false} TailIsLost(ts0: nat, trailer: Event, times: PollTimes)
    requires trailer.mac5 == TRAILER_MAC
    ensures Key(TRAILER_MAC) == 0xff
    ensures Route(map[0xff := NEW_BOARD], [], [Event(TRAILER_MAC, ts0)] + [trailer], times)[0xff].buffer == []
  {
    var event, boards := Event(TRAILER_MAC, ts0), map[0xff := NEW_BOARD];
    RouteSorts(boards, [], [event], trailer, times, 0xff);
    assert [event][..0] == [] && [] + [event] == [event];
  }

  ghost predicate AllConsecutive(boards: map<nat, Board>) {
    forall key | key in boards :: boards[key].Consecutive()
  }

  lemma InsertKeepsNumbers(b: Board, group: seq<Event>, times: PollTimes)
    requires b.Consecutive()
    ensures b.Insert(group, times).Consecutive()
  {
    var more := b.Insert(group, times);
    forall j | 0 <= j < |more.buffer|
      ensures more.buffer[j].metadata.eventNumber == (more.eventNumber - |more.buffer| + j) % 0x1_0000_0000
    {
      SumInside(b.eventNumber + |group|, j - |more.buffer|);
    }
  }

  lemma SumInside(x: nat, y: int)
    ensures (x % 0x1_0000_0000 + y) % 0x1_0000_0000 == (x + y) % 0x1_0000_0000
  {
  }

  /** Whatever the packets, a board's events are numbered without gaps. */
  lemma {:induction false} RouteKeepsNumbers(boards: map<nat, Board>, group: seq<Event>, rest: seq<Event>,
                                             times: PollTimes)
    requires AllConsecutive(boards)
    ensures AllConsecutive(Route(boards, group, rest, times))
    decreases |rest|
  {
    if rest != [] {
      if group != [] && group[0].mac5 != rest[0].mac5 {
        var key := Key(group[0].mac5);
        if key in boards {
          InsertKeepsNumbers(boards[key], group, times);
        }
        RouteKeepsNumbers(InsertGroup(boards, group, times), [rest[0]], rest[1..], times);
      } else {
        RouteKeepsNumbers(boards, group + [rest[0]], rest[1..], times);
      }
    }
  }

  /** The new events are those of the group, each with the poll times and the size of the group. */
  lemma InsertStamps(b: Board, group: seq<Event>, times: PollTimes)
    ensures NewAreStamped(b, b.Insert(group, times), times)
    ensures var more := b.Insert(group, times).buffer;
            |more| == |b.buffer| + |group|
            && forall i | 0 <= i < |group| ::
                 more[|b.buffer| + i].event == group[i] && more[|b.buffer| + i].metadata.eventsInPoll == |group|
  {
  }

  lemma {:induction false} RouteStamps(boards: map<nat, Board>, group: seq<Event>, rest: seq<Event>,
                                       times: PollTimes, key: nat)
    requires key in boards
    ensures NewAreStamped(boards[key], Route(boards, group, rest, times)[key], times)
    decreases |rest|
  {
    if rest != [] {
      if group != [] && group[0].mac5 != rest[0].mac5 {
        InsertStamps(boards[key], group, times);
        RouteStamps(InsertGroup(boards, group, times), [rest[0]], rest[1..], times, key);
      } else {
        RouteStamps(boards, group + [rest[0]], rest[1..], times, key);
      }
    }
  }

  /** An event on its way out: its time, and whether it agrees with the poll it was read in. */
  datatype Candidate = Candidate(stored: Stored, timestamp: nat, inSync: bool)

  /** How events are timed and filtered. */
  datatype Filter = Filter(omitOutOfSync: bool, omitOutOfOrder: bool, tolerance: int, ppsOffset: int) {

    function Timestamp(s: Stored): nat {
      TimeRecovery.U64(TimeRecovery.NearestSecondByCases(
        TimeRecovery.MeanPollTime(s.metadata.times.lastStart, s.metadata.times.thisEnd),
        TimeRecovery.PpsAdjusted(s.event.ts0, ppsOffset)))
    }

    predicate InSync(times: PollTimes, timestamp: nat) {
      !omitOutOfSync
      || TimeRecovery.U64(times.lastStart - tolerance) <= timestamp <= TimeRecovery.U64(times.thisEnd + tolerance)
    }

    function Judge(s: Stored): Candidate {
      Candidate(s, Timestamp(s), InSync(s.metadata.times, Timestamp(s)))
    }

    function Candidates(stored: seq<Stored>): (cs: seq<Candidate>)
      ensures |cs| == |stored|
    {
      seq(|stored|, i requires 0 <= i < |stored| => Judge(stored[i]))
    }
  }

  /** Both generators time a hit alike. */
  lemma TimestampIsHitTimestamp(f: Filter, s: Stored)
    ensures f.Timestamp(s)
            == TimeRecovery.HitTimestamp(s.event.ts0, f.ppsOffset, s.metadata.times.lastStart, s.metadata.times.thisEnd)
  {
    TimeRecovery.FormsAgree(TimeRecovery.MeanPollTime(s.metadata.times.lastStart, s.metadata.times.thisEnd),
                            TimeRecovery.PpsAdjusted(s.event.ts0, f.ppsOffset));
  }

  /** The filter's memory of the last event sent from a board. */
  datatype Last = Last(timestamp: nat, number: nat)

  const NOTHING_SENT: Last := Last(NEW_BOARD.lastTimestamp, NEW_BOARD.lastNumber)

  datatype Accepted = Accepted(stored: Stored, timestamp: nat, omitted: nat, lastTimestamp: nat)

  predicate Accepts(ordered: bool, last: Last, c: Candidate) {
    c.inSync && (ordered ==> c.timestamp > last.timestamp)
  }

  function After(ordered: bool, last: Last, cs: seq<Candidate>): Last
    decreases |cs|
  {
    if cs == [] then last
    else
      var n := |cs| - 1;
      var before := After(ordered, last, cs[..n]);
      if Accepts(ordered, before, cs[n]) then Last(cs[n].timestamp, cs[n].stored.metadata.eventNumber) else before
  }

  function Fragment(last: Last, c: Candidate): Accepted {
    Accepted(c.stored, c.timestamp, (c.stored.metadata.eventNumber - last.number - 1) % 0x1_0000_0000, last.timestamp)
  }

  function Sent(ordered: bool, last: Last, cs: seq<Candidate>): seq<Accepted>
    decreases |cs|
  {
    if cs == [] then []
    else
      var n := |cs| - 1;
      var before := After(ordered, last, cs[..n]);
      Sent(ordered, last, cs[..n]) + if Accepts(ordered, before, cs[n]) then [Fragment(before, cs[n])] else []
  }

  /** It makes no difference in how many calls a board's events are sent. */
  lemma {:induction false} CallsJoin(ordered: bool, last: Last, a: seq<Candidate>, b: seq<Candidate>)
    ensures After(ordered, last, a + b) == After(ordered, After(ordered, last, a), b)
    ensures Sent(ordered, last, a + b) == Sent(ordered, last, a) + Sent(ordered, After(ordered, last, a), b)
    decreases |b|
  {
    if b == [] {
      assert a + b == a;
    } else {
      var n := |b| - 1;
      assert (a + b)[..|a| + n] == a + b[..n];
      CallsJoin(ordered, last, a, b[..n]);
    }
  }

  /** With ordering on, the filter's memory bounds everything in sync so far, and is one of it or what it was. */
  lemma {:induction false} LastIsLatest(last: Last, cs: seq<Candidate>)
    ensures After(true, last, cs).timestamp >= last.timestamp
    ensures forall i | 0 <= i < |cs| && cs[i].inSync :: cs[i].timestamp <= After(true, last, cs).timestamp
    ensures After(true, last, cs).timestamp == last.timestamp
            || exists i :: 0 <= i < |cs| && cs[i].inSync && cs[i].timestamp == After(true, last, cs).timestamp
    decreases |cs|
  {
    if cs != [] {
      var n := |cs| - 1;
      LastIsLatest(last, cs[..n]);
      assert forall i | 0 <= i < n :: cs[..n][i] == cs[i];
    }
  }

  /** An event is sent exactly when it is in sync and later than everything in sync before it. */
  lemma SentAreRecords(last: Last, cs: seq<Candidate>, n: nat)
    requires n < |cs|
    ensures Accepts(true, After(true, last, cs[..n]), cs[n]) <==>
              && cs[n].inSync && cs[n].timestamp > last.timestamp
              && forall i | 0 <= i < n && cs[i].inSync :: cs[i].timestamp < cs[n].timestamp
  {
    LastIsLatest(last, cs[..n]);
    assert forall i | 0 <= i < n :: cs[..n][i] == cs[i];
  }

  // ---------------------------------------------------------------------------------
  // What is in sync
  // ---------------------------------------------------------------------------------

  /** The poll times an event was stored with, widened by the tolerance, stay within 64 bits. */
  predicate HasRange(times: PollTimes, tolerance: int) {
    && 0 <= times.lastStart - tolerance < TimeRecovery.UINT64_RANGE
    && 0 <= times.thisEnd + tolerance < TimeRecovery.UINT64_RANGE
  }

  predicate InRange(times: PollTimes, tolerance: int, timestamp: nat) {
    times.lastStart - tolerance <= timestamp <= times.thisEnd + tolerance
  }

  lemma InSyncIsInRange(f: Filter, times: PollTimes, timestamp: nat)
    requires f.omitOutOfSync ==> HasRange(times, f.tolerance)
    ensures f.InSync(times, timestamp) <==> (f.omitOutOfSync ==> InRange(times, f.tolerance, timestamp))
  {
  }

  /** A tolerance larger than the start of the poll before makes the lower end wrap. */
  lemma WrappedRangeIsEmpty(f: Filter, times: PollTimes, timestamp: nat)
    requires f.omitOutOfSync && times.lastStart < f.tolerance
    requires times.thisEnd + 2 * f.tolerance < TimeRecovery.UINT64_RANGE
    ensures !f.InSync(times, timestamp)
  {
    assert times.lastStart - f.tolerance + TimeRecovery.UINT64_RANGE
           == TimeRecovery.U64(times.lastStart - f.tolerance);
  }

  /** The time of a stored event. */
  function TimeOf(s: Stored, ppsOffset: int): nat {
    TimeRecovery.HitTimestamp(s.event.ts0, ppsOffset, s.metadata.times.lastStart, s.metadata.times.thisEnd)
  }

  /** The time of the last event sent. */
  function LatestSent(last: Last, out: seq<Accepted>): nat {
    if out == [] then last.timestamp else out[|out| - 1].timestamp
  }

  /** Which events are to be sent: those in range and later than the last one sent, as far as each is asked for. */
  predicate ToBeSent(f: Filter, s: Stored, latest: nat) {
    && (f.omitOutOfSync ==> InRange(s.metadata.times, f.tolerance, TimeOf(s, f.ppsOffset)))
    && (f.omitOutOfOrder ==> TimeOf(s, f.ppsOffset) > latest)
  }

  lemma {:induction false} LastIsLatestSent(ordered: bool, last: Last, cs: seq<Candidate>)
    ensures After(ordered, last, cs).timestamp == LatestSent(last, Sent(ordered, last, cs))
    decreases |cs|
  {
    if cs != [] {
      LastIsLatestSent(ordered, last, cs[..|cs| - 1]);
    }
  }

  /** What one more event adds to what is sent. */
  lemma {:induction false} SentGrows(f: Filter, last: Last, stored: seq<Stored>, s: Stored)
    ensures var c, before := f.Judge(s), After(f.omitOutOfOrder, last, f.Candidates(stored));
            Sent(f.omitOutOfOrder, last, f.Candidates(stored + [s]))
            == Sent(f.omitOutOfOrder, last, f.Candidates(stored))
               + if Accepts(f.omitOutOfOrder, before, c) then [Fragment(before, c)] else []
  {
    assert f.Candidates(stored + [s])[..|stored|] == f.Candidates(stored);
  }

  /** What is sent after one more event that is to be sent. */
  ghost predicate AlsoSent(out: seq<Accepted>, more: seq<Accepted>, s: Stored, timestamp: nat, latest: nat) {
    && out < more && |more| == |out| + 1
    && more[|out|].stored == s && more[|out|].timestamp == timestamp && more[|out|].lastTimestamp == latest
  }

  /**
   * Main result on the filter: while the range stays within 64 bits, the next event stored is sent exactly
   * when it is to be, with its time and the time of the one sent before.
   */
  lemma {:induction false} InRangeIsSent(f: Filter, last: Last, stored: seq<Stored>, s: Stored)
    requires f.omitOutOfSync ==> HasRange(s.metadata.times, f.tolerance)
    ensures var out := Sent(f.omitOutOfOrder, last, f.Candidates(stored));
            var more := Sent(f.omitOutOfOrder, last, f.Candidates(stored + [s]));
            var latest := LatestSent(last, out);
            if ToBeSent(f, s, latest) then AlsoSent(out, more, s, TimeOf(s, f.ppsOffset), latest) else more == out
  {
    SentGrows(f, last, stored, s);
    LastIsLatestSent(f.omitOutOfOrder, last, f.Candidates(stored));
    TimestampIsHitTimestamp(f, s);
    InSyncIsInRange(f, s.metadata.times, f.Timestamp(s));
  }

  /** If the lower end of the range has wrapped, the event is never sent. */
  lemma {:induction false} WrappedRangeSendsNothing(f: Filter, last: Last, stored: seq<Stored>, s: Stored)
    requires f.omitOutOfSync && s.metadata.times.lastStart < f.tolerance
    requires s.metadata.times.thisEnd + 2 * f.tolerance < TimeRecovery.UINT64_RANGE
    ensures Sent(f.omitOutOfOrder, last, f.Candidates(stored + [s]))
            == Sent(f.omitOutOfOrder, last, f.Candidates(stored))
  {
    SentGrows(f, last, stored, s);
    WrappedRangeIsEmpty(f, s.metadata.times, f.Timestamp(s));
  }

  /** Every event sent bears its own time, which is in range if that is asked for. */
  ghost predicate OnlyInRange(f: Filter, out: seq<Accepted>) {
    forall k | 0 <= k < |out| :: SentRightly(f, out[k])
  }

  predicate SentRightly(f: Filter, a: Accepted) {
    && a.timestamp == TimeOf(a.stored, f.ppsOffset)
    && (f.omitOutOfSync && HasRange(a.stored.metadata.times, f.tolerance) ==>
          InRange(a.stored.metadata.times, f.tolerance, a.timestamp))
  }

  lemma {:induction false} SentAreInRange(f: Filter, last: Last, stored: seq<Stored>)
    ensures OnlyInRange(f, Sent(f.omitOutOfOrder, last, f.Candidates(stored)))
    decreases |stored|
  {
    if stored != [] {
      var n := |stored| - 1;
      SentAreInRange(f, last, stored[..n]);
      SentGrows(f, last, stored[..n], stored[n]);
      assert stored[..n] + [stored[n]] == stored;
      TimestampIsHitTimestamp(f, stored[n]);
      if HasRange(stored[n].metadata.times, f.tolerance) {
        InSyncIsInRange(f, stored[n].metadata.times, f.Timestamp(stored[n]));
      }
    }
  }

  /** These are all the events, in order. */
  ghost predicate AllSent(stored: seq<Stored>, out: seq<Accepted>) {
    |out| == |stored| && forall k | 0 <= k < |out| :: out[k].stored == stored[k]
  }

  lemma {:induction false} UnfilteredIsAllSent(f: Filter, last: Last, stored: seq<Stored>)
    requires !f.omitOutOfSync && !f.omitOutOfOrder
    ensures AllSent(stored, Sent(false, last, f.Candidates(stored)))
    decreases |stored|
  {
    if stored != [] {
      var n := |stored| - 1;
      UnfilteredIsAllSent(f, last, stored[..n]);
      SentGrows(f, last, stored[..n], stored[n]);
      assert stored[..n] + [stored[n]] == stored;
    }
  }

  /** What a board has sent: times go up, and each fragment names the time of the one before. */
  ghost predicate Ordered(out: seq<Accepted>, first: nat, last: nat) {
    && (forall k | 0 <= k < |out| :: first < out[k].timestamp <= last)
    && (forall j, k | 0 <= j < k < |out| :: out[j].timestamp < out[k].timestamp)
    && last == (if out == [] then first else out[|out| - 1].timestamp)
    && forall k {:trigger PreviousTimestamp(out, first, k)} | 0 <= k < |out| ::
         out[k].lastTimestamp == PreviousTimestamp(out, first, k)
  }

  function PreviousTimestamp(out: seq<Accepted>, first: nat, k: nat): nat
    requires k < |out|
  {
    if k == 0 then first else out[k - 1].timestamp
  }

  /** Main result on order: timestamps sent by a board strictly increase, over all calls. */
  lemma {:induction false} SentTimestampsIncrease(last: Last, cs: seq<Candidate>)
    ensures Ordered(Sent(true, last, cs), last.timestamp, After(true, last, cs).timestamp)
    decreases |cs|
  {
    if cs != [] {
      var n := |cs| - 1;
      SentTimestampsIncrease(last, cs[..n]);
      var before := After(true, last, cs[..n]);
      if Accepts(true, before, cs[n]) {
        OrderedGrows(Sent(true, last, cs[..n]), Fragment(before, cs[n]), last.timestamp, before.timestamp);
      } else {
        assert Sent(true, last, cs) == Sent(true, last, cs[..n]);
      }
    }
  }

  lemma OrderedGrows(out: seq<Accepted>, a: Accepted, first: nat, last: nat)
    requires Ordered(out, first, last) && first <= last < a.timestamp && a.lastTimestamp == last
    ensures Ordered(out + [a], first, a.timestamp)
  {
    var more := out + [a];
    forall k | 0 <= k < |more|
      ensures more[k].lastTimestamp == PreviousTimestamp(more, first, k)
    {
      if k < |out| {
        assert out[k].lastTimestamp == PreviousTimestamp(out, first, k);
      }
    }
  }

  /** Events since the last one sent. */
  function Pending(ordered: bool, last: Last, cs: seq<Candidate>): nat
    decreases |cs|
  {
    if cs == [] then 0
    else
      var n := |cs| - 1;
      if Accepts(ordered, After(ordered, last, cs[..n]), cs[n]) then 0 else Pending(ordered, last, cs[..n]) + 1
  }

  /** Candidate j is numbered first + j. */
  predicate NumberedFrom(cs: seq<Candidate>, first: int) {
    forall j | 0 <= j < |cs| :: cs[j].stored.metadata.eventNumber == (first + j) % 0x1_0000_0000
  }

  /**
   * With numbers consecutive from first on, every fragment but the first reports the events omitted since
   * the one before it. The first reports those since the event the filter remembers; as it starts out
   * remembering event 0, which is the first, it then reports one too few.
   */
  lemma {:induction false} OmissionsAreCounted(ordered: bool, last: Last, cs: seq<Candidate>, first: int, n: nat)
    requires NumberedFrom(cs, first) && n < |cs| && Accepts(ordered, After(ordered, last, cs[..n]), cs[n])
    ensures var reported := Fragment(After(ordered, last, cs[..n]), cs[n]).omitted;
            reported == (if Sent(ordered, last, cs[..n]) != [] then Pending(ordered, last, cs[..n])
                         else Pending(ordered, last, cs[..n]) + first - last.number - 1) % 0x1_0000_0000
  {
    PendingIsGap(ordered, last, cs, first, n);
    var before, pending := After(ordered, last, cs[..n]).number, Pending(ordered, last, cs[..n]);
    if Sent(ordered, last, cs[..n]) != [] {
      OmittedLater(before, pending, first, n);
    } else {
      OmittedFirst(before, first, n);
    }
  }

  lemma {:induction false} PendingIsGap(ordered: bool, last: Last, cs: seq<Candidate>, first: int, n: nat)
    requires NumberedFrom(cs, first) && n <= |cs|
    ensures if Sent(ordered, last, cs[..n]) == []
            then After(ordered, last, cs[..n]) == last && Pending(ordered, last, cs[..n]) == n
            else Follows(After(ordered, last, cs[..n]).number, Pending(ordered, last, cs[..n]), first + n)
  {
    if n > 0 {
      PendingIsGap(ordered, last, cs, first, n - 1);
      assert cs[..n][..n - 1] == cs[..n - 1] && cs[..n][n - 1] == cs[n - 1];
      FollowsNext(first + n - 1);
    }
  }

  /** A number with so many events after it, before the next one. */
  predicate Follows(number: nat, pending: nat, next: int) {
    (number + 1 + pending - next) % 0x1_0000_0000 == 0
  }

  lemma FollowsNext(number: int)
    ensures Follows(number % 0x1_0000_0000, 0, number + 1)
  {
  }

  lemma OmittedLater(number: nat, pending: nat, first: int, n: nat)
    requires Follows(number, pending, first + n)
    ensures ((first + n) % 0x1_0000_0000 - number - 1) % 0x1_0000_0000 == pending % 0x1_0000_0000
  {
  }

  lemma OmittedFirst(number: nat, first: int, n: nat)
    ensures ((first + n) % 0x1_0000_0000 - number - 1) % 0x1_0000_0000 == (n + first - number - 1) % 0x1_0000_0000
  {
  }

  /** The very first event of a run, when nothing was omitted, reports 2^32 - 1 omissions. */
  lemma FirstOmissionWraps(ordered: bool, c: Candidate)
    requires c.stored.metadata.eventNumber == 0 && Accepts(ordered, NOTHING_SENT, c)
    ensures Sent(ordered, NOTHING_SENT, [c]) == [Accepted(c.stored, c.timestamp, 0xffff_ffff, 1)]
  {
    assert [c][..0] == [];
  }

  datatype Failure = SizeMismatch | NoData | ControlFields | VersionMismatch | CountMismatch

  datatype Outcome = Ok | Thrown(failure: Failure)

  /** A packet as received: how many bytes, and the events found in them, the last one being the trailer. */
  datatype Packet = Packet(bytes: nat, events: seq<Event>, trailer: Trailer)

  /** The checks made on a packet before it is sorted. */
  function Check(p: Packet, eventBytes: nat, version: nat): Outcome
    requires eventBytes > 0
  {
    if p.bytes % eventBytes != 0 then Thrown(SizeMismatch)
    else if p.bytes == 0 then Thrown(NoData)
    else if p.trailer.mac5 != TRAILER_MAC || p.trailer.flags != 0xffff || p.trailer.magic != MAGIC_NUMBER
    then Thrown(ControlFields)
    else if p.trailer.version != version then Thrown(VersionMismatch)
    else if p.trailer.nEvents != p.bytes / eventBytes - 1 then Thrown(CountMismatch)
    else Ok
  }

  /** Exactly the packets of as many whole events as the trailer counts, and with the trailer's own fields. */
  lemma {:induction false} AcceptedPackets(p: Packet, eventBytes: nat, version: nat)
    requires eventBytes > 0
    ensures Check(p, eventBytes, version) == Ok <==>
            && p.bytes == eventBytes * (p.trailer.nEvents + 1)
            && p.trailer.mac5 == 0xffff && p.trailer.flags == 0xffff && p.trailer.magic == 0xaa55aa55
            && p.trailer.version == version
  {
    var whole := p.trailer.nEvents + 1;
    if p.bytes == eventBytes * whole {
      QuotientOf(p.bytes, eventBytes, whole);
    }
  }

  lemma QuotientOf(x: nat, m: nat, q: nat)
    requires m > 0 && q > 0 && x == m * q
    ensures x % m == 0 && x / m == q && x > 0
  {
    Bits.ModUnique(x, m, q, 0);
    assert x >= m;
  }

  /** The poll times stored with the events of a packet: the trailer's, and those of the packet before. */
  predicate FollowsOn(now: PollTimes, before: PollTimes, t: Trailer) {
    && now.thisStart == t.pollStart && now.thisEnd == t.pollEnd
    && (before.lastStart != 0 ==> now.lastStart == before.lastStart && now.lastEnd == before.lastEnd)
    && (before.lastStart == 0 ==>
          IsDummyPoll(now.lastStart, t.pollStart) && IsDummyPoll(now.lastEnd, t.pollEnd))
  }

  /** The poll before the first one is taken to be 300 ms earlier. */
  predicate IsDummyPoll(last: nat, now: nat) {
    300_000_000 <= now < TimeRecovery.UINT64_RANGE ==> last + 300_000_000 == now
  }

  class ZmqGenerator {
    var boards: map<nat, Board>
    var times: PollTimes
    var sequenceId: nat

    predicate Valid()
      reads `sequenceId
    {
      sequenceId < 0x1_0000_0000
    }

    constructor (macs: set<nat>)
      requires forall m | m in macs :: m < 0x100
      ensures Valid() && boards == (map m | m in macs :: NEW_BOARD) && times == PollTimes(0, 0, 0, 0) && sequenceId == 0
    {
      boards, times, sequenceId := (map m | m in macs :: NEW_BOARD), PollTimes(0, 0, 0, 0), 0;
    }

    /** Poll times of a packet; the poll before the first is taken to be 300 ms earlier. */
    static function Times(before: PollTimes, t: Trailer): (now: PollTimes)
      ensures FollowsOn(now, before, t)
    {
      if before.lastStart == 0
      then PollTimes(t.pollStart, t.pollEnd, TimeRecovery.U64(t.pollStart - DUMMY_POLL_NS),
          TimeRecovery.U64(t.pollEnd - DUMMY_POLL_NS))
      else PollTimes(t.pollStart, t.pollEnd, before.lastStart, before.lastEnd)
    }

    /** InsertIntoFEBBuffer; the caller has waited for room. */
    method InsertIntoFebBuffer(key: nat, group: seq<Event>)
      requires key in boards
      modifies `boards
      ensures boards == old(boards)[key := old(boards)[key].Insert(group, times)]
    {
      var b := boards[key];
      for i := 0 to |group|
        invariant boards == old(boards)[key := b]
        invariant var before := old(boards)[key];
                  b == before.(buffer := before.buffer + StoredGroup(group, times, before.eventNumber, i))
      {
        var metadata := Metadata(times, |group|, (b.eventNumber + i) % 0x1_0000_0000);
        b := b.(buffer := b.buffer + [Stored(group[i], metadata)]);
        boards := boards[key := b];
      }
      b := b.(eventNumber := (b.eventNumber + |group|) % 0x1_0000_0000);
      boards := boards[key := b];
    }

    /** GetData on a packet received. */
    method GetData(p: Packet, eventBytes: nat, version: nat) returns (r: Outcome)
      requires eventBytes > 0 && |p.events| == (if p.bytes == 0 then 0 else p.bytes / eventBytes - 1)
      modifies `boards, `times
      ensures r == Check(p, eventBytes, version)
      ensures r.Thrown? && r.failure != CountMismatch ==> boards == old(boards) && times == old(times)
      ensures r == Thrown(CountMismatch) ==> boards == old(boards) && times == Times(old(times), p.trailer)
      ensures r.Ok? ==>
                var now, trailer := Times(old(times), p.trailer), Event(p.trailer.mac5, 0);
                && boards == Route(old(boards), [], p.events + [trailer], now)
                && times == PollTimes(now.thisStart, now.thisEnd, now.thisStart, now.thisEnd)
                && forall key | key in boards :: NewAreStamped(old(boards)[key], boards[key], now)
    {
      if p.bytes % eventBytes != 0 {
        return Thrown(SizeMismatch);
      } else if p.bytes == 0 {
        return Thrown(NoData);
      }
      if p.trailer.mac5 != TRAILER_MAC || p.trailer.flags != 0xffff || p.trailer.magic != MAGIC_NUMBER {
        return Thrown(ControlFields);
      }
      if p.trailer.version != version {
        return Thrown(VersionMismatch);
      }
      times := Times(times, p.trailer);
      var total := p.bytes / eventBytes;
      if p.trailer.nEvents != total - 1 {
        return Thrown(CountMismatch);
      }
      forall key | key in boards
        ensures NewAreStamped(boards[key], Route(boards, [], p.events + [Event(p.trailer.mac5, 0)], times)[key], times)
      {
        RouteStamps(boards, [], p.events + [Event(p.trailer.mac5, 0)], times, key);
      }
      Sort(p.events + [Event(p.trailer.mac5, 0)]);
      times := PollTimes(times.thisStart, times.thisEnd, times.thisStart, times.thisEnd);
      r := Ok;
    }

    /** What is still to be sorted, with the running group of n events of one address before event i. */
    ghost predicate Sorting(events: seq<Event>, i: nat, n: nat, mac: nat, sorted: map<nat, Board>)
      requires n <= i <= |events|
      reads this
    {
      && (i > 0 ==> n > 0) && OneMac(events[i - n..i]) && (n > 0 ==> events[i - n].mac5 == mac)
      && Route(boards, events[i - n..i], events[i..], times) == sorted
    }

    /** One turn of the sorting loop. */
    method SortNext(events: seq<Event>, i: nat, prevMac: nat, thisEvents: nat, ghost sorted: map<nat, Board>)
        returns (n: nat)
      requires thisEvents <= i < |events| && Sorting(events, i, thisEvents, prevMac, sorted)
      requires thisEvents == 0 ==> prevMac == events[i].mac5
      modifies `boards
      ensures 0 < n <= i + 1 && Sorting(events, i + 1, n, events[i].mac5, sorted)
    {
      RouteTurn(boards, events, i, thisEvents, times);
      n := thisEvents;
      if prevMac != events[i].mac5 {
        var key := Key(prevMac);
        if key in boards {
          InsertIntoFebBuffer(key, events[i - thisEvents..i]);
        }
        n := 0;
      }
      n := n + 1;
    }

    /** The sorting loop over all events including the trailer. */
    method Sort(events: seq<Event>)
      requires events != []
      modifies `boards
      ensures boards == Route(old(boards), [], events, times)
    {
      var prevMac, thisEvents := events[0].mac5, 0;
      assert events[0..] == events;
      for i := 0 to |events|
        invariant thisEvents <= i && (i == 0 ==> prevMac == events[0].mac5)
        invariant Sorting(events, i, thisEvents, prevMac, Route(old(boards), [], events, times))
      {
        thisEvents := SortNext(events, i, prevMac, thisEvents, Route(old(boards), [], events, times));
        prevMac := events[i].mac5;
      }
      assert events[|events|..] == [];
    }

    /** FillFragment with nobody inserting meanwhile. */
    method FillFragment(key: nat, f: Filter) returns (frags: seq<(nat, Accepted)>)
      requires Valid() && key in boards
      modifies `boards, `sequenceId
      ensures Valid()
      ensures var b := old(boards)[key];
              var last, cs := Last(b.lastTimestamp, b.lastNumber), f.Candidates(b.buffer);
              && boards == old(boards)[key := Emptied(b, After(f.omitOutOfOrder, last, cs))]
              && AreFragments(frags, Sent(f.omitOutOfOrder, last, cs), old(sequenceId))
      ensures forall k | 0 <= k < |frags| :: SentRightly(f, frags[k].1)
      ensures !f.omitOutOfSync && !f.omitOutOfOrder ==>
                && |frags| == |old(boards)[key].buffer|
                && forall k | 0 <= k < |frags| :: frags[k].1.stored == old(boards)[key].buffer[k]
    {
      var b := boards[key];
      var last := Last(b.lastTimestamp, b.lastNumber);
      SentAreInRange(f, last, b.buffer);
      if !f.omitOutOfSync && !f.omitOutOfOrder {
        UnfilteredIsAllSent(f, last, b.buffer);
      }
      frags, last := SendEvents(f.Candidates(b.buffer), f.omitOutOfOrder, last);
      boards := boards[key := Emptied(b, last)];
    }

    /** The loop over the events of a board. */
    method SendEvents(cs: seq<Candidate>, ordered: bool, start: Last) returns (frags: seq<(nat, Accepted)>, last: Last)
      requires Valid()
      modifies `sequenceId
      ensures Valid() && last == After(ordered, start, cs)
      ensures AreFragments(frags, Sent(ordered, start, cs), old(sequenceId))
    {
      frags, last := [], start;
      for i := 0 to |cs|
        invariant last == After(ordered, start, cs[..i])
        invariant AreFragments(frags, Sent(ordered, start, cs[..i]), old(sequenceId))
        invariant sequenceId == (old(sequenceId) + |frags|) % 0x1_0000_0000
      {
        assert cs[..i + 1][..i] == cs[..i];
        if !cs[i].inSync {
          continue;
        }
        if ordered && cs[i].timestamp <= last.timestamp {
          continue;
        }
        FragmentsGrow(frags, Sent(ordered, start, cs[..i]), old(sequenceId), Fragment(last, cs[i]));
        frags := frags + [(sequenceId, Fragment(last, cs[i]))];
        last := Last(cs[i].timestamp, cs[i].stored.metadata.eventNumber);
        sequenceId := (sequenceId + 1) % 0x1_0000_0000;
      }
      assert cs[..|cs|] == cs;
    }
  }

  lemma FragmentsGrow(frags: seq<(nat, Accepted)>, out: seq<Accepted>, first: nat, a: Accepted)
    requires AreFragments(frags, out, first)
    ensures AreFragments(frags + [((first + |frags|) % 0x1_0000_0000, a)], out + [a], first)
    ensures ((first + |frags|) % 0x1_0000_0000 + 1) % 0x1_0000_0000 == (first + |frags| + 1) % 0x1_0000_0000
  {
  }

  function Emptied(b: Board, last: Last): Board {
    Board([], b.eventNumber, last.timestamp, last.number)
  }

  /** Fragments with consecutive sequence ids. */
  predicate AreFragments(frags: seq<(nat, Accepted)>, out: seq<Accepted>, first: nat) {
    |frags| == |out| && forall k | 0 <= k < |frags| :: frags[k] == ((first + k) % 0x1_0000_0000, out[k])
  }
}
