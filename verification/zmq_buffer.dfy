/**
 * A board's ring of events between the two threads of the ZeroMQ generator. One thread waits for room
 * and inserts a group under the ring's lock; the other goes through the events it finds at the start
 * without the lock, and erases them under it. Every action below is one such step, so a list of actions
 * is an interleaving.
 */
module ZmqBuffer {
  import opened ZmqGrouping

  datatype Inserter = Waiting | HasRoom(group: seq<Event>, times: PollTimes)

  datatype Filler = Outside | Inside(end: nat, next: nat)

  /** The board with its ring, all events stored in it so far, and what was sent. */
  datatype Ring = Ring(board: Board, inserter: Inserter, filler: Filler, stored: seq<Stored>, sent: seq<Accepted>) {

    function Remembered(): Last {
      Last(board.lastTimestamp, board.lastNumber)
    }

    /** Events the filler has looked at, of the ring. */
    function Seen(): nat {
      if filler.Inside? then filler.next else 0
    }
  }

  datatype Action =
    | SeeRoom(group: seq<Event>, times: PollTimes) // the wait of the insertion ends
    | Insert
    | Begin
    | Take // one turn of the loop over the events
    | Erase

  predicate Enabled(r: Ring, capacity: nat, a: Action) {
    match a
    case SeeRoom(group, _) => r.inserter.Waiting? && group != [] && capacity - |r.board.buffer| >= |group|
    case Insert => r.inserter.HasRoom?
    case Begin => r.filler.Outside?
    case Take => r.filler.Inside? && r.filler.next < r.filler.end && r.filler.next < |r.board.buffer|
    case Erase => r.filler.Inside? && r.filler.next == r.filler.end && r.filler.end <= |r.board.buffer|
  }

  /** push_back on a ring without room overwrites the oldest events. */
  function Bounded(capacity: nat, buffer: seq<Stored>): seq<Stored> {
    if |buffer| <= capacity then buffer else buffer[|buffer| - capacity..]
  }

  function TakeNext(r: Ring, f: Filter, c: Candidate): Ring
    requires r.filler.Inside?
  {
    var next := r.(filler := r.filler.(next := r.filler.next + 1));
    if Accepts(f.omitOutOfOrder, r.Remembered(), c)
    then next.(sent := r.sent + [Fragment(r.Remembered(), c)],
               board := r.board.(lastTimestamp := c.timestamp, lastNumber := c.stored.metadata.eventNumber))
    else next
  }

  function Do(r: Ring, capacity: nat, f: Filter, a: Action): Ring
    requires Enabled(r, capacity, a)
  {
    match a
    case SeeRoom(group, times) => r.(inserter := HasRoom(group, times))
    case Insert =>
      var more := r.board.Insert(r.inserter.group, r.inserter.times);
      r.(inserter := Waiting, board := more.(buffer := Bounded(capacity, more.buffer)),
         stored := r.stored + more.buffer[|r.board.buffer|..])
    case Begin => r.(filler := Inside(|r.board.buffer|, 0))
    case Take => TakeNext(r, f, f.Judge(r.board.buffer[r.filler.next]))
    case Erase => r.(filler := Outside, board := r.board.(buffer := r.board.buffer[r.filler.end..]))
  }

  const START: Ring := Ring(NEW_BOARD, Waiting, Outside, [], [])

  ghost predicate Run(rings: seq<Ring>, actions: seq<Action>, capacity: nat, f: Filter) {
    && |rings| == |actions| + 1 && rings[0] == START
    && forall i {:trigger Enabled(rings[i], capacity, actions[i])} | 0 <= i < |actions| ::
         Enabled(rings[i], capacity, actions[i]) && rings[i + 1] == Do(rings[i], capacity, f, actions[i])
  }

  // ---------------------------------------------------------------------------------
  // Invariant
  // ---------------------------------------------------------------------------------

  /** The ring never overflows, and what the filler is about to take or erase is there. */
  predicate InBounds(r: Ring, capacity: nat) {
    && |r.board.buffer| <= capacity
    && (r.inserter.HasRoom? ==> |r.board.buffer| + |r.inserter.group| <= capacity)
    && (r.filler.Inside? ==> r.filler.next <= r.filler.end <= |r.board.buffer|)
  }

  /** The ring holds the latest of the events stored. */
  predicate HoldsLatest(buffer: seq<Stored>, stored: seq<Stored>) {
    |buffer| <= |stored| && stored[|stored| - |buffer|..] == buffer
  }

  predicate Numbered(stored: seq<Stored>, next: nat) {
    && next == |stored| % 0x1_0000_0000
    && forall k | 0 <= k < |stored| :: stored[k].metadata.eventNumber == k % 0x1_0000_0000
  }

  /** What was sent of the events seen is what one pass over them sends. */
  ghost predicate SentOf(r: Ring, f: Filter, seen: seq<Stored>) {
    && r.sent == Sent(f.omitOutOfOrder, NOTHING_SENT, f.Candidates(seen))
    && r.Remembered() == After(f.omitOutOfOrder, NOTHING_SENT, f.Candidates(seen))
  }

  /** How many of the stored events the filler has seen. */
  function SeenInAll(r: Ring): int {
    |r.stored| - |r.board.buffer| + r.Seen()
  }

  ghost predicate Inv(r: Ring, capacity: nat, f: Filter) {
    && InBounds(r, capacity)
    && HoldsLatest(r.board.buffer, r.stored)
    && Numbered(r.stored, r.board.eventNumber)
    && SentOf(r, f, r.stored[..SeenInAll(r)])
  }

  lemma {:induction false} NumbersGrow(stored: seq<Stored>, added: seq<Stored>, next: nat)
    requires Numbered(stored, next)
    requires forall k | 0 <= k < |added| :: added[k].metadata.eventNumber == (next + k) % 0x1_0000_0000
    ensures Numbered(stored + added, (next + |added|) % 0x1_0000_0000)
  {
    forall k | |stored| <= k < |stored| + |added|
      ensures (stored + added)[k].metadata.eventNumber == k % 0x1_0000_0000
    {
      assert (stored + added)[k] == added[k - |stored|];
      SumInside(|stored|, k - |stored|);
    }
    SumInside(|stored|, |added|);
  }

  lemma {:induction false} NewEvents(b: Board, group: seq<Event>, times: PollTimes, stored: seq<Stored>)
    requires Numbered(stored, b.eventNumber) && HoldsLatest(b.buffer, stored)
    ensures var more := b.Insert(group, times);
            var grown := stored + more.buffer[|b.buffer|..];
            && |grown| == |stored| + |group| && Numbered(grown, more.eventNumber)
            && HoldsLatest(more.buffer, grown)
  {
    var added := StoredGroup(group, times, b.eventNumber, |group|);
    assert b.Insert(group, times).buffer[|b.buffer|..] == added;
    NumbersGrow(stored, added, b.eventNumber);
    assert (stored + added)[|stored| - |b.buffer|..] == stored[|stored| - |b.buffer|..] + added;
  }

  lemma {:induction false} InsertKeepsInv(r: Ring, capacity: nat, f: Filter)
    requires Inv(r, capacity, f) && r.inserter.HasRoom?
    ensures Inv(Do(r, capacity, f, Insert), capacity, f)
  {
    NewEvents(r.board, r.inserter.group, r.inserter.times, r.stored);
    var next := Do(r, capacity, f, Insert);
    assert SeenInAll(next) == SeenInAll(r) && next.stored[..SeenInAll(r)] == r.stored[..SeenInAll(r)];
  }

  lemma {:induction false} TakeKeepsInv(r: Ring, capacity: nat, f: Filter)
    requires Inv(r, capacity, f) && Enabled(r, capacity, Take)
    ensures Inv(Do(r, capacity, f, Take), capacity, f)
  {
    var n, s := SeenInAll(r), r.board.buffer[r.filler.next];
    NextSeen(r.board.buffer, r.stored, r.filler.next);
    TakeSends(r, f, r.stored[..n], s);
    var next := Do(r, capacity, f, Take);
    assert next.stored == r.stored && next.board.buffer == r.board.buffer && SeenInAll(next) == n + 1;
  }

  lemma {:induction false} TakeSends(r: Ring, f: Filter, seen: seq<Stored>, s: Stored)
    requires r.filler.Inside? && SentOf(r, f, seen)
    ensures SentOf(TakeNext(r, f, f.Judge(s)), f, seen + [s])
  {
    OneMore(seen, s, f);
  }

  lemma {:induction false} NextSeen(buffer: seq<Stored>, stored: seq<Stored>, i: nat)
    requires HoldsLatest(buffer, stored) && i < |buffer|
    ensures var n := |stored| - |buffer| + i; stored[..n + 1] == stored[..n] + [buffer[i]]
  {
    assert stored[|stored| - |buffer| + i] == stored[|stored| - |buffer|..][i];
  }

  /** One event more for the filter. */
  lemma {:induction false} OneMore(seen: seq<Stored>, s: Stored, f: Filter)
    ensures var last := After(f.omitOutOfOrder, NOTHING_SENT, f.Candidates(seen));
            var accepted, c := Accepts(f.omitOutOfOrder, last, f.Judge(s)), f.Judge(s);
            && After(f.omitOutOfOrder, NOTHING_SENT, f.Candidates(seen + [s]))
               == (if accepted then Last(c.timestamp, s.metadata.eventNumber) else last)
            && Sent(f.omitOutOfOrder, NOTHING_SENT, f.Candidates(seen + [s]))
               == Sent(f.omitOutOfOrder, NOTHING_SENT, f.Candidates(seen))
                  + if accepted then [Fragment(last, c)] else []
  {
    var cs := f.Candidates(seen + [s]);
    assert cs[..|seen|] == f.Candidates(seen) && cs[|seen|] == f.Judge(s);
  }

  lemma {:induction false} FillerKeepsInv(r: Ring, capacity: nat, f: Filter, a: Action)
    requires Inv(r, capacity, f) && Enabled(r, capacity, a) && !a.Insert? && !a.Take?
    ensures Inv(Do(r, capacity, f, a), capacity, f)
  {
    var next := Do(r, capacity, f, a);
    assert SeenInAll(next) == SeenInAll(r) && next.stored == r.stored;
    if a.Erase? {
      assert r.stored[|r.stored| - |next.board.buffer|..] == next.board.buffer;
    }
  }

  lemma {:induction false} StepKeepsInv(r: Ring, capacity: nat, f: Filter, a: Action)
    requires Inv(r, capacity, f) && Enabled(r, capacity, a)
    ensures Inv(Do(r, capacity, f, a), capacity, f)
  {
    match a
    case Insert => InsertKeepsInv(r, capacity, f);
    case Take => TakeKeepsInv(r, capacity, f);
    case _ => FillerKeepsInv(r, capacity, f, a);
  }

  lemma {:induction false} RunKeepsInv(rings: seq<Ring>, actions: seq<Action>, capacity: nat, f: Filter, i: nat)
    requires Run(rings, actions, capacity, f) && i < |rings|
    ensures Inv(rings[i], capacity, f)
  {
    if i > 0 {
      RunKeepsInv(rings, actions, capacity, f, i - 1);
      assert Enabled(rings[i - 1], capacity, actions[i - 1]);
      StepKeepsInv(rings[i - 1], capacity, f, actions[i - 1]);
    }
  }

  // ---------------------------------------------------------------------------------
  // What every interleaving guarantees
  // ---------------------------------------------------------------------------------

  /**
   * Main result: over every interleaving, however many calls the filler makes, the ring never overflows,
   * events are numbered in the order in which they are stored, those not yet seen are still in the ring
   * in that order, and what was sent is what one pass of the filter over the others sends: each of them
   * is judged once, none is lost. What is sent bears its own time, in range if that is asked for.
   */
  lemma {:induction false} EventsAreJudgedOnce(rings: seq<Ring>, actions: seq<Action>, capacity: nat, f: Filter, i: nat)
    requires Run(rings, actions, capacity, f) && i < |rings|
    ensures var r := rings[i]; var n := SeenInAll(r);
            && |r.board.buffer| <= capacity && 0 <= n <= |r.stored|
            && (forall k | 0 <= k < |r.stored| :: r.stored[k].metadata.eventNumber == k % 0x1_0000_0000)
            && r.stored[n..] == r.board.buffer[r.Seen()..]
            && r.sent == Sent(f.omitOutOfOrder, NOTHING_SENT, f.Candidates(r.stored[..n]))
            && OnlyInRange(f, r.sent)
            && (!f.omitOutOfSync && !f.omitOutOfOrder ==> AllSent(r.stored[..n], r.sent))
  {
    RunKeepsInv(rings, actions, capacity, f, i);
    var r := rings[i];
    SentAreInRange(f, NOTHING_SENT, r.stored[..SeenInAll(r)]);
    if !f.omitOutOfSync && !f.omitOutOfOrder {
      UnfilteredIsAllSent(f, NOTHING_SENT, r.stored[..SeenInAll(r)]);
    }
    assert r.stored[SeenInAll(r)..] == r.stored[|r.stored| - |r.board.buffer|..][r.Seen()..];
  }

  /** The filler has one thing to do in every state, and an insertion that has seen room overwrites nothing. */
  lemma {:induction false} NobodyIsStuck(rings: seq<Ring>, actions: seq<Action>, capacity: nat, f: Filter, i: nat)
    requires Run(rings, actions, capacity, f) && i < |rings|
    ensures var r := rings[i];
            && (Enabled(r, capacity, Begin) || Enabled(r, capacity, Take) || Enabled(r, capacity, Erase))
            && !(Enabled(r, capacity, Begin) && Enabled(r, capacity, Take))
            && !(Enabled(r, capacity, Begin) && Enabled(r, capacity, Erase))
            && !(Enabled(r, capacity, Take) && Enabled(r, capacity, Erase))
            && (r.inserter.HasRoom? ==>
                  Do(r, capacity, f, Insert).board == r.board.Insert(r.inserter.group, r.inserter.times))
  {
    RunKeepsInv(rings, actions, capacity, f, i);
  }

  // ---------------------------------------------------------------------------------
  // Waiting for room
  // ---------------------------------------------------------------------------------

  predicate CanFollow(r: Ring, capacity: nat, f: Filter, actions: seq<Action>)
    decreases |actions|
  {
    actions == [] ||
    (Enabled(r, capacity, actions[0]) && CanFollow(Do(r, capacity, f, actions[0]), capacity, f, actions[1..]))
  }

  function Follow(r: Ring, capacity: nat, f: Filter, actions: seq<Action>): Ring
    requires CanFollow(r, capacity, f, actions)
    decreases |actions|
  {
    if actions == [] then r else Follow(Do(r, capacity, f, actions[0]), capacity, f, actions[1..])
  }

  predicate FillerOnly(actions: seq<Action>) {
    forall a | a in actions :: a.Begin? || a.Take? || a.Erase?
  }

  /** The filler alone comes to a state in which the waiting insertion finds room. */
  ghost predicate RoomComes(r: Ring, capacity: nat, f: Filter, group: seq<Event>, times: PollTimes) {
    exists actions :: FillerOnly(actions) && CanFollow(r, capacity, f, actions)
                      && Enabled(Follow(r, capacity, f, actions), capacity, SeeRoom(group, times))
  }

  /** What the filler has to do until the ring shrinks. */
  function Steps(r: Ring): int {
    match r.filler
    case Outside => |r.board.buffer| + 1
    case Inside(end, next) => if end == 0 then |r.board.buffer| + 2 else end - next
  }

  function FillerStep(r: Ring): Action {
    match r.filler
    case Outside => Begin
    case Inside(end, next) => if next < end then Take else Erase
  }

  lemma {:induction false} FillerStepHelps(r: Ring, capacity: nat, f: Filter)
    requires Inv(r, capacity, f) && r.board.buffer != []
    ensures Enabled(r, capacity, FillerStep(r))
    ensures var next := Do(r, capacity, f, FillerStep(r));
            && next.inserter == r.inserter
            && (|next.board.buffer| < |r.board.buffer|
                || (|next.board.buffer| == |r.board.buffer| && 0 <= Steps(next) < Steps(r)))
  {
  }

  /** The filler alone can empty the ring. */
  lemma {:induction false} RingEmpties(r: Ring, capacity: nat, f: Filter) returns (actions: seq<Action>)
    requires Inv(r, capacity, f)
    ensures FillerOnly(actions) && CanFollow(r, capacity, f, actions)
    ensures Follow(r, capacity, f, actions).board.buffer == []
    ensures Follow(r, capacity, f, actions).inserter == r.inserter
    decreases |r.board.buffer|, Steps(r)
  {
    actions := [];
    if r.board.buffer != [] {
      var a := FillerStep(r);
      FillerStepHelps(r, capacity, f);
      StepKeepsInv(r, capacity, f, a);
      var rest := RingEmpties(Do(r, capacity, f, a), capacity, f);
      actions := [a] + rest;
      assert actions[1..] == rest;
    }
  }

  /**
   * In every reachable state, a waiting insertion is given room by the other thread, which has one thing to do
   * in every state, exactly when its group is no larger than the ring: a larger one waits for ever.
   */
  lemma {:induction false} RoomComesIfItFits(rings: seq<Ring>, actions: seq<Action>, capacity: nat, f: Filter, i: nat,
                                             group: seq<Event>, times: PollTimes)
    requires Run(rings, actions, capacity, f) && i < |rings| && rings[i].inserter.Waiting? && group != []
    ensures RoomComes(rings[i], capacity, f, group, times) <==> |group| <= capacity
  {
    RunKeepsInv(rings, actions, capacity, f, i);
    if |group| <= capacity {
      var emptying := RingEmpties(rings[i], capacity, f);
      assert Enabled(Follow(rings[i], capacity, f, emptying), capacity, SeeRoom(group, times));
    }
  }
}
