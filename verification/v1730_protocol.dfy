/**
 * The two threads of the V1730 board reader. The producer takes a free block, reads an event
 * into it, publishes the event's timestamp in a map under its 24-bit counter and queues the
 * block; the consumer takes the oldest queued block, copies it out and looks the timestamp up.
 * Every action below is one critical section, so a list of actions is an interleaving.
 */
module V1730Protocol {
  import opened PoolBuffers
  import opened EventCounter
  import opened Sequences

  /** A trigger as it truly happened, with the timestamp the producer computes for it. */
  datatype Event = Event(number: nat, timestamp: int) {
    function Counter(): nat {
      number % COUNTER_RANGE
    }
  }

  datatype Fragment = Fragment(sequenceId: nat, event: Event, timestamp: int)

  datatype Producer =
    | Idle
    | Filling(block: nat)
    | Stamped(block: nat, event: Event)
    | OutOfBlocks
    | Threw(block: nat)

  datatype Consumer =
    | Waiting
    | Holding(block: nat)
    | LookingUp(event: Event, tries: nat)
    | Found(event: Event)
    | NotFound(event: Event)
    | Aborted(block: nat)

  datatype Readout = Readout(
    pool: Pool,
    content: map<nat, Event>,
    timestamps: map<nat, int>,
    producer: Producer,
    consumer: Consumer,
    unwrapper: Unwrapper,
    fragments: seq<Fragment>,
    published: seq<Event>)

  function Init(blockCount: nat): Readout {
    Readout(FreshPool(blockCount), map[], map[], Idle, Waiting, START, [], [])
  }

  datatype Action =
    | ProducerTake
    | ProducerGiveBack // read error, no data, oversized read or wrong event size
    | ProducerThrow // the red-zone check failed
    | ProducerStamp(event: Event)
    | ProducerQueue
    | ConsumerTake
    | ConsumerCopy
    | ConsumerThrow // the red-zone check failed
    | ConsumerLookUp
    | ConsumerFetch
    | ConsumerMakeUp(timestamp: int) // no timestamp found after three retries

  const RETRIES: nat := 3

  predicate Enabled(s: Readout, a: Action) {
    match a
    case ProducerTake => s.producer.Idle?
    case ProducerGiveBack => s.producer.Filling?
    case ProducerThrow => s.producer.Filling?
    case ProducerStamp(_) => s.producer.Filling?
    case ProducerQueue => s.producer.Stamped?
    case ConsumerTake => s.consumer.Waiting?
    case ConsumerCopy => s.consumer.Holding?
    case ConsumerThrow => s.consumer.Holding?
    case ConsumerLookUp => s.consumer.LookingUp?
    case ConsumerFetch => s.consumer.Found? && s.consumer.event.Counter() in s.timestamps
    case ConsumerMakeUp(_) => s.consumer.NotFound?
  }

  function EventIn(s: Readout, block: nat): Event {
    if block in s.content then s.content[block] else Event(0, 0)
  }

  function Emit(s: Readout, e: Event, timestamp: int): Readout {
    var next := s.unwrapper.Next(e.Counter());
    s.(unwrapper := next, consumer := Waiting,
       fragments := s.fragments + [Fragment(next.SequenceId(), e, timestamp)])
  }

  function Do(s: Readout, a: Action): Readout
    requires Enabled(s, a)
  {
    match a
    case ProducerTake =>
      var (pool, block) := s.pool.TakeFree();
      s.(pool := pool, producer := if block.Some? then Filling(block.value) else OutOfBlocks)
    case ProducerGiveBack =>
      s.(pool := s.pool.ReturnFree(s.producer.block), producer := Idle)
    case ProducerThrow =>
      s.(producer := Threw(s.producer.block))
    case ProducerStamp(e) =>
      s.(content := s.content[s.producer.block := e], timestamps := s.timestamps[e.Counter() := e.timestamp],
         producer := Stamped(s.producer.block, e), published := s.published + [e])
    case ProducerQueue =>
      s.(pool := s.pool.ReturnActive(s.producer.block), producer := Idle)
    case ConsumerTake =>
      var (pool, block) := s.pool.TakeActive();
      s.(pool := pool, consumer := if block.Some? then Holding(block.value) else Waiting)
    case ConsumerCopy =>
      s.(pool := s.pool.ReturnFree(s.consumer.block), consumer := LookingUp(EventIn(s, s.consumer.block), 0))
    case ConsumerThrow =>
      s.(consumer := Aborted(s.consumer.block))
    case ConsumerLookUp =>
      var e := s.consumer.event;
      s.(consumer := if e.Counter() in s.timestamps then Found(e)
                     else if s.consumer.tries < RETRIES then LookingUp(e, s.consumer.tries + 1)
                     else NotFound(e))
    case ConsumerFetch =>
      var counter := s.consumer.event.Counter();
      Emit(s, s.consumer.event, s.timestamps[counter]).(timestamps := s.timestamps - {counter})
    case ConsumerMakeUp(timestamp) =>
      Emit(s, s.consumer.event, timestamp)
  }

  // ---------------------------------------------------------------------------------
  // What is in flight
  // ---------------------------------------------------------------------------------

  function Building(s: Readout): seq<Event> {
    match s.consumer
    case Waiting => []
    case Holding(block) => [EventIn(s, block)]
    case LookingUp(e, _) => [e]
    case Found(e) => [e]
    case NotFound(e) => [e]
    case Aborted(block) => [EventIn(s, block)]
  }

  function Queued(s: Readout): (q: seq<Event>)
    ensures |q| == |s.pool.active|
  {
    seq(|s.pool.active|, i requires 0 <= i < |s.pool.active| => EventIn(s, s.pool.active[i]))
  }

  function Publishing(s: Readout): seq<Event> {
    if s.producer.Stamped? then [s.producer.event] else []
  }

  /** Events with a timestamp in the map, oldest first. */
  function InFlight(s: Readout): seq<Event> {
    Building(s) + Queued(s) + Publishing(s)
  }

  predicate EnabledRun(s: Readout, actions: seq<Action>)
    decreases |actions|
  {
    actions == [] || (Enabled(s, actions[0]) && EnabledRun(Do(s, actions[0]), actions[1..]))
  }

  function Run(s: Readout, actions: seq<Action>): Readout
    requires EnabledRun(s, actions)
    decreases |actions|
  {
    if actions == [] then s else Run(Do(s, actions[0]), actions[1..])
  }

  /** The events stamped in a run, in order. */
  function Stamps(actions: seq<Action>): seq<Event>
    decreases |actions|
  {
    if actions == [] then []
    else (if actions[0].ProducerStamp? then [actions[0].event] else []) + Stamps(actions[1..])
  }

  predicate NewCounter(flight: seq<Event>, e: Event) {
    forall f | f in flight :: f.Counter() != e.Counter()
  }

  /** A stamp is fresh when no event in flight has the counter of the new one. */
  predicate Fresh(s: Readout, a: Action) {
    a.ProducerStamp? ==> NewCounter(InFlight(s), a.event)
  }

  predicate FreshRun(s: Readout, actions: seq<Action>)
    requires EnabledRun(s, actions)
    decreases |actions|
  {
    actions == [] || (Fresh(s, actions[0]) && FreshRun(Do(s, actions[0]), actions[1..]))
  }

  /** Fetched now, oldest first, every event in flight would find its own timestamp in the map. */
  predicate Serves(timestamps: map<nat, int>, flight: seq<Event>)
    decreases |flight|
  {
    flight == [] ||
    (var counter := flight[0].Counter();
     && counter in timestamps && timestamps[counter] == flight[0].timestamp
     && Serves(timestamps - {counter}, flight[1..]))
  }

  /** In no state of the run has an event in flight lost its timestamp. */
  predicate AlwaysServes(s: Readout, actions: seq<Action>)
    requires EnabledRun(s, actions)
    decreases |actions|
  {
    Serves(s.timestamps, InFlight(s)) && (actions == [] || AlwaysServes(Do(s, actions[0]), actions[1..]))
  }

  // ---------------------------------------------------------------------------------
  // Invariant
  // ---------------------------------------------------------------------------------

  ghost function HeldByProducer(p: Producer): multiset<nat> {
    match p
    case Filling(b) => multiset{b}
    case Stamped(b, _) => multiset{b}
    case Threw(b) => multiset{b}
    case _ => multiset{}
  }

  ghost function HeldByConsumer(c: Consumer): multiset<nat> {
    match c
    case Holding(b) => multiset{b}
    case Aborted(b) => multiset{b}
    case _ => multiset{}
  }

  /** Free stack, active queue and held blocks share out the allocated blocks. */
  ghost predicate BlocksOwned(s: Readout, all: multiset<nat>) {
    s.pool.Blocks() + HeldByProducer(s.producer) + HeldByConsumer(s.consumer) == all
  }

  ghost predicate ContentMatches(s: Readout) {
    s.producer.Stamped? ==> EventIn(s, s.producer.block) == s.producer.event
  }

  predicate DistinctCounters(flight: seq<Event>) {
    forall i, j | 0 <= i < j < |flight| :: flight[i].Counter() != flight[j].Counter()
  }

  ghost predicate OwnTimestamps(timestamps: map<nat, int>, flight: seq<Event>) {
    forall e | e in flight :: e.Counter() in timestamps && timestamps[e.Counter()] == e.timestamp
  }

  ghost predicate OnlyInFlight(timestamps: map<nat, int>, flight: seq<Event>) {
    forall c | c in timestamps :: exists e :: e in flight && e.Counter() == c
  }

  /** The map holds the timestamps of exactly the events in flight, and their counters differ. */
  ghost predicate MapAgrees(timestamps: map<nat, int>, flight: seq<Event>) {
    DistinctCounters(flight) && OwnTimestamps(timestamps, flight) && OnlyInFlight(timestamps, flight)
  }

  function Events(fragments: seq<Fragment>): (events: seq<Event>)
    ensures |events| == |fragments|
  {
    seq(|fragments|, i requires 0 <= i < |fragments| => fragments[i].event)
  }

  function Numbers(events: seq<Event>): (numbers: seq<nat>)
    ensures |numbers| == |events|
  {
    seq(|events|, i requires 0 <= i < |events| => events[i].number)
  }

  function Ids(fragments: seq<Fragment>): (ids: seq<nat>)
    ensures |ids| == |fragments|
  {
    seq(|fragments|, i requires 0 <= i < |fragments| => fragments[i].sequenceId)
  }

  /** The fragments are numbered by unwrapping the counters of their events. */
  ghost predicate Unwrapped(fragments: seq<Fragment>, unwrapper: Unwrapper) {
    && Ids(fragments) == SequenceIds(START, Numbers(Events(fragments)))
    && unwrapper == After(START, Numbers(Events(fragments)))
  }

  predicate NoRetries(c: Consumer) {
    !c.NotFound? && (c.LookingUp? ==> c.tries == 0)
  }

  /** What every action keeps. */
  ghost predicate Inv(s: Readout, blockCount: nat) {
    && BlocksOwned(s, FreshPool(blockCount).Blocks())
    && ContentMatches(s)
    && s.published == Events(s.fragments) + InFlight(s)
    && Unwrapped(s.fragments, s.unwrapper)
  }

  ghost predicate FragmentsDated(fragments: seq<Fragment>) {
    forall f | f in fragments :: f.timestamp == f.event.timestamp
  }

  /** What every action keeps as long as stamps are fresh. */
  ghost predicate Dated(s: Readout) {
    && MapAgrees(s.timestamps, InFlight(s))
    && FragmentsDated(s.fragments)
    && NoRetries(s.consumer)
  }

  lemma InitInv(blockCount: nat)
    ensures Inv(Init(blockCount), blockCount) && Dated(Init(blockCount))
  {
  }

  // Each action keeps the invariant; the cases are grouped by what they touch.

  /** Blocks only move between the four places. */
  lemma StepOwnsBlocks(s: Readout, a: Action, all: multiset<nat>)
    requires BlocksOwned(s, all) && Enabled(s, a)
    ensures BlocksOwned(Do(s, a), all)
  {
    if a.ProducerTake? {
      ProducerTakeMovesBlock(s);
    } else if a.ProducerGiveBack? || a.ProducerQueue? {
      ProducerReturnMovesBlock(s, a);
    } else if a.ConsumerTake? {
      ConsumerTakeMovesBlock(s);
    } else if a.ConsumerCopy? {
      ConsumerCopyMovesBlock(s);
    } else {
      OtherStepsMoveNothing(s, a);
    }
    Regroup(s);
    Regroup(Do(s, a));
  }

  lemma Regroup(s: Readout)
    ensures ProducerBlocks(s) + HeldByConsumer(s.consumer) == ConsumerBlocks(s) + HeldByProducer(s.producer)
    ensures s.pool.Blocks() + HeldByProducer(s.producer) + HeldByConsumer(s.consumer)
            == ProducerBlocks(s) + HeldByConsumer(s.consumer)
  {
  }

  ghost function ProducerBlocks(s: Readout): multiset<nat> {
    s.pool.Blocks() + HeldByProducer(s.producer)
  }

  ghost function ConsumerBlocks(s: Readout): multiset<nat> {
    s.pool.Blocks() + HeldByConsumer(s.consumer)
  }

  lemma ProducerTakeMovesBlock(s: Readout)
    requires s.producer.Idle?
    ensures ProducerBlocks(Do(s, ProducerTake)) == ProducerBlocks(s) && Do(s, ProducerTake).consumer == s.consumer
  {
    TakeFreeMovesBlock(s.pool);
  }

  lemma ProducerReturnMovesBlock(s: Readout, a: Action)
    requires a.ProducerGiveBack? || a.ProducerQueue?
    requires Enabled(s, a)
    ensures ProducerBlocks(Do(s, a)) == ProducerBlocks(s) && Do(s, a).consumer == s.consumer
  {
    ReturnMovesBlock(s.pool, s.producer.block);
  }

  lemma ConsumerTakeMovesBlock(s: Readout)
    requires s.consumer.Waiting?
    ensures ConsumerBlocks(Do(s, ConsumerTake)) == ConsumerBlocks(s) && Do(s, ConsumerTake).producer == s.producer
  {
    TakeActiveMovesBlock(s.pool);
  }

  lemma ConsumerCopyMovesBlock(s: Readout)
    requires s.consumer.Holding?
    ensures ConsumerBlocks(Do(s, ConsumerCopy)) == ConsumerBlocks(s) && Do(s, ConsumerCopy).producer == s.producer
  {
    var b := s.consumer.block;
    ReturnMovesBlock(s.pool, b);
    var next := Do(s, ConsumerCopy);
    assert next.pool == s.pool.ReturnFree(b) && HeldByConsumer(next.consumer) == multiset{};
    assert HeldByConsumer(s.consumer) == multiset{b};
  }

  lemma {:induction false} OtherStepsMoveNothing(s: Readout, a: Action)
    requires Enabled(s, a)
    requires !a.ProducerTake? && !a.ProducerGiveBack? && !a.ProducerQueue? && !a.ConsumerTake? && !a.ConsumerCopy?
    ensures var next := Do(s, a);
            && next.pool == s.pool
            && HeldByProducer(next.producer) == HeldByProducer(s.producer)
            && HeldByConsumer(next.consumer) == HeldByConsumer(s.consumer)
  {
    if a.ProducerThrow? || a.ProducerStamp? {
      assert Do(s, a).consumer == s.consumer && Do(s, a).pool == s.pool;
    } else {
      assert Do(s, a).producer == s.producer && Do(s, a).pool == s.pool;
    }
  }

  /** A block that a thread holds is nowhere else. */
  lemma HeldIsNotInPool(s: Readout, blockCount: nat, b: nat)
    requires BlocksOwned(s, FreshPool(blockCount).Blocks())
    requires b in HeldByProducer(s.producer) + HeldByConsumer(s.consumer)
    ensures b !in s.pool.Blocks()
    ensures b in HeldByProducer(s.producer) ==> b !in HeldByConsumer(s.consumer)
  {
    FreshBlocksUnique(blockCount);
    var all := FreshPool(blockCount).Blocks();
    assert all[b] == s.pool.Blocks()[b] + HeldByProducer(s.producer)[b] + HeldByConsumer(s.consumer)[b];
    assert b in all;
  }

  /** Fetching serves every event exactly when their counters differ and the map has each one's timestamp. */
  lemma {:induction false} ServesMeans(timestamps: map<nat, int>, flight: seq<Event>)
    ensures Serves(timestamps, flight) <==> DistinctCounters(flight) && OwnTimestamps(timestamps, flight)
    decreases |flight|
  {
    if flight != [] {
      var c, rest := flight[0].Counter(), flight[1..];
      ServesMeans(timestamps - {c}, rest);
      if Serves(timestamps, flight) {
        ServedFromFirst(timestamps, flight);
      } else if DistinctCounters(flight) && OwnTimestamps(timestamps, flight) {
        OwnAfterFetch(timestamps, flight);
      }
    }
  }

  lemma ServedFromFirst(timestamps: map<nat, int>, flight: seq<Event>)
    requires flight != [] && OwnTimestamps(timestamps, [flight[0]])
    requires DistinctCounters(flight[1..]) && OwnTimestamps(timestamps - {flight[0].Counter()}, flight[1..])
    ensures DistinctCounters(flight) && OwnTimestamps(timestamps, flight)
  {
    assert flight == [flight[0]] + flight[1..];
    assert flight[0] in [flight[0]];
    forall i, j | 0 <= i < j < |flight|
      ensures flight[i].Counter() != flight[j].Counter()
    {
      assert flight[j] == flight[1..][j - 1] && flight[j] in flight[1..];
      assert i > 0 ==> flight[i] == flight[1..][i - 1];
    }
  }

  lemma OwnAfterFetch(timestamps: map<nat, int>, flight: seq<Event>)
    requires flight != [] && DistinctCounters(flight) && OwnTimestamps(timestamps, flight)
    ensures DistinctCounters(flight[1..]) && OwnTimestamps(timestamps - {flight[0].Counter()}, flight[1..])
  {
    var left, rest := timestamps - {flight[0].Counter()}, flight[1..];
    forall i, j | 0 <= i < j < |rest|
      ensures rest[i].Counter() != rest[j].Counter()
    {
      assert flight[i + 1].Counter() != flight[j + 1].Counter();
    }
    forall e | e in rest
      ensures e.Counter() in left && left[e.Counter()] == e.timestamp
    {
      var j :| 0 <= j < |rest| && rest[j] == e;
      assert flight[0].Counter() != flight[j + 1].Counter();
    }
  }

  /** A timestamp goes in without harm exactly when no event in flight has its counter. */
  lemma {:induction false} StampServes(timestamps: map<nat, int>, flight: seq<Event>, e: Event)
    requires Serves(timestamps, flight)
    ensures Serves(timestamps[e.Counter() := e.timestamp], flight + [e]) <==> NewCounter(flight, e)
  {
    ServesMeans(timestamps, flight);
    ServesMeans(timestamps[e.Counter() := e.timestamp], flight + [e]);
    if !NewCounter(flight, e) {
      var f :| f in flight && f.Counter() == e.Counter();
      var i :| 0 <= i < |flight| && flight[i] == f;
      assert (flight + [e])[i].Counter() == (flight + [e])[|flight|].Counter();
    }
  }

  lemma StampAgrees(timestamps: map<nat, int>, flight: seq<Event>, e: Event)
    requires MapAgrees(timestamps, flight) && NewCounter(flight, e)
    ensures MapAgrees(timestamps[e.Counter() := e.timestamp], flight + [e])
  {
    var all, stamped := flight + [e], timestamps[e.Counter() := e.timestamp];
    forall c | c in stamped
      ensures exists f :: f in all && f.Counter() == c
    {
      if c == e.Counter() { assert e in all; } else { var f :| f in flight && f.Counter() == c; assert f in all; }
    }
  }

  lemma FetchAgrees(timestamps: map<nat, int>, flight: seq<Event>)
    requires flight != [] && MapAgrees(timestamps, flight)
    ensures MapAgrees(timestamps - {flight[0].Counter()}, flight[1..])
  {
    OwnAfterFetch(timestamps, flight);
    var left, rest := timestamps - {flight[0].Counter()}, flight[1..];
    forall c | c in left
      ensures exists e :: e in rest && e.Counter() == c
    {
      var e :| e in flight && e.Counter() == c;
      assert e in rest;
    }
  }

  /** Numbers less than 2^24 apart have different counters; numbers exactly 2^24 apart share one. */
  lemma CountersDiffer(older: nat, newer: nat)
    ensures older < newer < older + COUNTER_RANGE ==> older % COUNTER_RANGE != newer % COUNTER_RANGE
    ensures newer == older + COUNTER_RANGE ==> older % COUNTER_RANGE == newer % COUNTER_RANGE
  {
  }

  // What each action does to the events in flight

  predicate Builds(a: Action) {
    a.ConsumerFetch? || a.ConsumerMakeUp?
  }

  lemma FlightKept(s: Readout, a: Action)
    requires Enabled(s, a) && ContentMatches(s)
    requires !a.ProducerStamp? && !Builds(a)
    ensures InFlight(Do(s, a)) == InFlight(s)
    ensures ContentMatches(Do(s, a))
  {
    var next := Do(s, a);
    if a.ProducerQueue? {
      assert Queued(next) == Queued(s) + Publishing(s);
      assert Building(next) == Building(s) && Publishing(next) == [];
    } else if a.ConsumerTake? {
      TakenIsBuilding(s);
      assert Publishing(next) == Publishing(s);
    } else {
      OtherStepsKeepQueue(s, a);
    }
  }

  lemma {:induction false} OtherStepsKeepQueue(s: Readout, a: Action)
    requires Enabled(s, a) && ContentMatches(s)
    requires !a.ProducerStamp? && !Builds(a) && !a.ProducerQueue? && !a.ConsumerTake?
    ensures var next := Do(s, a);
            Building(next) == Building(s) && Queued(next) == Queued(s) && Publishing(next) == Publishing(s)
  {
    var next := Do(s, a);
    assert next.pool.active == s.pool.active && next.content == s.content;
  }

  lemma {:induction false} TakenIsBuilding(s: Readout)
    requires s.consumer.Waiting?
    ensures var next := Do(s, ConsumerTake); Building(next) + Queued(next) == Queued(s)
  {
  }

  lemma FlightStamped(s: Readout, e: Event, blockCount: nat)
    requires s.producer.Filling? && BlocksOwned(s, FreshPool(blockCount).Blocks())
    ensures InFlight(Do(s, ProducerStamp(e))) == InFlight(s) + [e]
    ensures ContentMatches(Do(s, ProducerStamp(e)))
  {
    var b, next := s.producer.block, Do(s, ProducerStamp(e));
    HeldIsNotInPool(s, blockCount, b);
    assert forall i | 0 <= i < |s.pool.active| :: s.pool.active[i] in s.pool.Blocks();
    assert Queued(next) == Queued(s);
    assert s.consumer.Holding? || s.consumer.Aborted? ==> s.consumer.block != b;
    assert Building(next) == Building(s);
  }

  /** Building a fragment takes the oldest event in flight. */
  lemma {:induction false} FlightBuilt(s: Readout, a: Action)
    requires Builds(a) && Enabled(s, a) && ContentMatches(s)
    ensures InFlight(s) == [s.consumer.event] + InFlight(Do(s, a))
    ensures ContentMatches(Do(s, a))
  {
    var next := Do(s, a);
    assert next.pool == s.pool && next.content == s.content && next.producer == s.producer;
    assert Queued(next) == Queued(s) && Publishing(next) == Publishing(s);
    assert Building(s) == [s.consumer.event] && Building(next) == [];
    Associate(Building(s), Queued(s), Publishing(s));
  }

  lemma {:induction false} StampKeepsInv(s: Readout, e: Event, blockCount: nat)
    requires Inv(s, blockCount) && Enabled(s, ProducerStamp(e))
    ensures Inv(Do(s, ProducerStamp(e)), blockCount)
  {
    StepOwnsBlocks(s, ProducerStamp(e), FreshPool(blockCount).Blocks());
    FlightStamped(s, e, blockCount);
    Associate(Events(s.fragments), InFlight(s), [e]);
  }

  /** A fragment more is an event more and an id more. */
  lemma {:induction false} FragmentIsUnwrapped(fragments: seq<Fragment>, f: Fragment, u: Unwrapper)
    requires Unwrapped(fragments, u) && f.sequenceId == u.Next(f.event.Counter()).SequenceId()
    ensures Unwrapped(fragments + [f], u.Next(f.event.Counter()))
    ensures Events(fragments + [f]) == Events(fragments) + [f.event]
  {
    var more := fragments + [f];
    assert Events(more) == Events(fragments) + [f.event];
    assert Numbers(Events(more)) == Numbers(Events(fragments)) + [f.event.number];
    SequenceIdsGrow(START, Numbers(Events(fragments)), f.event.number);
    assert Ids(more) == Ids(fragments) + [f.sequenceId];
  }

  lemma {:induction false} BuildKeepsInv(s: Readout, a: Action, blockCount: nat)
    requires Inv(s, blockCount) && Builds(a) && Enabled(s, a)
    ensures Inv(Do(s, a), blockCount)
  {
    var next, e := Do(s, a), s.consumer.event;
    StepOwnsBlocks(s, a, FreshPool(blockCount).Blocks());
    FlightBuilt(s, a);
    var f := next.fragments[|s.fragments|];
    assert next.fragments == s.fragments + [f] && f.event == e;
    FragmentIsUnwrapped(s.fragments, f, s.unwrapper);
    Associate(Events(s.fragments), [e], InFlight(next));
  }

  lemma {:induction false} OtherStepsKeepFragments(s: Readout, a: Action)
    requires Enabled(s, a) && !a.ProducerStamp? && !Builds(a)
    ensures var next := Do(s, a);
            && next.fragments == s.fragments && next.published == s.published
            && next.unwrapper == s.unwrapper && next.timestamps == s.timestamps
  {
  }

  lemma {:induction false} StepKeepsInv(s: Readout, a: Action, blockCount: nat)
    requires Inv(s, blockCount) && Enabled(s, a)
    ensures Inv(Do(s, a), blockCount)
  {
    if a.ProducerStamp? {
      StampKeepsInv(s, a.event, blockCount);
    } else if Builds(a) {
      BuildKeepsInv(s, a, blockCount);
    } else {
      StepOwnsBlocks(s, a, FreshPool(blockCount).Blocks());
      FlightKept(s, a);
      OtherStepsKeepFragments(s, a);
    }
  }

  lemma {:induction false} RunKeepsInv(s: Readout, actions: seq<Action>, blockCount: nat)
    requires Inv(s, blockCount) && EnabledRun(s, actions)
    ensures Inv(Run(s, actions), blockCount)
    decreases |actions|
  {
    if actions != [] {
      StepKeepsInv(s, actions[0], blockCount);
      RunKeepsInv(Do(s, actions[0]), actions[1..], blockCount);
    }
  }

  lemma {:induction false} PublishedAreStamps(s: Readout, actions: seq<Action>)
    requires EnabledRun(s, actions)
    ensures Run(s, actions).published == s.published + Stamps(actions)
    decreases |actions|
  {
    if actions != [] {
      var next := Do(s, actions[0]);
      assert next.published == s.published + (if actions[0].ProducerStamp? then [actions[0].event] else []);
      PublishedAreStamps(next, actions[1..]);
    }
  }

  // Fresh stamps

  lemma {:induction false} LookUpSucceeds(s: Readout)
    requires Dated(s) && Enabled(s, ConsumerLookUp)
    ensures Do(s, ConsumerLookUp).consumer == Found(s.consumer.event)
  {
    assert InFlight(s)[0] == s.consumer.event;
  }

  lemma {:induction false} FetchKeepsDated(s: Readout)
    requires Dated(s) && ContentMatches(s) && Enabled(s, ConsumerFetch)
    ensures Dated(Do(s, ConsumerFetch))
  {
    FlightBuilt(s, ConsumerFetch);
    var flight, next := InFlight(s), Do(s, ConsumerFetch);
    assert flight[0] == s.consumer.event && flight[0] in flight && flight[1..] == InFlight(next);
    FetchAgrees(s.timestamps, flight);
    FetchedIsDated(s);
  }

  lemma {:induction false} FetchedIsDated(s: Readout)
    requires Enabled(s, ConsumerFetch) && FragmentsDated(s.fragments)
    requires s.timestamps[s.consumer.event.Counter()] == s.consumer.event.timestamp
    ensures FragmentsDated(Do(s, ConsumerFetch).fragments)
    ensures Do(s, ConsumerFetch).timestamps == s.timestamps - {s.consumer.event.Counter()}
  {
  }

  lemma {:induction false} StepKeepsDated(s: Readout, a: Action, blockCount: nat)
    requires Inv(s, blockCount) && Dated(s) && Enabled(s, a) && Fresh(s, a)
    ensures Dated(Do(s, a))
  {
    if a.ProducerStamp? {
      FlightStamped(s, a.event, blockCount);
      StampAgrees(s.timestamps, InFlight(s), a.event);
    } else if a.ConsumerFetch? {
      FetchKeepsDated(s);
    } else {
      FlightKept(s, a);
      OtherStepsKeepFragments(s, a);
      if a.ConsumerLookUp? {
        LookUpSucceeds(s);
      }
    }
  }

  /** A stamp that is not fresh costs an event in flight its timestamp. */
  lemma {:induction false} StaleStampFailsToServe(s: Readout, a: Action, blockCount: nat)
    requires Inv(s, blockCount) && Dated(s) && Enabled(s, a) && !Fresh(s, a)
    ensures !Serves(Do(s, a).timestamps, InFlight(Do(s, a)))
  {
    ServesMeans(s.timestamps, InFlight(s));
    FlightStamped(s, a.event, blockCount);
    StampServes(s.timestamps, InFlight(s), a.event);
  }

  lemma {:induction false} FreshRunsServe(s: Readout, actions: seq<Action>, blockCount: nat)
    requires Inv(s, blockCount) && Dated(s) && EnabledRun(s, actions)
    ensures AlwaysServes(s, actions) <==> FreshRun(s, actions)
    ensures FreshRun(s, actions) ==> Dated(Run(s, actions))
    decreases |actions|
  {
    ServesMeans(s.timestamps, InFlight(s));
    if actions != [] {
      var next := Do(s, actions[0]);
      if Fresh(s, actions[0]) {
        StepKeepsInv(s, actions[0], blockCount);
        StepKeepsDated(s, actions[0], blockCount);
        FreshRunsServe(next, actions[1..], blockCount);
      } else {
        StaleStampFailsToServe(s, actions[0], blockCount);
      }
    }
  }

  // ---------------------------------------------------------------------------------
  // What every interleaving guarantees
  // ---------------------------------------------------------------------------------

  lemma FlightIsBounded(s: Readout, blockCount: nat)
    requires BlocksOwned(s, FreshPool(blockCount).Blocks())
    ensures |InFlight(s)| <= blockCount + 1
    ensures s.producer.Filling? ==> |InFlight(s)| <= blockCount
  {
    var all := FreshPool(blockCount).Blocks();
    assert |all| == blockCount;
    assert |all| == |s.pool.free| + |s.pool.active| + |HeldByProducer(s.producer)| + |HeldByConsumer(s.consumer)|;
  }

  lemma {:induction false} CountersAreFew(timestamps: map<nat, int>, flight: seq<Event>)
    requires OnlyInFlight(timestamps, flight)
    ensures |timestamps| <= |flight|
    decreases |flight|
  {
    if flight == [] {
      assert timestamps == map[];
    } else {
      var c, rest := flight[0].Counter(), flight[1..];
      var left := timestamps - {c};
      forall d | d in left
        ensures exists e :: e in rest && e.Counter() == d
      {
        var e :| e in flight && e.Counter() == d;
        assert e in rest;
      }
      CountersAreFew(left, rest);
      assert timestamps.Keys <= left.Keys + {c};
      assert |timestamps.Keys| <= |left.Keys + {c}| by { SubsetSize(timestamps.Keys, left.Keys + {c}); }
    }
  }

  lemma {:induction false} SubsetSize(a: set<nat>, b: set<nat>)
    requires a <= b
    ensures |a| <= |b|
    decreases |a|
  {
    if a != {} {
      var x :| x in a;
      SubsetSize(a - {x}, b - {x});
    }
  }

  /**
   * In every interleaving, whatever the events: no block is lost or duplicated, the fragments are the
   * stamped events in order, those missing are in flight, at most one more than there are blocks, and
   * sequence ids are those of unwrapping the events' counters.
   */
  lemma {:induction false} NothingIsLost(blockCount: nat, actions: seq<Action>)
    requires EnabledRun(Init(blockCount), actions)
    ensures var s := Run(Init(blockCount), actions);
            && BlocksOwned(s, FreshPool(blockCount).Blocks())
            && Events(s.fragments) + InFlight(s) == Stamps(actions)
            && |InFlight(s)| <= blockCount + 1
            && Ids(s.fragments) == SequenceIds(START, Numbers(Events(s.fragments)))
  {
    InitInv(blockCount);
    RunKeepsInv(Init(blockCount), actions, blockCount);
    PublishedAreStamps(Init(blockCount), actions);
    FlightIsBounded(Run(Init(blockCount), actions), blockCount);
  }

  /** Between two passes of the readout loop, with nothing held, the pool has all its blocks back. */
  lemma {:induction false} PassesGiveBlocksBack(blockCount: nat, actions: seq<Action>)
    requires EnabledRun(Init(blockCount), actions)
    ensures var s := Run(Init(blockCount), actions);
            (s.producer.Idle? || s.producer.OutOfBlocks?) && !s.consumer.Holding? && !s.consumer.Aborted? ==>
              s.pool.Blocks() == FreshPool(blockCount).Blocks()
  {
    InitInv(blockCount);
    RunKeepsInv(Init(blockCount), actions, blockCount);
  }

  /** What the readout promises of the timestamps. */
  ghost predicate IsRight(s: Readout, blockCount: nat) {
    && (forall f | f in s.fragments :: f.timestamp == f.event.timestamp)
    && MapAgrees(s.timestamps, InFlight(s))
    && |s.timestamps| <= blockCount + 1
    && !s.consumer.NotFound?
    && (s.consumer.LookingUp? ==> s.consumer.event.Counter() in s.timestamps)
  }

  /**
   * Main result. In every interleaving, no event in flight ever loses its timestamp exactly when every
   * stamp has a counter that is not in flight; and then every fragment has its own event's timestamp,
   * the map holds just the events in flight, at most one more than there are blocks, and no look-up fails.
   */
  lemma {:induction false} ReadoutIsRight(blockCount: nat, actions: seq<Action>)
    requires EnabledRun(Init(blockCount), actions)
    ensures AlwaysServes(Init(blockCount), actions) <==> FreshRun(Init(blockCount), actions)
    ensures FreshRun(Init(blockCount), actions) ==> IsRight(Run(Init(blockCount), actions), blockCount)
  {
    var s := Run(Init(blockCount), actions);
    InitInv(blockCount);
    FreshRunsServe(Init(blockCount), actions, blockCount);
    RunKeepsInv(Init(blockCount), actions, blockCount);
    FlightIsBounded(s, blockCount);
    if FreshRun(Init(blockCount), actions) {
      CountersAreFew(s.timestamps, InFlight(s));
      assert s.consumer.LookingUp? ==> InFlight(s)[0] == s.consumer.event;
    }
  }

  lemma {:induction false} NumbersJoin(first: seq<Event>, second: seq<Event>)
    ensures Numbers(first + second) == Numbers(first) + Numbers(second)
  {
  }

  /**
   * In every interleaving of a run whose event numbers increase from the first epoch on, fragments bear
   * their true numbers exactly when every advance from one fragment to the next is followed.
   */
  lemma {:induction false} FragmentsAreNumbered(blockCount: nat, actions: seq<Action>)
    requires EnabledRun(Init(blockCount), actions) && RunNumbers(Numbers(Stamps(actions)))
    ensures var fragments := Run(Init(blockCount), actions).fragments;
            Ids(fragments) == Numbers(Events(fragments)) <==> AllFollowed(Numbers(Events(fragments)))
  {
    var s := Run(Init(blockCount), actions);
    NothingIsLost(blockCount, actions);
    NumbersJoin(Events(s.fragments), InFlight(s));
    RunBegins(Numbers(Events(s.fragments)), Numbers(InFlight(s)));
    SequenceIdsAreTrue(Numbers(Events(s.fragments)));
  }

  // ---------------------------------------------------------------------------------
  // When stamps are fresh
  // ---------------------------------------------------------------------------------

  predicate AdvanceAt(events: seq<Event>, i: nat, advance: nat)
    requires 0 < i < |events|
  {
    0 < events[i].number - events[i - 1].number <= advance
  }

  /** Every event is at least one and at most `advance` triggers after the one before it. */
  predicate AdvancesAtMost(events: seq<Event>, advance: nat) {
    forall i {:trigger AdvanceAt(events, i, advance)} | 0 < i < |events| :: AdvanceAt(events, i, advance)
  }

  lemma {:induction false} PrefixAdvances(events: seq<Event>, more: seq<Event>, advance: nat)
    requires AdvancesAtMost(events + more, advance)
    ensures AdvancesAtMost(events, advance)
  {
    forall i | 0 < i < |events|
      ensures AdvanceAt(events, i, advance)
    {
      assert AdvanceAt(events + more, i, advance);
    }
  }

  lemma {:induction false} SpanOf(events: seq<Event>, i: nat, j: nat, advance: nat)
    requires i < j < |events| && AdvancesAtMost(events, advance)
    ensures 0 < events[j].number - events[i].number <= (j - i) * advance
    decreases j
  {
    assert AdvanceAt(events, j, advance);
    if i < j - 1 {
      SpanOf(events, i, j - 1, advance);
    }
    assert (j - i) * advance == (j - 1 - i) * advance + advance;
  }

  lemma {:induction false} StampIsFresh(s: Readout, e: Event, blockCount: nat, advance: nat)
    requires Inv(s, blockCount) && s.producer.Filling?
    requires blockCount * advance < COUNTER_RANGE && AdvancesAtMost(s.published + [e], advance)
    ensures Fresh(s, ProducerStamp(e))
  {
    FlightIsBounded(s, blockCount);
    var all, flight, k := s.published + [e], InFlight(s), |s.fragments|;
    forall f | f in flight
      ensures f.Counter() != e.Counter()
    {
      var i :| 0 <= i < |flight| && flight[i] == f;
      assert all[k + i] == f && all[|s.published|] == e;
      NearCountersDiffer(all, k + i, |s.published|, blockCount, advance);
    }
  }

  lemma {:induction false} NearCountersDiffer(events: seq<Event>, i: nat, j: nat, blockCount: nat, advance: nat)
    requires i < j < |events| && j - i <= blockCount && AdvancesAtMost(events, advance)
    requires blockCount * advance < COUNTER_RANGE
    ensures events[i].Counter() != events[j].Counter()
  {
    SpanOf(events, i, j, advance);
    Ordered(j - i, blockCount, advance);
    CountersDiffer(events[i].number, events[j].number);
  }

  lemma {:induction false} SmallAdvancesFrom(s: Readout, actions: seq<Action>, blockCount: nat, advance: nat)
    requires Inv(s, blockCount) && EnabledRun(s, actions)
    requires blockCount * advance < COUNTER_RANGE && AdvancesAtMost(s.published + Stamps(actions), advance)
    ensures FreshRun(s, actions)
    decreases |actions|
  {
    if actions != [] {
      var a, next, rest := actions[0], Do(s, actions[0]), Stamps(actions[1..]);
      if a.ProducerStamp? {
        Associate(s.published, [a.event], rest);
        PrefixAdvances(s.published + [a.event], rest, advance);
        StampIsFresh(s, a.event, blockCount, advance);
      } else {
        assert next.published == s.published && Stamps(actions) == rest;
      }
      StepKeepsInv(s, a, blockCount);
      SmallAdvancesFrom(next, actions[1..], blockCount, advance);
    }
  }

  /**
   * A condition on the configuration alone: when no trigger is more than `advance` after the one before
   * and blockCount * advance stays below 2^24, every stamp of every interleaving is fresh.
   */
  lemma {:induction false} SmallAdvancesAreFresh(blockCount: nat, actions: seq<Action>, advance: nat)
    requires EnabledRun(Init(blockCount), actions)
    requires blockCount * advance < COUNTER_RANGE && AdvancesAtMost(Stamps(actions), advance)
    ensures FreshRun(Init(blockCount), actions)
  {
    InitInv(blockCount);
    assert [] + Stamps(actions) == Stamps(actions);
    SmallAdvancesFrom(Init(blockCount), actions, blockCount, advance);
  }

  // ---------------------------------------------------------------------------------
  // A run that misdates two events
  // ---------------------------------------------------------------------------------

  lemma {:induction false} RunsJoin(s: Readout, first: seq<Action>, second: seq<Action>)
    requires EnabledRun(s, first) && EnabledRun(Run(s, first), second)
    ensures EnabledRun(s, first + second) && Run(s, first + second) == Run(Run(s, first), second)
    decreases |first|
  {
    if first == [] {
      assert first + second == second;
    } else {
      assert (first + second)[1..] == first[1..] + second;
      RunsJoin(Do(s, first[0]), first[1..], second);
    }
  }

  lemma {:induction false} RunOfOne(s: Readout, a: Action)
    requires Enabled(s, a)
    ensures EnabledRun(s, [a]) && Run(s, [a]) == Do(s, a)
  {
    assert [a][1..] == [];
  }

  /** One action before a run. */
  lemma {:induction false} RunAfter(s: Readout, a: Action, rest: seq<Action>)
    requires Enabled(s, a) && EnabledRun(Do(s, a), rest)
    ensures EnabledRun(s, [a] + rest) && Run(s, [a] + rest) == Run(Do(s, a), rest)
  {
    RunOfOne(s, a);
    RunsJoin(s, [a], rest);
  }

  /** The producer's part for one event, and the consumer's with a timestamp found or made up. */
  function Deliver(e: Event): seq<Action> {
    [ProducerTake] + [ProducerStamp(e), ProducerQueue]
  }

  function Fetching(): seq<Action> {
    [ConsumerTake, ConsumerCopy] + [ConsumerLookUp, ConsumerFetch]
  }

  function MakingUp(timestamp: int): seq<Action> {
    [ConsumerTake, ConsumerCopy] + ([ConsumerLookUp, ConsumerLookUp] +
    ([ConsumerLookUp, ConsumerLookUp] + [ConsumerMakeUp(timestamp)]))
  }

  lemma {:induction false} RunOfTwo(s: Readout, a: Action, b: Action)
    requires Enabled(s, a) && Enabled(Do(s, a), b)
    ensures EnabledRun(s, [a, b]) && Run(s, [a, b]) == Do(Do(s, a), b)
  {
    RunOfOne(Do(s, a), b);
    RunAfter(s, a, [b]);
    assert [a, b] == [a] + [b];
  }

  lemma {:induction false} DeliverRuns(s: Readout, e: Event)
    requires s.producer.Idle? && s.pool.free != []
    ensures EnabledRun(s, Deliver(e))
    ensures var b, next := s.pool.free[|s.pool.free| - 1], Run(s, Deliver(e));
            && next.producer == Idle && next.consumer == s.consumer && next.fragments == s.fragments
            && next.unwrapper == s.unwrapper && next.content == s.content[b := e]
            && next.timestamps == s.timestamps[e.Counter() := e.timestamp]
            && next.pool.free == s.pool.free[..|s.pool.free| - 1] && next.pool.active == s.pool.active + [b]
  {
    var taken := Do(s, ProducerTake);
    RunOfTwo(taken, ProducerStamp(e), ProducerQueue);
    RunAfter(s, ProducerTake, [ProducerStamp(e), ProducerQueue]);
  }

  /** The consumer has taken and copied the oldest queued event. */
  predicate Copied(s: Readout, next: Readout) {
    && s.pool.active != []
    && next == s.(pool := next.pool, consumer := LookingUp(EventIn(s, s.pool.active[0]), 0))
    && next.pool.active == s.pool.active[1..]
  }

  lemma {:induction false} CopyRuns(s: Readout)
    requires s.consumer.Waiting? && s.pool.active != []
    ensures EnabledRun(s, [ConsumerTake, ConsumerCopy])
    ensures Copied(s, Run(s, [ConsumerTake, ConsumerCopy]))
  {
    RunOfTwo(s, ConsumerTake, ConsumerCopy);
  }

  lemma {:induction false} FetchingRuns(s: Readout, e: Event)
    requires s.consumer.Waiting? && s.pool.active != [] && EventIn(s, s.pool.active[0]) == e
    requires e.Counter() in s.timestamps
    ensures EnabledRun(s, Fetching())
    ensures var next, u := Run(s, Fetching()), s.unwrapper.Next(e.Counter());
            && next.consumer == Waiting && next.content == s.content && next.pool.active == s.pool.active[1..]
            && next.timestamps == s.timestamps - {e.Counter()} && next.unwrapper == u
            && next.fragments == s.fragments + [Fragment(u.SequenceId(), e, s.timestamps[e.Counter()])]
  {
    CopyRuns(s);
    var copied := Run(s, [ConsumerTake, ConsumerCopy]);
    RunOfTwo(copied, ConsumerLookUp, ConsumerFetch);
    RunsJoin(s, [ConsumerTake, ConsumerCopy], [ConsumerLookUp, ConsumerFetch]);
  }

  lemma {:induction false} MakingUpRuns(s: Readout, e: Event, timestamp: int)
    requires s.consumer.Waiting? && s.pool.active != [] && EventIn(s, s.pool.active[0]) == e
    requires e.Counter() !in s.timestamps
    ensures EnabledRun(s, MakingUp(timestamp))
    ensures Run(s, MakingUp(timestamp)).fragments ==
            s.fragments + [Fragment(s.unwrapper.Next(e.Counter()).SequenceId(), e, timestamp)]
  {
    CopyRuns(s);
    var looks := [ConsumerLookUp, ConsumerLookUp];
    var copied := Run(s, [ConsumerTake, ConsumerCopy]);
    RunOfTwo(copied, ConsumerLookUp, ConsumerLookUp);
    var missed := Run(copied, looks);
    RunOfTwo(missed, ConsumerLookUp, ConsumerLookUp);
    RunOfOne(Run(missed, looks), ConsumerMakeUp(timestamp));
    RunsJoin(missed, looks, [ConsumerMakeUp(timestamp)]);
    RunsJoin(copied, looks, looks + [ConsumerMakeUp(timestamp)]);
    RunsJoin(s, [ConsumerTake, ConsumerCopy], looks + (looks + [ConsumerMakeUp(timestamp)]));
  }

  /** Two events 2^24 triggers apart, the first not yet fetched when the second is stamped. */
  function CollidingRun(first: int, second: int, madeUp: int): seq<Action> {
    Deliver(Event(0, first)) + (Deliver(Event(COUNTER_RANGE, second)) + (Fetching() + MakingUp(madeUp)))
  }

  /** Both are misdated: the first gets the second's timestamp, and the second a made-up one. */
  lemma {:induction false} SharedCounterMisdates(first: int, second: int, madeUp: int)
    ensures EnabledRun(Init(2), CollidingRun(first, second, madeUp))
    ensures Run(Init(2), CollidingRun(first, second, madeUp)).fragments ==
            [Fragment(0, Event(0, first), second), Fragment(0, Event(COUNTER_RANGE, second), madeUp)]
  {
    var e, f := Event(0, first), Event(COUNTER_RANGE, second);
    DeliverRuns(Init(2), e);
    var one := Run(Init(2), Deliver(e));
    DeliverRuns(one, f);
    var two := Run(one, Deliver(f));
    FetchingRuns(two, e);
    var three := Run(two, Fetching());
    MakingUpRuns(three, f, madeUp);
    RunsJoin(two, Fetching(), MakingUp(madeUp));
    RunsJoin(one, Deliver(f), Fetching() + MakingUp(madeUp));
    RunsJoin(Init(2), Deliver(e), Deliver(f) + (Fetching() + MakingUp(madeUp)));
  }
}
