/**
 * Bottom CRT time reconstruction. A module's counter restarts at every sync pulse it receives, one
 * pulse being sent every seven seconds; the generator must count the pulses, also the missed ones.
 */
module BottomCrt {
  import opened TimeRecovery
  import Bits
  import opened Sequences

  const SYNC_NS: nat := 7_000_000_000
  const GRACE_NS: nat := 200_000_000
  const ROLLOVER_THRESHOLD_NS: nat := 5_000_000
  const TICK_NS: nat := 16

  /** A counter of 32 bits: after this many nanoseconds it starts again, pulse or not. */
  const FIELD_NS: nat := 0x1_0000_0000 * TICK_NS

  const CABLE_OFFSET_NS: int := 414
  const DIRECT_WIRING_NS: int := 14
  const MINIMUM_PACKET_BYTES: nat := 12

  /** What the generator keeps per module. */
  datatype Module = Module(lower: nat, upper: nat, missed: nat)

  const BEFORE_RUN: Module := Module(0, 0, 0)

  predicate IsReset(m: Module, reading: nat) {
    reading + ROLLOVER_THRESHOLD_NS < m.lower
  }

  /** One packet of a module, with its counter reading in nanoseconds. */
  function Advance(m: Module, reading: nat): Module {
    if m.lower == 0 then m.(lower := reading)
    else
      var upper := if IsReset(m, reading) then m.upper + 1 + m.missed else m.upper;
      var missed := if IsReset(m, reading) then 0 else m.missed;
      Module(reading, upper, if reading > (1 + missed) * SYNC_NS + GRACE_NS then missed + 1 else missed)
  }

  /** A reading as it truly was taken: how many sync pulses had been sent in the run when the module last
      received one, and the time since then. */
  datatype Reading = Reading(syncs: nat, sinceSync: nat) {
    /** True time since the run's first sync pulse. */
    function Time(): nat {
      syncs * SYNC_NS + sinceSync
    }

    /** What the counter shows. */
    function Reported(): nat {
      sinceSync % FIELD_NS
    }
  }

  function Track(m: Module, readings: seq<Reading>): Module
    decreases |readings|
  {
    if readings == [] then m
    else Advance(Track(m, readings[..|readings| - 1]), readings[|readings| - 1].Reported())
  }

  /** The largest number of whole grace-extended sync periods that a reading lies beyond. */
  function OverduePulses(reading: nat): nat {
    if reading <= SYNC_NS + GRACE_NS then 0 else 1 + OverduePulses(reading - SYNC_NS)
  }

  lemma {:induction false} OverdueBounds(reading: nat)
    ensures reading <= (1 + OverduePulses(reading)) * SYNC_NS + GRACE_NS
    ensures OverduePulses(reading) > 0 ==> reading > OverduePulses(reading) * SYNC_NS + GRACE_NS
  {
    if reading > SYNC_NS + GRACE_NS {
      OverdueBounds(reading - SYNC_NS);
    }
  }

  lemma OverdueUnique(reading: nat, k: nat)
    requires reading <= (1 + k) * SYNC_NS + GRACE_NS
    requires k > 0 ==> reading > k * SYNC_NS + GRACE_NS
    ensures OverduePulses(reading) == k
  {
    OverdueBounds(reading);
  }

  /** A rise of at most one sync period raises the overdue count by at most the one the generator adds. */
  lemma {:induction false} OverdueFollows(before: nat, after: nat)
    requires before <= after <= before + SYNC_NS
    ensures var missed := OverduePulses(before);
            OverduePulses(after) == if after > (1 + missed) * SYNC_NS + GRACE_NS then missed + 1 else missed
  {
    OverdueBounds(before);
    OverdueUnique(after, if after > (1 + OverduePulses(before)) * SYNC_NS + GRACE_NS
                         then OverduePulses(before) + 1 else OverduePulses(before));
  }

  function Max(a: nat, b: nat): nat {
    if a > b then a else b
  }

  /** The largest reading since the last pulse received: readings do not come strictly in order. */
  function Peak(readings: seq<Reading>): (peak: nat)
    requires readings != []
    ensures peak >= readings[|readings| - 1].sinceSync
    decreases |readings|
  {
    var n := |readings| - 1;
    if n == 0 || readings[n - 1].syncs != readings[n].syncs then readings[n].sinceSync
    else Max(Peak(readings[..n]), readings[n].sinceSync)
  }

  /**
   * What a module that takes data continuously delivers after a reading `a`: it is read at least once per
   * sync period, a pulse resets all readings taken before it, and the first reading after a reset, or
   * after a reading of zero, is no later than 7.2 s. Pulses may be missed, and order is not asked for; but
   * a reading beyond the counter's range is at most a period later than the one it comes after.
   */
  predicate Successive(peak: nat, a: Reading, b: Reading) {
    if b.syncs == a.syncs then
      && b.sinceSync <= SYNC_NS + (if a.sinceSync == 0 then GRACE_NS else peak)
      && (b.sinceSync >= FIELD_NS ==> b.sinceSync <= a.sinceSync + SYNC_NS)
    else b.syncs > a.syncs ==> peak <= (b.syncs - a.syncs) * SYNC_NS && b.sinceSync <= SYNC_NS + GRACE_NS
  }

  predicate SuccessiveAt(readings: seq<Reading>, i: nat)
    requires 0 < i < |readings|
  {
    Successive(Peak(readings[..i]), readings[i - 1], readings[i])
  }

  ghost predicate Continuous(readings: seq<Reading>) {
    && (readings != [] ==> readings[0].sinceSync <= SYNC_NS + GRACE_NS)
    && (forall i {:trigger SuccessiveAt(readings, i)} | 0 < i < |readings| :: SuccessiveAt(readings, i))
  }

  /**
   * No reading of an earlier period comes after one of a later period; readings of one period are at most
   * 5 ms out of order and within the counter's range; and a reset is a fall by more than 5 ms, with a
   * reading in the last 6.8 s before it when pulses were missed.
   */
  predicate Counted(peak: nat, a: Reading, b: Reading) {
    if b.syncs == a.syncs then a.sinceSync <= b.sinceSync + ROLLOVER_THRESHOLD_NS && b.sinceSync < FIELD_NS
    else
      && b.syncs > a.syncs
      && b.sinceSync + ROLLOVER_THRESHOLD_NS < a.sinceSync
      && (b.syncs > a.syncs + 1 ==> peak > (b.syncs - a.syncs - 1) * SYNC_NS + GRACE_NS)
  }

  predicate CountedAt(readings: seq<Reading>, i: nat)
    requires 0 < i < |readings|
  {
    Counted(Peak(readings[..i]), readings[i - 1], readings[i])
  }

  ghost predicate AllCounted(readings: seq<Reading>) {
    forall i {:trigger CountedAt(readings, i)} | 0 < i < |readings| :: CountedAt(readings, i)
  }

  /** The generator's state is in step with the module: it counts the syncs since the module's first reading. */
  predicate InStep(m: Module, readings: seq<Reading>)
    requires readings != []
  {
    var last := readings[|readings| - 1];
    && m.lower == last.sinceSync < FIELD_NS
    && m.upper + readings[0].syncs == last.syncs
    && m.missed == OverduePulses(Peak(readings))
  }

  lemma FirstReadingInStep(r: Reading)
    requires r.sinceSync <= SYNC_NS + GRACE_NS
    ensures InStep(Advance(BEFORE_RUN, r.Reported()), [r])
  {
  }

  /** A further reading of the same period leaves the missed-pulse count at that of the largest reading. */
  lemma {:induction false} SamePeriod(missed: nat, peak: nat, reading: nat)
    requires missed == OverduePulses(peak) && reading <= peak + SYNC_NS
    ensures (if reading > (1 + missed) * SYNC_NS + GRACE_NS then missed + 1 else missed)
            == OverduePulses(Max(peak, reading))
  {
    OverdueBounds(peak);
    if reading > peak {
      OverdueFollows(peak, reading);
    }
  }

  /** A reading after one of zero: the generator takes it for a first one. */
  lemma {:induction false} AfterZero(peak: nat, reading: nat)
    requires reading <= SYNC_NS + GRACE_NS
    ensures OverduePulses(Max(peak, reading)) == OverduePulses(peak)
  {
    if reading > peak {
      OverdueUnique(peak, 0);
      OverdueUnique(reading, 0);
    }
  }

  /** A reset adds the pulse received and the missed ones exactly when all of those were noticed. */
  lemma {:induction false} ResetCounts(peak: nat, pulses: nat)
    requires 0 < pulses && peak <= pulses * SYNC_NS
    ensures 1 + OverduePulses(peak) == pulses <==> (pulses > 1 ==> peak > (pulses - 1) * SYNC_NS + GRACE_NS)
  {
    OverdueBounds(peak);
    if pulses == 1 {
      OverdueUnique(peak, 0);
    } else if peak > (pulses - 1) * SYNC_NS + GRACE_NS {
      OverdueUnique(peak, pulses - 1);
    }
  }

  lemma {:induction false} PeakGrows(readings: seq<Reading>, b: Reading)
    requires readings != []
    ensures var a := readings[|readings| - 1];
            Peak(readings + [b]) == if a.syncs == b.syncs then Max(Peak(readings), b.sinceSync) else b.sinceSync
  {
    assert (readings + [b])[..|readings|] == readings;
  }

  /** From step to step the sync count stays right exactly when the reading is counted. */
  lemma {:induction false} StepStaysInStep(m: Module, readings: seq<Reading>, b: Reading)
    requires readings != [] && InStep(m, readings)
    requires Successive(Peak(readings), readings[|readings| - 1], b)
    ensures Advance(m, b.Reported()).upper + readings[0].syncs == b.syncs
            <==> Counted(Peak(readings), readings[|readings| - 1], b)
    ensures Counted(Peak(readings), readings[|readings| - 1], b) ==> InStep(Advance(m, b.Reported()), readings + [b])
  {
    var a := readings[|readings| - 1];
    if b.syncs == a.syncs && b.sinceSync < FIELD_NS {
      SamePeriodStays(m, readings, b);
    } else if b.syncs == a.syncs {
      CounterRestarts(m, a, b);
    } else if b.syncs > a.syncs {
      ResetStays(m, readings, b);
    }
  }

  lemma {:induction false} SamePeriodStays(m: Module, readings: seq<Reading>, b: Reading)
    requires readings != [] && InStep(m, readings)
    requires Successive(Peak(readings), readings[|readings| - 1], b)
    requires b.syncs == readings[|readings| - 1].syncs && b.sinceSync < FIELD_NS
    ensures Advance(m, b.Reported()).upper + readings[0].syncs == b.syncs
            <==> readings[|readings| - 1].sinceSync <= b.sinceSync + ROLLOVER_THRESHOLD_NS
    ensures readings[|readings| - 1].sinceSync <= b.sinceSync + ROLLOVER_THRESHOLD_NS ==>
              InStep(Advance(m, b.Reported()), readings + [b])
  {
    var a, peak := readings[|readings| - 1], Peak(readings);
    assert b.Reported() == b.sinceSync;
    PeakGrows(readings, b);
    if a.sinceSync == 0 {
      AfterZero(peak, b.sinceSync);
    } else {
      SamePeriod(m.missed, peak, b.sinceSync);
    }
  }

  /** When the counter starts again by itself, a pulse is counted that was not there. */
  lemma {:induction false} CounterRestarts(m: Module, a: Reading, b: Reading)
    requires m.lower == a.sinceSync < FIELD_NS <= b.sinceSync <= a.sinceSync + SYNC_NS
    ensures Advance(m, b.Reported()).upper == m.upper + 1 + m.missed
  {
    assert b.Reported() == b.sinceSync - FIELD_NS;
  }

  lemma {:induction false} ResetStays(m: Module, readings: seq<Reading>, b: Reading)
    requires readings != [] && InStep(m, readings)
    requires Successive(Peak(readings), readings[|readings| - 1], b) && b.syncs > readings[|readings| - 1].syncs
    ensures Advance(m, b.Reported()).upper + readings[0].syncs == b.syncs
            <==> Counted(Peak(readings), readings[|readings| - 1], b)
    ensures Counted(Peak(readings), readings[|readings| - 1], b) ==> InStep(Advance(m, b.Reported()), readings + [b])
  {
    var a, peak := readings[|readings| - 1], Peak(readings);
    assert b.Reported() == b.sinceSync;
    PeakGrows(readings, b);
    ResetCounts(peak, b.syncs - a.syncs);
    OverdueUnique(b.sinceSync, 0);
  }

  /** A reset that is seen after several pulses adds one and the pulses noticed: the others are lost for good. */
  lemma {:induction false} UnnoticedPulsesAreLost(m: Module, readings: seq<Reading>, b: Reading)
    requires readings != [] && InStep(m, readings) && b.syncs > readings[|readings| - 1].syncs
    requires b.Reported() + ROLLOVER_THRESHOLD_NS < readings[|readings| - 1].sinceSync
    ensures var unnoticed := b.syncs - readings[|readings| - 1].syncs - 1 - OverduePulses(Peak(readings));
            Advance(m, b.Reported()).upper + readings[0].syncs == b.syncs - unnoticed
  {
  }

  lemma TrackPrefix(m: Module, readings: seq<Reading>, n: nat)
    requires 0 < n <= |readings|
    ensures Track(m, readings[..n]) == Advance(Track(m, readings[..n - 1]), readings[n - 1].Reported())
  {
    assert readings[..n][..n - 1] == readings[..n - 1];
  }

  /** Over a whole run the state is in step after every reading as long as every reading is counted. */
  lemma {:induction false} StaysInStep(readings: seq<Reading>, n: nat)
    requires Continuous(readings) && 0 < n <= |readings|
    requires forall i {:trigger CountedAt(readings, i)} | 0 < i < n :: CountedAt(readings, i)
    ensures InStep(Track(BEFORE_RUN, readings[..n]), readings[..n])
  {
    TrackPrefix(BEFORE_RUN, readings, n);
    if n == 1 {
      assert readings[..0] == [] && readings[..1] == [readings[0]];
      FirstReadingInStep(readings[0]);
    } else {
      StaysInStep(readings, n - 1);
      assert SuccessiveAt(readings, n - 1) && CountedAt(readings, n - 1);
      assert readings[..n] == readings[..n - 1] + [readings[n - 1]];
      StepStaysInStep(Track(BEFORE_RUN, readings[..n - 1]), readings[..n - 1], readings[n - 1]);
    }
  }

  predicate CountRightAt(readings: seq<Reading>, n: nat)
    requires 0 < n <= |readings|
  {
    Track(BEFORE_RUN, readings[..n]).upper + readings[0].syncs == readings[n - 1].syncs
  }

  ghost predicate CountsRight(readings: seq<Reading>) {
    forall n {:trigger CountRightAt(readings, n)} | 0 < n <= |readings| :: CountRightAt(readings, n)
  }

  /**
   * Main result: the syncs since a module's first reading are counted right after every reading of a run
   * exactly when every reading is counted, and then the missed-pulse count keeps every reading within
   * its grace-extended period.
   */
  lemma {:induction false} SyncsAreCounted(readings: seq<Reading>)
    requires Continuous(readings)
    ensures CountsRight(readings) <==> AllCounted(readings)
    ensures AllCounted(readings) ==>
              forall n | 0 < n <= |readings| ::
                readings[n - 1].sinceSync <= (1 + Track(BEFORE_RUN, readings[..n]).missed) * SYNC_NS + GRACE_NS
  {
    if AllCounted(readings) {
      forall n | 0 < n <= |readings|
        ensures CountRightAt(readings, n)
        ensures readings[n - 1].sinceSync <= (1 + Track(BEFORE_RUN, readings[..n]).missed) * SYNC_NS + GRACE_NS
      {
        StaysInStep(readings, n);
        OverdueBounds(Peak(readings[..n]));
      }
    } else {
      var i :| 0 < i < |readings| && !CountedAt(readings, i);
      FirstUncounted(readings, i);
    }
  }

  lemma {:induction false} FirstUncounted(readings: seq<Reading>, i: nat)
    requires Continuous(readings) && 0 < i < |readings| && !CountedAt(readings, i)
    ensures !CountsRight(readings)
  {
    if j :| 0 < j < i && !CountedAt(readings, j) {
      FirstUncounted(readings, j);
    } else {
      StaysInStep(readings, i);
      TrackPrefix(BEFORE_RUN, readings, i + 1);
      assert SuccessiveAt(readings, i);
      StepStaysInStep(Track(BEFORE_RUN, readings[..i]), readings[..i], readings[i]);
      assert !CountRightAt(readings, i + 1);
    }
  }

  /** A reading 6 ms late counts as a pulse. */
  lemma {:induction false} DisorderCountsPulse()
    ensures Track(BEFORE_RUN, [Reading(0, 100_000_000), Reading(0, 94_000_000)]).upper == 1
  {
    var readings := [Reading(0, 100_000_000), Reading(0, 94_000_000)];
    TrackPrefix(BEFORE_RUN, readings, 1);
    TrackPrefix(BEFORE_RUN, readings, 2);
    assert readings[..0] == [] && readings[..2] == readings;
  }

  /** A module that receives no pulse, read every 6.9 s. */
  function WithoutPulse(n: nat): (readings: seq<Reading>)
    ensures |readings| == n
  {
    seq(n, i requires 0 <= i < n => Reading(0, (i + 1) * 6_900_000_000))
  }

  /** The tenth reading, after 69 s, is beyond the counter's range: nine pulses are counted, and none came. */
  lemma {:induction false} CounterRangeCountsPulses()
    ensures Continuous(WithoutPulse(10))
    ensures Track(BEFORE_RUN, WithoutPulse(10)).upper == 9
  {
    var readings := WithoutPulse(10);
    forall i | 0 < i < 10
      ensures SuccessiveAt(readings, i) && (i < 9 ==> CountedAt(readings, i))
    {
      PeakWithoutPulse(i);
      assert readings[..i] == WithoutPulse(i);
    }
    StaysInStep(readings, 9);
    PeakWithoutPulse(9);
    assert readings[..9] == WithoutPulse(9) && readings[..10] == readings;
    OverdueUnique(62_100_000_000, 8);
    TrackPrefix(BEFORE_RUN, readings, 10);
    CounterRestarts(Track(BEFORE_RUN, readings[..9]), readings[8], readings[9]);
  }

  lemma {:induction false} PeakWithoutPulse(n: nat)
    requires n > 0
    ensures Peak(WithoutPulse(n)) == n * 6_900_000_000
  {
    if n > 1 {
      PeakWithoutPulse(n - 1);
      assert WithoutPulse(n)[..n - 1] == WithoutPulse(n - 1);
    }
  }

  type Ticks = t: nat | t < 0x1_0000_0000

  /** What the backend hands over: the length and header of a packet, and the latest time packet in seconds. */
  datatype Packet = Packet(bytes: nat, ticks: Ticks, moduleId: nat, timePacket: nat) {
    function Nanoseconds(): nat {
      ticks * TICK_NS
    }

    predicate Complete() {
      bytes >= MINIMUM_PACKET_BYTES && timePacket > 0
    }

    /** Below the length asked for, which ends before the counter reading: building a fragment throws. */
    predicate Short() {
      0 < bytes < MINIMUM_PACKET_BYTES && timePacket > 0
    }
  }

  predicate AllComplete(packets: seq<Packet>) {
    forall i | 0 <= i < |packets| :: packets[i].Complete()
  }

  predicate Addressed(packets: seq<Packet>, modules: nat) {
    forall i | 0 <= i < |packets| :: packets[i].moduleId < modules
  }

  datatype Fragment = Fragment(sequenceId: nat, moduleId: nat, timestamp: nat)

  /** Boards wired past the fan-out are corrected for it, but not in their first event. */
  function Wiring(m: Module, moduleId: nat): int {
    if m.lower > 0 && 1 <= moduleId <= 4 then DIRECT_WIRING_NS else 0
  }

  /** Everything the generator keeps from event to event. */
  datatype Generator = Generator(modules: seq<Module>, runStart: nat, started: bool, events: nat) {
    function RunStart(p: Packet): nat {
      if !started && p.timePacket > 0
      then U64(p.timePacket * 1_000_000_000 - p.Nanoseconds() - CABLE_OFFSET_NS)
      else runStart
    }

    function Build(p: Packet): Generator
      requires p.moduleId < |modules|
    {
      Generator(modules[p.moduleId := Advance(modules[p.moduleId], p.Nanoseconds())], RunStart(p),
                started || p.timePacket > 0, events + 1)
    }

    function FragmentOf(p: Packet): Fragment
      requires p.moduleId < |modules|
    {
      var m := modules[p.moduleId];
      var upper := if m.lower == 0 then 0 else Advance(m, p.Nanoseconds()).upper;
      Fragment(events, p.moduleId,
               U64(U64(p.Nanoseconds() + RunStart(p) + upper * SYNC_NS) - Wiring(m, p.moduleId)))
    }

    function Run(packets: seq<Packet>): (g: Generator)
      requires Addressed(packets, |modules|)
      ensures |g.modules| == |modules|
      decreases |packets|
    {
      if packets == [] then this
      else Run(packets[..|packets| - 1]).Build(packets[|packets| - 1])
    }

    function Fragments(packets: seq<Packet>): (fragments: seq<Fragment>)
      requires Addressed(packets, |modules|)
      ensures |fragments| == |packets|
      decreases |packets|
    {
      if packets == [] then []
      else
        var before := packets[..|packets| - 1];
        Fragments(before) + [Run(before).FragmentOf(packets[|packets| - 1])]
    }
  }

  function FreshGenerator(modules: nat): Generator {
    Generator(seq(modules, _ => BEFORE_RUN), 0, false, 0)
  }

  /** The readings of one module among those of all modules. */
  function OfModule(packets: seq<Packet>, truth: seq<Reading>, id: nat): seq<Reading>
    requires |packets| == |truth|
    decreases |packets|
  {
    if packets == [] then []
    else
      var n := |packets| - 1;
      OfModule(packets[..n], truth[..n], id) + (if packets[n].moduleId == id then [truth[n]] else [])
  }

  predicate Reports(packets: seq<Packet>, truth: seq<Reading>) {
    |packets| == |truth| && forall i | 0 <= i < |packets| :: truth[i].Reported() == packets[i].Nanoseconds()
  }

  /** However the modules' packets interleave, each module is tracked as if it were alone. */
  lemma {:induction false} ModulesAreIndependent(g: Generator, packets: seq<Packet>, truth: seq<Reading>, id: nat)
    requires Reports(packets, truth) && id < |g.modules|
    requires Addressed(packets, |g.modules|)
    ensures g.Run(packets).modules[id] == Track(g.modules[id], OfModule(packets, truth, id))
    decreases |packets|
  {
    if packets != [] {
      var n := |packets| - 1;
      var own := OfModule(packets[..n], truth[..n], id);
      ModulesAreIndependent(g, packets[..n], truth[..n], id);
      assert g.Run(packets) == g.Run(packets[..n]).Build(packets[n]);
      if packets[n].moduleId == id {
        TrackLast(g.modules[id], own, truth[n]);
      } else {
        assert own + [] == own;
      }
    }
  }

  lemma TrackLast(m: Module, readings: seq<Reading>, r: Reading)
    ensures Track(m, readings + [r]) == Advance(Track(m, readings), r.Reported())
  {
    assert (readings + [r])[..|readings|] == readings;
  }

  /** The run start is fixed by the first complete packet. */
  lemma {:induction false} RunStartIsFixed(g: Generator, packets: seq<Packet>)
    requires !g.started && packets != []
    requires Addressed(packets, |g.modules|) && AllComplete(packets)
    ensures g.Run(packets).started && g.Run(packets).runStart == g.RunStart(packets[0])
    ensures g.Run(packets).events == g.events + |packets|
    decreases |packets|
  {
    var n := |packets| - 1;
    if n > 0 {
      RunStartIsFixed(g, packets[..n]);
    } else {
      assert packets[..0] == [];
    }
  }

  lemma RunStartSoFar(g: Generator, packets: seq<Packet>, i: nat)
    requires !g.started && i < |packets|
    requires Addressed(packets, |g.modules|) && AllComplete(packets)
    ensures g.Run(packets[..i]).RunStart(packets[i]) == g.RunStart(packets[0])
    ensures g.Run(packets[..i]).events == g.events + i
  {
    if i > 0 {
      RunStartIsFixed(g, packets[..i]);
      assert packets[..i][0] == packets[0];
    } else {
      assert packets[..0] == [];
    }
  }

  lemma {:induction false} FragmentAt(g: Generator, packets: seq<Packet>, i: nat)
    requires i < |packets|
    requires Addressed(packets, |g.modules|)
    ensures g.Fragments(packets)[i] == g.Run(packets[..i]).FragmentOf(packets[i])
    decreases |packets|
  {
    var n := |packets| - 1;
    if i < n {
      FragmentAt(g, packets[..n], i);
      assert packets[..n][..i] == packets[..i];
    }
  }

  /** The module reports continuously and every reading of it is counted. */
  ghost predicate FollowedModule(readings: seq<Reading>) {
    Continuous(readings) && AllCounted(readings)
  }

  lemma {:induction false} ContinuousPrefix(readings: seq<Reading>, n: nat)
    requires FollowedModule(readings) && n <= |readings|
    ensures FollowedModule(readings[..n])
  {
    forall i | 0 < i < n
      ensures SuccessiveAt(readings[..n], i) && CountedAt(readings[..n], i)
    {
      assert readings[..n][..i] == readings[..i];
      assert SuccessiveAt(readings, i) && CountedAt(readings, i);
    }
  }

  /** A module's readings up to a moment are the first ones of its whole run. */
  lemma {:induction false} OfModulePrefix(packets: seq<Packet>, truth: seq<Reading>, id: nat, n: nat)
    requires |packets| == |truth| && n <= |packets|
    ensures OfModule(packets[..n], truth[..n], id) <= OfModule(packets, truth, id)
    decreases |packets|
  {
    var last := |packets| - 1;
    if n <= last {
      OfModulePrefix(packets[..last], truth[..last], id, n);
      assert packets[..last][..n] == packets[..n] && truth[..last][..n] == truth[..n];
    } else {
      assert packets[..n] == packets && truth[..n] == truth;
    }
  }

  /** A module whose reading was zero is taken for one not yet read. */
  predicate Unread(readings: seq<Reading>) {
    readings == [] || readings[|readings| - 1].sinceSync == 0
  }

  predicate WiredDirectly(moduleId: nat) {
    1 <= moduleId <= 4
  }

  /**
   * The timestamp a reading should get: its time packet dates the run's first packet, and boards wired past
   * the fan-out are corrected for it.
   */
  function TrueTimestamp(first: Packet, runFirst: Reading, r: Reading, moduleId: nat): int {
    first.timePacket * 1_000_000_000 - CABLE_OFFSET_NS + r.Time() - runFirst.Time()
    - if WiredDirectly(moduleId) then DIRECT_WIRING_NS else 0
  }

  /** The sync from which a module's readings are counted: that of its first reading. */
  function FirstSync(earlier: seq<Reading>, r: Reading): nat {
    if Unread(earlier) then r.syncs else earlier[0].syncs
  }

  /**
   * A module whose count starts later than the run is early by the pulses in between; all are late by what
   * the counter of the run's first packet had lost.
   */
  function Error(runFirst: Reading, earlier: seq<Reading>, r: Reading, moduleId: nat): int {
    (if Unread(earlier) && WiredDirectly(moduleId) then DIRECT_WIRING_NS else 0)
    - (FirstSync(earlier, r) - runFirst.syncs) * SYNC_NS
    + (runFirst.sinceSync - runFirst.Reported())
  }

  /**
   * Main result on time, over any interleaving, for every module that reports continuously and whose
   * readings are counted, whatever the others do: a timestamp is the true time less 7 s for every sync
   * pulse between the run's first packet and the module's, plus the wiring correction that a first event
   * does not get. So it is true exactly when the module's first packet is of the same sync period as the
   * run's first, and the event is not the first of a board wired past the fan-out.
   */
  lemma {:induction false} TimestampsAreTrue(modules: nat, packets: seq<Packet>, truth: seq<Reading>, i: nat)
    requires Reports(packets, truth) && i < |packets|
    requires Addressed(packets, modules) && AllComplete(packets)
    requires FollowedModule(OfModule(packets, truth, packets[i].moduleId))
    ensures var id := packets[i].moduleId;
            var fragment := FreshGenerator(modules).Fragments(packets)[i];
            var earlier := OfModule(packets[..i], truth[..i], id);
            var right := TrueTimestamp(packets[0], truth[0], truth[i], id);
            && fragment == Fragment(i, id, U64(right + Error(truth[0], earlier, truth[i], id)))
            && (truth[0].sinceSync < FIELD_NS && truth[0].Time() < UINT64_RANGE && truth[i].Time() < UINT64_RANGE ==>
                  (fragment.timestamp == U64(right) <==>
                   FirstSync(earlier, truth[i]) == truth[0].syncs && !(Unread(earlier) && WiredDirectly(id))))
  {
    var id := packets[i].moduleId;
    var earlier := OfModule(packets[..i], truth[..i], id);
    StampIsOff(modules, packets, truth, i, earlier);
    if truth[0].sinceSync < FIELD_NS && truth[0].Time() < UINT64_RANGE && truth[i].Time() < UINT64_RANGE {
      ErrorShows(TrueTimestamp(packets[0], truth[0], truth[i], id), truth[0], earlier, truth[i], id);
    }
  }

  lemma {:induction false} StampIsOff(modules: nat, packets: seq<Packet>, truth: seq<Reading>, i: nat,
                                      earlier: seq<Reading>)
    requires Reports(packets, truth) && i < |packets|
    requires Addressed(packets, modules) && AllComplete(packets)
    requires FollowedModule(OfModule(packets, truth, packets[i].moduleId))
    requires earlier == OfModule(packets[..i], truth[..i], packets[i].moduleId)
    ensures var id := packets[i].moduleId;
            && FirstSync(earlier, truth[i]) <= truth[i].syncs
            && FreshGenerator(modules).Fragments(packets)[i] ==
                 Fragment(i, id, U64(TrueTimestamp(packets[0], truth[0], truth[i], id)
                                     + Error(truth[0], earlier, truth[i], id)))
  {
    var g := FreshGenerator(modules);
    FragmentAt(g, packets, i);
    RunStartSoFar(g, packets, i);
    TrackedModule(modules, packets, truth, i);
    StampIsShifted(g.Run(packets[..i]), packets[i], packets[0], truth[0], earlier, truth[i]);
  }

  /** The module of a packet is in step after it, and its earlier readings tell whether it counts as read. */
  lemma {:induction false} TrackedModule(modules: nat, packets: seq<Packet>, truth: seq<Reading>, i: nat)
    requires Reports(packets, truth) && i < |packets|
    requires Addressed(packets, modules)
    requires FollowedModule(OfModule(packets, truth, packets[i].moduleId))
    ensures var id := packets[i].moduleId;
            var m := FreshGenerator(modules).Run(packets[..i]).modules[id];
            var earlier := OfModule(packets[..i], truth[..i], id);
            InStep(Advance(m, truth[i].Reported()), earlier + [truth[i]]) && (m.lower == 0 <==> Unread(earlier))
  {
    var id := packets[i].moduleId;
    ModulesAreIndependent(FreshGenerator(modules), packets[..i], truth[..i], id);
    var earlier := OfModule(packets[..i], truth[..i], id);
    OwnReadings(packets, truth, i);
    OfModulePrefix(packets, truth, id, i + 1);
    ContinuousPrefix(OfModule(packets, truth, id), |earlier| + 1);
    assert earlier + [truth[i]] == OfModule(packets, truth, id)[..|earlier| + 1];
    TrackedReading(earlier, truth[i]);
  }

  lemma OwnReadings(packets: seq<Packet>, truth: seq<Reading>, i: nat)
    requires |packets| == |truth| && i < |packets|
    ensures OfModule(packets[..i + 1], truth[..i + 1], packets[i].moduleId)
            == OfModule(packets[..i], truth[..i], packets[i].moduleId) + [truth[i]]
  {
    assert packets[..i + 1][..i] == packets[..i] && truth[..i + 1][..i] == truth[..i];
  }

  /** The tracked state before and after the last of a followed module's readings. */
  lemma {:induction false} TrackedReading(earlier: seq<Reading>, r: Reading)
    requires FollowedModule(earlier + [r])
    ensures InStep(Advance(Track(BEFORE_RUN, earlier), r.Reported()), earlier + [r])
    ensures Track(BEFORE_RUN, earlier).lower == 0 <==> Unread(earlier)
  {
    var all, n := earlier + [r], |earlier| + 1;
    assert all[..n] == all && all[..n - 1] == earlier;
    StaysInStep(all, n);
    TrackPrefix(BEFORE_RUN, all, n);
    if n > 1 {
      StaysInStep(all, n - 1);
    }
  }

  lemma {:induction false} StampIsShifted(g: Generator, p: Packet, first: Packet, runFirst: Reading,
                                          earlier: seq<Reading>, r: Reading)
    requires p.moduleId < |g.modules| && p.Nanoseconds() == r.Reported()
    requires InStep(Advance(g.modules[p.moduleId], r.Reported()), earlier + [r])
    requires g.modules[p.moduleId].lower == 0 <==> Unread(earlier)
    requires first.Nanoseconds() == runFirst.Reported()
    requires g.RunStart(p) == U64(first.timePacket * 1_000_000_000 - first.Nanoseconds() - CABLE_OFFSET_NS)
    ensures FirstSync(earlier, r) <= r.syncs
    ensures g.FragmentOf(p) ==
              Fragment(g.events, p.moduleId, U64(TrueTimestamp(first, runFirst, r, p.moduleId)
                                                 + Error(runFirst, earlier, r, p.moduleId)))
  {
    var start := first.timePacket * 1_000_000_000 - first.Nanoseconds() - CABLE_OFFSET_NS;
    var since := r.sinceSync + (r.syncs - FirstSync(earlier, r)) * SYNC_NS;
    var wiring := Wiring(g.modules[p.moduleId], p.moduleId);
    SubtractInside(U64(start) + since, wiring);
    SubtractInside(start, wiring - since);
  }

  /** Timestamps less than 2^64 ns apart are equal only when they are the same. */
  lemma {:induction false} ErrorShows(right: int, runFirst: Reading, earlier: seq<Reading>, r: Reading, moduleId: nat)
    requires runFirst.Time() < UINT64_RANGE && r.Time() < UINT64_RANGE && FirstSync(earlier, r) <= r.syncs
    requires runFirst.sinceSync < FIELD_NS
    ensures U64(right + Error(runFirst, earlier, r, moduleId)) == U64(right) <==>
            FirstSync(earlier, r) == runFirst.syncs && !(Unread(earlier) && WiredDirectly(moduleId))
  {
    var error := Error(runFirst, earlier, r, moduleId);
    assert error < UINT64_RANGE && -error < UINT64_RANGE;
    DistinctWithin(right, error);
  }

  lemma {:induction false} DistinctWithin(x: int, y: int)
    requires y < UINT64_RANGE && -y < UINT64_RANGE
    ensures U64(x + y) == U64(x) <==> y == 0
  {
  }

  const EARLY_PACKET := Packet(20, 431_250_000, 0, 1_700_000_000)
  const LATE_PACKET := Packet(20, 6_250_000, 1, 1_700_000_000)
  const EARLY_TRUTH := Reading(0, 6_900_000_000)
  const LATE_TRUTH := Reading(1, 100_000_000)
  const EARLY_START: nat := 1_700_000_000_000_000_000 - 6_900_000_000 - CABLE_OFFSET_NS

  lemma {:induction false} EarlyStamp(g: Generator)
    requires g == FreshGenerator(2)
    ensures g.FragmentOf(EARLY_PACKET).timestamp == EARLY_START + 6_900_000_000
    ensures g.Build(EARLY_PACKET).started && g.Build(EARLY_PACKET).runStart == EARLY_START
    ensures g.Build(EARLY_PACKET).modules[1] == BEFORE_RUN
  {
  }

  lemma {:induction false} LateStamp(g: Generator)
    requires |g.modules| == 2 && g.modules[1] == BEFORE_RUN && g.started && g.runStart == EARLY_START
    ensures g.FragmentOf(LATE_PACKET).timestamp == EARLY_START + 100_000_000
  {
  }

  /**
   * A module that is first read just after a pulse that the run's first module has not yet received is
   * stamped 7 s early for the whole run: 0.2 s later in truth, 6.8 s earlier by its timestamp.
   */
  lemma {:induction false} LateModuleIsEarly()
    ensures LATE_TRUTH.Time() == EARLY_TRUTH.Time() + 200_000_000
    ensures Reports([EARLY_PACKET, LATE_PACKET], [EARLY_TRUTH, LATE_TRUTH])
    ensures AllComplete([EARLY_PACKET, LATE_PACKET]) && Addressed([EARLY_PACKET, LATE_PACKET], 2)
    ensures var fragments := FreshGenerator(2).Fragments([EARLY_PACKET, LATE_PACKET]);
            fragments[1].timestamp == fragments[0].timestamp - 6_800_000_000
  {
    var g, packets := FreshGenerator(2), [EARLY_PACKET, LATE_PACKET];
    FragmentAt(g, packets, 0);
    FragmentAt(g, packets, 1);
    assert packets[..0] == [];
    RunNext(g, packets, 0);
    EarlyStamp(g);
    LateStamp(g.Build(EARLY_PACKET));
  }

  lemma SubtractInside(x: int, y: int)
    ensures U64(U64(x) - y) == U64(x - y)
  {
    var range: int := TimeRecovery.UINT64_RANGE;
    assert x - y == (U64(x) - y) + range * (x / range);
    RemoveMultiple(U64(x) - y, x / range, range);
  }

  lemma RemoveMultiple(x: int, k: int, m: int)
    requires m > 0
    ensures (x + m * k) % m == x % m
  {
    Bits.ModUnique(x + m * k, m, x / m + k, x % m);
  }

  lemma {:induction false} RunNext(g: Generator, packets: seq<Packet>, n: nat)
    requires n < |packets| && Addressed(packets, |g.modules|)
    ensures g.Run(packets[..n + 1]) == g.Run(packets[..n]).Build(packets[n])
    ensures g.Fragments(packets[..n + 1]) == g.Fragments(packets[..n]) + [g.Run(packets[..n]).FragmentOf(packets[n])]
  {
    assert packets[..n + 1][..n] == packets[..n];
  }

  /** A start adds slots behind the old ones and keeps all else. */
  function Restarted(g: Generator, slots: nat): Generator {
    g.(modules := g.modules + FreshGenerator(slots).modules)
  }

  lemma {:induction false} SlotsChangeNothing(g: Generator, slots: nat, packets: seq<Packet>)
    requires Addressed(packets, |g.modules|)
    ensures Restarted(g, slots).Run(packets) == Restarted(g.Run(packets), slots)
    ensures Restarted(g, slots).Fragments(packets) == g.Fragments(packets)
    decreases |packets|
  {
    if packets != [] {
      var before, p := packets[..|packets| - 1], packets[|packets| - 1];
      SlotsChangeNothing(g, slots, before);
      SlotIsLocal(g.Run(before), slots, p);
    }
  }

  lemma {:induction false} SlotIsLocal(g: Generator, slots: nat, p: Packet)
    requires p.moduleId < |g.modules|
    ensures Restarted(g, slots).Build(p) == Restarted(g.Build(p), slots)
    ensures Restarted(g, slots).FragmentOf(p) == g.FragmentOf(p)
  {
  }

  lemma {:induction false} RunsJoin(g: Generator, first: seq<Packet>, second: seq<Packet>)
    requires Addressed(first, |g.modules|) && Addressed(second, |g.modules|)
    ensures Addressed(first + second, |g.modules|)
    ensures g.Run(first + second) == g.Run(first).Run(second)
    ensures g.Fragments(first + second) == g.Fragments(first) + g.Run(first).Fragments(second)
    decreases |second|
  {
    if second == [] {
      assert first + second == first;
    } else {
      var before, p := second[..|second| - 1], second[|second| - 1];
      var middle := g.Run(first).Run(before);
      RunsJoin(g, first, before);
      LastApart(second);
      Associate(first, before, [p]);
      LastPacket(g, first + before, p);
      Associate(g.Fragments(first), g.Run(first).Fragments(before), [middle.FragmentOf(p)]);
    }
  }

  lemma {:induction false} LastPacket(g: Generator, before: seq<Packet>, p: Packet)
    requires Addressed(before + [p], |g.modules|) && Addressed(before, |g.modules|)
    ensures g.Run(before + [p]) == g.Run(before).Build(p)
    ensures g.Fragments(before + [p]) == g.Fragments(before) + [g.Run(before).FragmentOf(p)]
  {
    assert (before + [p])[..|before|] == before;
  }

  /**
   * A second run goes on as if there had been no start: its fragments are those of the two runs' packets as
   * one run, whose timestamps TimestampsAreTrue gives, and which counts no pulse of the pause between
   * them but the one that a reset shows and those missed before it.
   */
  lemma {:induction false} RestartGoesOn(modules: nat, slots: nat, first: seq<Packet>, second: seq<Packet>)
    requires Addressed(first, modules) && Addressed(second, modules)
    ensures Addressed(first + second, modules)
    ensures Restarted(FreshGenerator(modules).Run(first), slots).Fragments(second)
            == FreshGenerator(modules).Fragments(first + second)[|first|..]
  {
    RunsJoin(FreshGenerator(modules), first, second);
    SlotsChangeNothing(FreshGenerator(modules).Run(first), slots, second);
  }

  /** The packets one call turns into fragments. */
  const MOST_FRAGMENTS: nat := 64

  function Usable(packets: seq<Packet>, most: nat): (n: nat)
    ensures n <= |packets| && n <= most
  {
    if packets == [] || most == 0 || !packets[0].Complete() then 0
    else 1 + Usable(packets[1..], most - 1)
  }

  /** It is the longest run of complete packets, up to the limit. */
  lemma {:induction false} UsableIsLongest(packets: seq<Packet>, most: nat, n: nat)
    requires n <= |packets| && n <= most
    ensures Usable(packets, most) == n <==>
              && AllComplete(packets[..n])
              && (n == |packets| || n == most || !packets[n].Complete())
  {
    if packets != [] && most > 0 && packets[0].Complete() {
      if n > 0 {
        UsableIsLongest(packets[1..], most - 1, n - 1);
        assert packets[..n] == [packets[0]] + packets[1..][..n - 1];
        assert packets[1..][..n - 1] == packets[..n][1..];
      }
    } else if n > 0 {
      assert packets[0] == packets[..n][0];
    }
  }

  /** The first n packets are usable; what more there is depends on the rest. */
  ghost predicate UsableFrom(packets: seq<Packet>, n: nat) {
    && n <= |packets| && n <= MOST_FRAGMENTS
    && Usable(packets, MOST_FRAGMENTS) == n + Usable(packets[n..], MOST_FRAGMENTS - n)
  }

  lemma {:induction false} UsableEnds(packets: seq<Packet>, n: nat)
    requires UsableFrom(packets, n)
    ensures n == |packets| || n == MOST_FRAGMENTS || !packets[n].Complete() ==> Usable(packets, MOST_FRAGMENTS) == n
    ensures n < |packets| && n < MOST_FRAGMENTS && packets[n].Complete() ==> UsableFrom(packets, n + 1)
  {
    if n < |packets| && n < MOST_FRAGMENTS && packets[n].Complete() {
      assert packets[n..][1..] == packets[n + 1..];
    }
  }

  datatype Outcome = Stopped | Done | Thrown

  class FragGen {
    var lowertimePerModNs: seq<nat>
    var uppertimePerModSyncs: seq<nat>
    var missedSyncs: seq<nat>
    var maxlowertimeNs: seq<nat>
    var runstarttimeNs: nat
    var gotRunStartTime: bool
    var timestamp: nat
    var evCounter: nat

    predicate Valid()
      reads this
    {
      |uppertimePerModSyncs| == |missedSyncs| == |maxlowertimeNs| == |lowertimePerModNs|
    }

    function State(): Generator
      requires Valid()
      reads this
    {
      Generator(ModulesOf(lowertimePerModNs, uppertimePerModSyncs, missedSyncs),
                runstarttimeNs, gotRunStartTime, evCounter)
    }

    static function ModulesOf(lower: seq<nat>, upper: seq<nat>, missed: seq<nat>): seq<Module>
      requires |lower| == |upper| == |missed|
    {
      seq(|lower|, i requires 0 <= i < |lower| => Module(lower[i], upper[i], missed[i]))
    }

    constructor ()
      ensures Valid() && State() == FreshGenerator(0)
    {
      lowertimePerModNs, uppertimePerModSyncs, missedSyncs, maxlowertimeNs := [], [], [], [];
      runstarttimeNs, gotRunStartTime, timestamp, evCounter := 0, false, 0, 0;
    }

    /** Slots for the modules are added at every start; those of an earlier run keep their state. */
    method Start(fragmentIds: nat)
      requires Valid()
      modifies this
      ensures Valid()
      ensures State() == Restarted(old(State()), fragmentIds)
      ensures old(maxlowertimeNs) <= maxlowertimeNs
    {
      for i := 0 to fragmentIds
        invariant Valid() && old(maxlowertimeNs) <= maxlowertimeNs
        invariant State() == Restarted(old(State()), i)
      {
        ghost var before := State().modules;
        lowertimePerModNs, uppertimePerModSyncs := lowertimePerModNs + [0], uppertimePerModSyncs + [0];
        maxlowertimeNs, missedSyncs := maxlowertimeNs + [0], missedSyncs + [0];
        assert State().modules == before + [BEFORE_RUN];
        assert FreshGenerator(i + 1).modules == FreshGenerator(i).modules + [BEFORE_RUN];
      }
    }

    method BuildFragment(p: Packet) returns (fragment: Fragment)
      requires Valid() && p.moduleId < |lowertimePerModNs| && p.bytes >= MINIMUM_PACKET_BYTES
      modifies this
      ensures Valid() && State() == old(State()).Build(p)
      ensures fragment == old(State()).FragmentOf(p) && timestamp == fragment.timestamp
    {
      var id, ns := p.moduleId, p.ticks * TICK_NS;
      if !gotRunStartTime && p.timePacket > 0 {
        runstarttimeNs := U64(p.timePacket * 1_000_000_000 - ns - CABLE_OFFSET_NS);
        gotRunStartTime := true;
      }
      if lowertimePerModNs[id] == 0 {
        FirstEvent(id, ns);
      } else {
        OtherEvent(id, ns);
      }
      fragment := Fragment(evCounter, id, timestamp);
      evCounter := evCounter + 1;
    }

    method FirstEvent(id: nat, ns: nat)
      requires Valid() && id < |lowertimePerModNs| && lowertimePerModNs[id] == 0
      modifies `lowertimePerModNs, `timestamp
      ensures Valid() && State().modules == old(State()).modules[id := Advance(old(State()).modules[id], ns)]
      ensures timestamp == U64(ns + runstarttimeNs)
    {
      lowertimePerModNs := lowertimePerModNs[id := ns];
      timestamp := U64(ns + runstarttimeNs);
    }

    method OtherEvent(id: nat, ns: nat)
      requires Valid() && id < |lowertimePerModNs| && lowertimePerModNs[id] > 0
      modifies `lowertimePerModNs, `uppertimePerModSyncs, `missedSyncs, `maxlowertimeNs, `timestamp
      ensures Valid() && State().modules == old(State()).modules[id := Advance(old(State()).modules[id], ns)]
      ensures timestamp == U64(U64(ns + runstarttimeNs + State().modules[id].upper * SYNC_NS)
                               - Wiring(old(State()).modules[id], id))
      ensures maxlowertimeNs == old(maxlowertimeNs)[id := Max(old(maxlowertimeNs)[id], ns)]
    {
      ghost var lower, upper, missed := lowertimePerModNs, uppertimePerModSyncs, missedSyncs;
      if ns + ROLLOVER_THRESHOLD_NS < lowertimePerModNs[id] {
        CountSyncs(id);
      }
      timestamp := U64(ns + runstarttimeNs + uppertimePerModSyncs[id] * SYNC_NS);
      if id == 1 || id == 2 || id == 3 || id == 4 {
        timestamp := U64(timestamp - DIRECT_WIRING_NS);
      }
      CheckForMissedSync(id, ns);
      lowertimePerModNs := lowertimePerModNs[id := ns];
      ghost var after := Advance(Module(lower[id], upper[id], missed[id]), ns);
      ModulesUpdate(lower, upper, missed, id, after);
      assert upper[id := after.upper] == uppertimePerModSyncs && missed[id := after.missed] == missedSyncs;
    }

    /** A sync pulse was received: it counts, and so do the ones missed before it. */
    method CountSyncs(id: nat)
      requires Valid() && id < |lowertimePerModNs|
      modifies `uppertimePerModSyncs, `missedSyncs
      ensures uppertimePerModSyncs
              == old(uppertimePerModSyncs)[id := old(uppertimePerModSyncs[id] + 1 + missedSyncs[id])]
      ensures missedSyncs == old(missedSyncs)[id := 0]
    {
      uppertimePerModSyncs := uppertimePerModSyncs[id := uppertimePerModSyncs[id] + 1 + missedSyncs[id]];
      missedSyncs := missedSyncs[id := 0];
    }

    method CheckForMissedSync(id: nat, ns: nat)
      requires Valid() && id < |lowertimePerModNs|
      modifies `missedSyncs, `maxlowertimeNs
      ensures maxlowertimeNs == old(maxlowertimeNs)[id := Max(old(maxlowertimeNs)[id], ns)]
      ensures var missed := old(missedSyncs)[id];
              missedSyncs
              == old(missedSyncs)[id := if ns > (1 + missed) * SYNC_NS + GRACE_NS then missed + 1 else missed]
    {
      if ns > maxlowertimeNs[id] {
        maxlowertimeNs := maxlowertimeNs[id := ns];
      }
      if ns > (1 + missedSyncs[id]) * SYNC_NS + GRACE_NS {
        missedSyncs := missedSyncs[id := missedSyncs[id] + 1];
      }
    }

    static lemma ModulesUpdate(lower: seq<nat>, upper: seq<nat>, missed: seq<nat>, id: nat, m: Module)
      requires |lower| == |upper| == |missed| && id < |lower|
      ensures ModulesOf(lower[id := m.lower], upper[id := m.upper], missed[id := m.missed])
              == ModulesOf(lower, upper, missed)[id := m]
    {
    }

    /** The fragments so far are those of the first packets, and the state is the one after them. */
    ghost predicate Built(g: Generator, packets: seq<Packet>, fragments: seq<Fragment>)
      requires Addressed(packets, |g.modules|)
      reads this
    {
      && Valid() && |lowertimePerModNs| == |g.modules| && |fragments| <= |packets|
      && State() == g.Run(packets[..|fragments|])
      && fragments == g.Fragments(packets[..|fragments|])
    }

    /** One turn of the loop of getNext_. */
    method AppendFragment(packets: seq<Packet>, fragments: seq<Fragment>, ghost g: Generator)
        returns (more: seq<Fragment>)
      requires Addressed(packets, |g.modules|) && Built(g, packets, fragments)
      requires |fragments| < |packets| && packets[|fragments|].Complete()
      modifies this
      ensures |more| == |fragments| + 1 && Built(g, packets, more)
    {
      RunNext(g, packets, |fragments|);
      var fragment := BuildFragment(packets[|fragments|]);
      more := fragments + [fragment];
    }

    /** The loop of getNext_, up to an empty read, a short packet or a missing time packet. */
    method BuildFragments(packets: seq<Packet>, ghost g: Generator) returns (fragments: seq<Fragment>, thrown: bool)
      requires Valid() && g == State() && Addressed(packets, |g.modules|)
      modifies this
      ensures Built(g, packets, fragments) && |fragments| == Usable(packets, MOST_FRAGMENTS)
      ensures thrown <==> |fragments| < |packets| && |fragments| < MOST_FRAGMENTS && packets[|fragments|].Short()
    {
      fragments := [];
      while |fragments| < MOST_FRAGMENTS && |fragments| < |packets|
            && packets[|fragments|].bytes > 0 && packets[|fragments|].timePacket > 0
        invariant |fragments| <= MOST_FRAGMENTS && Built(g, packets, fragments)
        invariant UsableFrom(packets, |fragments|)
      {
        UsableEnds(packets, |fragments|);
        if packets[|fragments|].bytes < MINIMUM_PACKET_BYTES {
          return fragments, true;
        }
        fragments := AppendFragment(packets, fragments, g);
      }
      UsableEnds(packets, |fragments|);
      thrown := false;
    }

    /** getNext_ on the packets waiting: every one of the first 64 that is usable becomes a fragment. */
    method GetNext(packets: seq<Packet>, shouldStop: bool) returns (fragments: seq<Fragment>, r: Outcome)
      requires Valid() && Addressed(packets, |lowertimePerModNs|)
      modifies this
      ensures Valid()
      ensures r == Stopped <==> shouldStop
      ensures shouldStop ==> fragments == [] && State() == old(State())
      ensures !shouldStop ==> fragments == old(State()).Fragments(packets[..Usable(packets, MOST_FRAGMENTS)])
      ensures !shouldStop ==> (r == Thrown <==> |fragments| < |packets| && |fragments| < MOST_FRAGMENTS
                                                && packets[|fragments|].Short())
      ensures !shouldStop ==>
                var after := old(State()).Run(packets[..|fragments|]);
                State() == if r == Thrown || fragments == [] then after else after.(events := after.events + 1)
    {
      if shouldStop {
        return [], Stopped;
      }
      var thrown;
      fragments, thrown := BuildFragments(packets, State());
      if thrown {
        return fragments, Thrown;
      }
      if fragments != [] {
        evCounter := evCounter + 1;
      }
      r := Done;
    }
  }
}
