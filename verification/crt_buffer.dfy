/**
 * Delivery of CRT fragments. One thread pushes the fragments of a poll into a board's ring under its
 * lock; the other looks at the ring's size, copies that many fragments out without the lock, and
 * erases them under the lock.
 */
module CrtBuffer {
  import opened CrtData

  /** A delivered fragment. */
  datatype Delivery = Delivery(sequenceId: nat, feb: nat, fragment: Fragment)

  /** A board's ring, and what became of the fragments pushed so far. */
  datatype Feb = Feb(buffer: seq<Fragment>, pushed: seq<Fragment>, discarded: nat, dropped: nat) {

    /** push_back on a full ring overwrites the oldest fragment. */
    function Push(capacity: nat, f: Fragment): Feb {
      if capacity == 0 then Feb(buffer, pushed + [f], discarded, dropped + 1)
      else if |buffer| >= capacity then Feb(buffer[1..] + [f], pushed + [f], discarded, dropped + 1)
      else Feb(buffer + [f], pushed + [f], discarded, dropped)
    }

    function PushAll(capacity: nat, fragments: seq<Fragment>): Feb
      decreases |fragments|
    {
      if fragments == [] then this else Push(capacity, fragments[0]).PushAll(capacity, fragments[1..])
    }
  }

  datatype Consumer = Idle | Filling(feb: nat, end: nat, copied: nat)

  datatype System = System(febs: seq<Feb>, consumer: Consumer, sequenceId: nat, discard: bool, out: seq<Delivery>)

  datatype Action =
    | PushPoll(feb: nat, fragments: seq<Fragment>)
    | Begin(feb: nat, delayOver: bool)
    | Copy
    | Erase

  predicate Enabled(s: System, a: Action) {
    match a
    case PushPoll(f, _) => f < |s.febs|
    case Begin(f, _) => s.consumer.Idle? && f < |s.febs|
    case Copy =>
      s.consumer.Filling? && !s.discard && s.consumer.copied < s.consumer.end
      && s.consumer.feb < |s.febs| && s.consumer.copied < |s.febs[s.consumer.feb].buffer|
    case Erase =>
      s.consumer.Filling? && (s.discard || s.consumer.copied == s.consumer.end)
      && s.consumer.feb < |s.febs| && s.consumer.end <= |s.febs[s.consumer.feb].buffer|
  }

  /** erase_begin of the fragments seen at the start. */
  function Erased(feb: Feb, end: nat, discard: bool): Feb
    requires end <= |feb.buffer|
  {
    feb.(buffer := feb.buffer[end..], discarded := if discard then feb.discarded + end else feb.discarded)
  }

  function Do(s: System, capacity: nat, a: Action): System
    requires Enabled(s, a)
  {
    match a
    case PushPoll(f, fragments) => s.(febs := s.febs[f := s.febs[f].PushAll(capacity, fragments)])
    case Begin(f, delayOver) =>
      s.(consumer := Filling(f, |s.febs[f].buffer|, 0), discard := s.discard && !delayOver)
    case Copy =>
      var c := s.consumer;
      s.(consumer := c.(copied := c.copied + 1), sequenceId := (s.sequenceId + 1) % 0x1_0000_0000,
         out := s.out + [Delivery(s.sequenceId, c.feb, s.febs[c.feb].buffer[c.copied])])
    case Erase =>
      var c := s.consumer;
      s.(consumer := Idle, febs := s.febs[c.feb := Erased(s.febs[c.feb], c.end, s.discard)])
  }

  function Start(febs: nat): System {
    System(seq(febs, _ => Feb([], [], 0, 0)), Idle, 0, true, [])
  }

  /** The states a run goes through when every action is taken where it can be. */
  ghost predicate Run(states: seq<System>, actions: seq<Action>, capacity: nat, febs: nat) {
    && |states| == |actions| + 1 && states[0] == Start(febs)
    && forall i {:trigger Enabled(states[i], actions[i])} | 0 <= i < |actions| ::
         Enabled(states[i], actions[i]) && states[i + 1] == Do(states[i], capacity, actions[i])
  }

  /** What was delivered from one board. */
  function Delivered(out: seq<Delivery>, f: nat): seq<Fragment> {
    if out == [] then []
    else
      var last := out[|out| - 1];
      Delivered(out[..|out| - 1], f) + if last.feb == f then [last.fragment] else []
  }

  /** Fragments copied out of the ring of board f but not yet erased from it. */
  function Copied(c: Consumer, f: nat): nat {
    if c.Filling? && c.feb == f then c.copied else 0
  }

  /** What every step keeps, for one board: delivered is what it has been given so far. */
  predicate BoardInv(feb: Feb, delivered: seq<Fragment>, copied: nat, capacity: nat) {
    && |feb.buffer| <= capacity && copied <= |feb.buffer| && copied <= |delivered|
    && |feb.pushed| == feb.discarded + feb.dropped + (|delivered| - copied) + |feb.buffer|
    && (feb.dropped == 0 ==>
          && feb.pushed[feb.discarded..] == delivered[..|delivered| - copied] + feb.buffer
          && delivered[|delivered| - copied..] == feb.buffer[..copied])
  }

  predicate ConsumerInv(s: System) {
    s.consumer.Filling? ==>
      && s.consumer.feb < |s.febs|
      && s.consumer.copied <= s.consumer.end <= |s.febs[s.consumer.feb].buffer|
      && (s.discard ==> s.consumer.copied == 0)
  }

  ghost predicate Inv(s: System, capacity: nat) {
    && ConsumerInv(s)
    && (forall f | 0 <= f < |s.febs| :: BoardInv(s.febs[f], Delivered(s.out, f), Copied(s.consumer, f), capacity))
    && (s.discard ==> s.out == [])
    && s.sequenceId == |s.out| % 0x1_0000_0000
    && forall j | 0 <= j < |s.out| :: s.out[j].sequenceId == j % 0x1_0000_0000
  }

  lemma {:induction false} StartInv(febs: nat, capacity: nat)
    ensures Inv(Start(febs), capacity)
  {
    forall f | 0 <= f < febs
      ensures BoardInv(Start(febs).febs[f], Delivered([], f), 0, capacity)
    {
      assert Start(febs).febs[f] == Feb([], [], 0, 0) && Delivered([], f) == [];
    }
  }

  lemma PushKeepsBoard(feb: Feb, f: Fragment, delivered: seq<Fragment>, copied: nat, capacity: nat)
    requires BoardInv(feb, delivered, copied, capacity)
    ensures BoardInv(feb.Push(capacity, f), delivered, copied, capacity)
    ensures |feb.buffer| <= |feb.Push(capacity, f).buffer|
  {
    var next := feb.Push(capacity, f);
    if next.dropped == 0 {
      assert next.pushed[feb.discarded..] == feb.pushed[feb.discarded..] + [f];
      assert delivered[..|delivered| - copied] + feb.buffer + [f]
          == delivered[..|delivered| - copied] + (feb.buffer + [f]);
      assert next.buffer[..copied] == feb.buffer[..copied];
    }
  }

  lemma {:induction false} PushAllKeepsBoard(feb: Feb, fragments: seq<Fragment>, delivered: seq<Fragment>,
                                             copied: nat, capacity: nat)
    requires BoardInv(feb, delivered, copied, capacity)
    ensures BoardInv(feb.PushAll(capacity, fragments), delivered, copied, capacity)
    ensures |feb.buffer| <= |feb.PushAll(capacity, fragments).buffer|
    decreases |fragments|
  {
    if fragments != [] {
      PushKeepsBoard(feb, fragments[0], delivered, copied, capacity);
      PushAllKeepsBoard(feb.Push(capacity, fragments[0]), fragments[1..], delivered, copied, capacity);
    }
  }

  lemma CopyKeepsBoard(feb: Feb, delivered: seq<Fragment>, copied: nat, capacity: nat)
    requires BoardInv(feb, delivered, copied, capacity) && copied < |feb.buffer|
    ensures BoardInv(feb, delivered + [feb.buffer[copied]], copied + 1, capacity)
  {
    var more := delivered + [feb.buffer[copied]];
    assert more[..|more| - (copied + 1)] == delivered[..|delivered| - copied];
    assert more[|more| - (copied + 1)..] == delivered[|delivered| - copied..] + [feb.buffer[copied]];
    assert feb.buffer[..copied + 1] == feb.buffer[..copied] + [feb.buffer[copied]];
  }

  /** Erasing finishes a fill: everything seen at its start was copied, or, while discarding, nothing was. */
  lemma EraseKeepsBoard(feb: Feb, delivered: seq<Fragment>, copied: nat, end: nat, discard: bool, capacity: nat)
    requires BoardInv(feb, delivered, copied, capacity) && end <= |feb.buffer|
    requires if discard then copied == 0 && delivered == [] else copied == end
    ensures BoardInv(Erased(feb, end, discard), delivered, 0, capacity)
  {
    if feb.dropped == 0 {
      if discard {
        assert feb.pushed[feb.discarded..] == feb.buffer;
        assert feb.pushed[feb.discarded + end..] == feb.buffer[end..];
      } else {
        assert feb.buffer == feb.buffer[..end] + feb.buffer[end..];
        assert delivered == delivered[..|delivered| - copied] + feb.buffer[..end];
      }
    }
  }

  lemma DeliveredNext(out: seq<Delivery>, d: Delivery, f: nat)
    ensures Delivered(out + [d], f) == if d.feb == f then Delivered(out, f) + [d.fragment] else Delivered(out, f)
  {
    assert (out + [d])[..|out|] == out;
  }

  lemma StepKeepsInv(s: System, capacity: nat, a: Action)
    requires Inv(s, capacity) && Enabled(s, a)
    ensures Inv(Do(s, capacity, a), capacity)
  {
    var s' := Do(s, capacity, a);
    forall f | 0 <= f < |s'.febs|
      ensures BoardInv(s'.febs[f], Delivered(s'.out, f), Copied(s'.consumer, f), capacity)
    {
      BoardKept(s, capacity, a, f);
      assert BoardOfInv(s', f, capacity);
    }
    ConsumerKept(s, capacity, a);
    if a.Copy? {
      assert (|s.out| % 0x1_0000_0000 + 1) % 0x1_0000_0000 == (|s.out| + 1) % 0x1_0000_0000;
    }
  }

  lemma ConsumerKept(s: System, capacity: nat, a: Action)
    requires Inv(s, capacity) && Enabled(s, a)
    ensures ConsumerInv(Do(s, capacity, a))
  {
    if a.PushPoll? {
      PushAllKeepsBoard(s.febs[a.feb], a.fragments, Delivered(s.out, a.feb), Copied(s.consumer, a.feb), capacity);
    }
  }

  /** What every step keeps for board f of a system. */
  predicate BoardOfInv(s: System, f: nat, capacity: nat)
    requires f < |s.febs|
  {
    BoardInv(s.febs[f], Delivered(s.out, f), Copied(s.consumer, f), capacity)
  }

  lemma BoardKept(s: System, capacity: nat, a: Action, f: nat)
    requires Inv(s, capacity) && Enabled(s, a) && f < |s.febs|
    ensures BoardOfInv(Do(s, capacity, a), f, capacity)
  {
    assert BoardInv(s.febs[f], Delivered(s.out, f), Copied(s.consumer, f), capacity);
    match a
    case PushPoll(g, fragments) => PushKept(s, capacity, g, fragments, f);
    case Begin(g, delayOver) =>
    case Copy => CopyKept(s, capacity, f);
    case Erase => EraseKept(s, capacity, f);
  }

  lemma {:induction false} PushKept(s: System, capacity: nat, g: nat, fragments: seq<Fragment>, f: nat)
    requires f < |s.febs| && g < |s.febs| && BoardOfInv(s, f, capacity)
    ensures BoardOfInv(Do(s, capacity, PushPoll(g, fragments)), f, capacity)
  {
    if g == f {
      PushAllKeepsBoard(s.febs[f], fragments, Delivered(s.out, f), Copied(s.consumer, f), capacity);
    }
  }

  lemma {:induction false} CopyKept(s: System, capacity: nat, f: nat)
    requires f < |s.febs| && Enabled(s, Copy) && BoardOfInv(s, f, capacity)
    ensures BoardOfInv(Do(s, capacity, Copy), f, capacity)
  {
    var c := s.consumer;
    DeliveredNext(s.out, Delivery(s.sequenceId, c.feb, s.febs[c.feb].buffer[c.copied]), f);
    if c.feb == f {
      CopyKeepsBoard(s.febs[f], Delivered(s.out, f), c.copied, capacity);
    }
  }

  lemma {:induction false} EraseKept(s: System, capacity: nat, f: nat)
    requires f < |s.febs| && Enabled(s, Erase) && BoardOfInv(s, f, capacity)
    requires s.discard ==> s.out == [] && s.consumer.copied == 0
    ensures BoardOfInv(Do(s, capacity, Erase), f, capacity)
  {
    var c := s.consumer;
    if c.feb == f {
      EraseKeepsBoard(s.febs[f], Delivered(s.out, f), c.copied, c.end, s.discard, capacity);
    }
  }

  lemma {:induction false} RunKeepsInv(states: seq<System>, actions: seq<Action>, capacity: nat, febs: nat, i: nat)
    requires Run(states, actions, capacity, febs) && i < |states|
    ensures Inv(states[i], capacity) && |states[i].febs| == febs
  {
    if i == 0 {
      StartInv(febs, capacity);
    } else {
      RunKeepsInv(states, actions, capacity, febs, i - 1);
      assert Enabled(states[i - 1], actions[i - 1]);
      StepKeepsInv(states[i - 1], capacity, actions[i - 1]);
    }
  }

  /**
   * Main result: whatever the interleaving, whenever the consumer is idle every fragment pushed by a
   * board has been discarded, overwritten, delivered or is still in its ring; and those after the
   * discarded ones have all been delivered once and in order exactly when nothing was overwritten.
   */
  lemma {:induction false} DeliveredExactlyOnce(states: seq<System>, actions: seq<Action>, capacity: nat,
                                                febs: nat, i: nat, f: nat)
    requires Run(states, actions, capacity, febs) && i < |states| && states[i].consumer.Idle? && f < febs
    ensures f < |states[i].febs|
    ensures var feb, delivered := states[i].febs[f], Delivered(states[i].out, f);
            && |feb.pushed| == feb.discarded + feb.dropped + |delivered| + |feb.buffer|
            && (feb.pushed[feb.discarded..] == delivered + feb.buffer <==> feb.dropped == 0)
  {
    RunKeepsInv(states, actions, capacity, febs, i);
    var feb, delivered := states[i].febs[f], Delivered(states[i].out, f);
    assert BoardInv(feb, delivered, 0, capacity);
    assert delivered[..|delivered|] == delivered;
  }

  /** Sequence ids are consecutive over all boards, and nothing is delivered before the delay is over. */
  lemma SequenceIdsAreConsecutive(states: seq<System>, actions: seq<Action>, capacity: nat, febs: nat, i: nat, j: nat)
    requires Run(states, actions, capacity, febs) && i < |states| && j < |states[i].out|
    ensures !states[i].discard && states[i].out[j].sequenceId == j % 0x1_0000_0000
  {
    RunKeepsInv(states, actions, capacity, febs, i);
  }

  /** The consumer never finds fewer fragments than it saw at the start of a fill: it can always go on. */
  lemma ConsumerIsNeverStuck(states: seq<System>, actions: seq<Action>, capacity: nat, febs: nat, i: nat)
    requires Run(states, actions, capacity, febs) && i < |states| && states[i].consumer.Filling?
    ensures Enabled(states[i], Copy) || Enabled(states[i], Erase)
  {
    RunKeepsInv(states, actions, capacity, febs, i);
  }

  predicate EndsDelay(a: Action) {
    a.Begin? && a.delayOver
  }

  /** Discarding goes on exactly until a fill begins with the delay over. */
  lemma {:induction false} DiscardEnds(states: seq<System>, actions: seq<Action>, capacity: nat, febs: nat, i: nat)
    requires Run(states, actions, capacity, febs) && i < |states|
    ensures states[i].discard <==> forall j | 0 <= j < i :: !EndsDelay(actions[j])
  {
    if i > 0 {
      DiscardEnds(states, actions, capacity, febs, i - 1);
      assert Enabled(states[i - 1], actions[i - 1]);
      assert states[i].discard <==> states[i - 1].discard && !EndsDelay(actions[i - 1]);
    }
  }

  /** Once discarding has ended, no fragment is discarded any more. */
  lemma NothingMoreIsDiscarded(s: System, capacity: nat, a: Action, f: nat)
    requires Enabled(s, a) && f < |s.febs| && !s.discard
    ensures !Do(s, capacity, a).discard && Do(s, capacity, a).febs[f].discarded == s.febs[f].discarded
  {
    if a.PushPoll? && a.feb == f {
      PushAllDrops(s.febs[f], a.fragments, capacity);
    }
  }

  /** A poll leaves the latest fragments in the ring. */
  lemma {:induction false} PushAllKeepsLatest(feb: Feb, fragments: seq<Fragment>, capacity: nat)
    requires |feb.buffer| <= capacity
    ensures feb.PushAll(capacity, fragments).buffer == Latest(feb.buffer + fragments, capacity)
    decreases |fragments|
  {
    if fragments == [] {
      assert feb.buffer + fragments == feb.buffer;
    } else {
      PushAllKeepsLatest(feb.Push(capacity, fragments[0]), fragments[1..], capacity);
      LatestAfterPush(feb, fragments, capacity);
    }
  }

  lemma {:induction false} LatestAfterPush(feb: Feb, fragments: seq<Fragment>, capacity: nat)
    requires |feb.buffer| <= capacity && fragments != []
    ensures Latest(feb.Push(capacity, fragments[0]).buffer + fragments[1..], capacity)
            == Latest(feb.buffer + fragments, capacity)
  {
    var f, rest, all := fragments[0], fragments[1..], feb.buffer + fragments;
    if capacity > 0 && |feb.buffer| < capacity {
      assert feb.Push(capacity, f).buffer + rest == all;
    } else if capacity > 0 {
      assert feb.Push(capacity, f).buffer + rest == all[1..];
    }
  }

  function Latest(fragments: seq<Fragment>, n: nat): seq<Fragment> {
    if |fragments| <= n then fragments else fragments[|fragments| - n..]
  }

  /** A poll overwrites exactly the oldest fragments, those that do not fit. */
  lemma {:induction false} PushAllDrops(feb: Feb, fragments: seq<Fragment>, capacity: nat)
    ensures feb.PushAll(capacity, fragments).discarded == feb.discarded
    ensures feb.PushAll(capacity, fragments).pushed == feb.pushed + fragments
    ensures |feb.buffer| <= capacity ==>
              feb.PushAll(capacity, fragments).dropped
              == feb.dropped + if |feb.buffer| + |fragments| <= capacity then 0
                  else |feb.buffer| + |fragments| - capacity
    decreases |fragments|
  {
    if fragments != [] {
      PushAllDrops(feb.Push(capacity, fragments[0]), fragments[1..], capacity);
    }
  }

  lemma PushOne(feb: Feb, capacity: nat, f: Fragment)
    ensures feb.PushAll(capacity, [f]) == feb.Push(capacity, f)
  {
    assert [f][1..] == [];
  }

  /**
   * An overwrite during a fill loses the wrong fragment: the one counted as lost was delivered, the
   * other is erased unseen.
   */
  lemma {:induction false} OverwriteSkipsFragment(a: Fragment, b: Fragment)
      returns (states: seq<System>, actions: seq<Action>)
    ensures Run(states, actions, 1, 1)
    ensures var end := states[|states| - 1];
            && end.consumer.Idle? && |end.febs| == 1 && end.febs[0].buffer == []
            && end.febs[0].pushed == [a, b] && Delivered(end.out, 0) == [a] && end.febs[0].dropped == 1
  {
    var s0 := Start(1);
    var s1 := Do(s0, 1, PushPoll(0, [a]));
    PushOne(s0.febs[0], 1, a);
    assert s1.febs[0] == Feb([a], [a], 0, 0);
    var s2 := Do(s1, 1, Begin(0, true));
    var s3 := Do(s2, 1, Copy);
    var s4 := Do(s3, 1, PushPoll(0, [b]));
    PushOne(s3.febs[0], 1, b);
    assert [a][1..] + [b] == [b];
    assert s4.febs[0] == Feb([b], [a, b], 0, 1);
    var s5 := Do(s4, 1, Erase);
    actions := [PushPoll(0, [a]), Begin(0, true), Copy, PushPoll(0, [b]), Erase];
    states := [s0, s1, s2, s3, s4, s5];
    assert Run(states, actions, 1, 1);
    assert s3.out == [Delivery(0, 0, a)];
    DeliveredNext([], Delivery(0, 0, a), 0);
    assert states[|states| - 1] == s5;
  }

  /** A fill with the producer waiting, as the generator's own code does it. */
  class CrtGenerator {
    var buffers: seq<seq<Fragment>>
    var sequenceId: nat
    var discardData: bool

    constructor (febs: nat)
      ensures buffers == seq(febs, _ => []) && sequenceId == 0 && discardData
    {
      buffers, sequenceId, discardData := seq(febs, _ => []), 0, true;
    }

    /** Whether the generator is in the state a system describes. */
    ghost predicate Is(s: System)
      reads this
    {
      && |buffers| == |s.febs| && (forall f | 0 <= f < |buffers| :: buffers[f] == s.febs[f].buffer)
      && sequenceId == s.sequenceId && discardData == s.discard
    }

    /** The pushes of a poll, made under the board's lock. */
    method PushFragments(feb: nat, fragments: seq<Fragment>, capacity: nat, ghost s: System)
      requires feb < |buffers| && Is(s)
      modifies `buffers
      ensures Is(Do(s, capacity, PushPoll(feb, fragments)))
    {
      ghost var ring := s.febs[feb];
      for i := 0 to |fragments|
        invariant |buffers| == |s.febs| && buffers == old(buffers)[feb := ring.buffer]
        invariant ring.PushAll(capacity, fragments[i..]) == s.febs[feb].PushAll(capacity, fragments)
      {
        assert fragments[i..][1..] == fragments[i + 1..];
        if capacity > 0 && |buffers[feb]| >= capacity {
          buffers := buffers[feb := buffers[feb][1..] + [fragments[i]]];
        } else if capacity > 0 {
          buffers := buffers[feb := buffers[feb] + [fragments[i]]];
        }
        ring := ring.Push(capacity, fragments[i]);
      }
    }

    /** FillFragment takes exactly the consumer's steps of a fill. */
    method FillFragment(feb: nat, delayOver: bool, ghost s: System, capacity: nat)
        returns (frags: seq<Delivery>, ghost s': System)
      requires feb < |buffers| && Is(s) && s.consumer.Idle?
      modifies this
      ensures s' == Filled(s, capacity, feb, delayOver) && Is(s') && s'.out == s.out + frags
    {
      var bufferEnd := |buffers[feb]|;
      if discardData && delayOver {
        discardData := false;
      }
      frags := [];
      s' := Do(s, capacity, Begin(feb, delayOver));
      if !discardData {
        for i := 0 to bufferEnd
          invariant !discardData && buffers == old(buffers) && Is(s')
          invariant s'.consumer == Filling(feb, bufferEnd, i) && s'.febs == s.febs
          invariant CopyAll(s', capacity) == CopyAll(Do(s, capacity, Begin(feb, delayOver)), capacity)
          invariant s'.out == s.out + frags
        {
          frags := frags + [Delivery(sequenceId, feb, buffers[feb][i])];
          sequenceId := (sequenceId + 1) % 0x1_0000_0000;
          s' := Do(s', capacity, Copy);
        }
      }
      EraseFromFebBuffer(feb, bufferEnd);
      s' := Do(s', capacity, Erase);
    }

    method EraseFromFebBuffer(feb: nat, events: nat)
      requires feb < |buffers| && events <= |buffers[feb]|
      modifies `buffers
      ensures buffers == old(buffers)[feb := old(buffers)[feb][events..]]
    {
      buffers := buffers[feb := buffers[feb][events..]];
    }
  }

  function CopyAll(s: System, capacity: nat): System
    decreases if s.consumer.Filling? then s.consumer.end - s.consumer.copied else 0
  {
    if Enabled(s, Copy) then CopyAll(Do(s, capacity, Copy), capacity) else s
  }

  lemma {:induction false} CopyAllReachesErase(s: System, capacity: nat)
    requires s.consumer.Filling? && ConsumerInv(s)
    ensures Enabled(CopyAll(s, capacity), Erase)
    decreases s.consumer.end - s.consumer.copied
  {
    if Enabled(s, Copy) {
      CopyAllReachesErase(Do(s, capacity, Copy), capacity);
    }
  }

  /** A whole fill: look at the size, copy while there is something to copy, erase. */
  function Filled(s: System, capacity: nat, feb: nat, delayOver: bool): System
    requires s.consumer.Idle? && feb < |s.febs|
  {
    var begun := Do(s, capacity, Begin(feb, delayOver));
    CopyAllReachesErase(begun, capacity);
    Do(CopyAll(begun, capacity), capacity, Erase)
  }
}
