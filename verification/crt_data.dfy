/**
 * What becomes of the hits read from one CRT front-end board: they are timed, numbered with the hits
 * lost in between, and split into fragments by time.
 */
module CrtData {
  import opened FebDriver
  import Bits
  import TimeRecovery

  /** A hit with the time CalculateTimestamp gives it. */
  datatype TimedHit = TimedHit(hit: Hit, timestamp: nat)

  datatype NumberedHit = NumberedHit(hit: Hit, timestamp: nat, lostHits: nat, febHitNumber: nat,
                                     lastAcceptedTimestamp: nat)

  /** Hits lost while the CPU was busy, which the board does not count, estimated from the previous poll. */
  function Estimate(lostcpu: nat, rate: real): nat
    requires rate >= 0.0
  {
    (lostcpu as real * rate).Floor
  }

  /**
   * Hits lost at a hit: those estimated before it, and those the board reports after it, as the 8-bit
   * carry keeps them.
   */
  datatype Loss = Loss(estimate: nat, carry: nat)

  function LossAt(t: TimedHit, rate: real): Loss
    requires rate >= 0.0
  {
    Loss(Estimate(t.hit.lostcpu, rate), t.hit.lostfpga % 0x100)
  }

  /** What a board's numbering carries from hit to hit. */
  datatype Account = Account(hitNumber: nat, lastLostfpga: nat, lastAccepted: nat) {

    function Next(t: TimedHit, loss: Loss): Account {
      Account(hitNumber + 1 + loss.estimate + lastLostfpga, loss.carry, t.timestamp)
    }

    function Numbered(t: TimedHit, loss: Loss): NumberedHit {
      var lost := loss.estimate + lastLostfpga;
      NumberedHit(t.hit, t.timestamp, lost, hitNumber + 1 + lost, lastAccepted)
    }

    function After(hits: seq<TimedHit>, losses: seq<Loss>): Account
      requires |hits| == |losses|
      decreases |hits|
    {
      if hits == [] then this
      else
        var n := |hits| - 1;
        After(hits[..n], losses[..n]).Next(hits[n], losses[n])
    }

    function NumberHits(hits: seq<TimedHit>, losses: seq<Loss>): (numbered: seq<NumberedHit>)
      requires |hits| == |losses|
      ensures |numbered| == |hits|
      decreases |hits|
    {
      if hits == [] then []
      else
        var n := |hits| - 1;
        NumberHits(hits[..n], losses[..n]) + [After(hits[..n], losses[..n]).Numbered(hits[n], losses[n])]
    }
  }

  /** Initially, and never later, the time of the last accepted hit is 1. */
  const NO_HITS: Account := Account(0, 0, 1)

  /** The carries charged to the hits, which a poll adds up for the rate of the next one. */
  function Charged(last: nat, losses: seq<Loss>): nat
    decreases |losses|
  {
    if losses == [] then 0 else last + Charged(losses[0].carry, losses[1..])
  }

  /** Hits detected per hit read. */
  function RateOf(lost: nat, read: nat): (rate: real)
    ensures rate >= 1.0
  {
    (lost as real + read as real + 0.001) / (read as real + 0.001)
  }

  /** The rate as it is computed: the two counts are added in 32 bits. */
  function ComputedRate(lost: nat, read: nat): (rate: real)
    ensures rate > 0.0
  {
    var sum := (lost + read) % 0x1_0000_0000;
    (sum as real + 0.001) / (read as real + 0.001)
  }

  /** A board between polls. */
  datatype Board = Board(account: Account, lostInPoll: nat, readInPoll: nat) {

    function Rate(): (rate: real)
      ensures rate > 0.0
    {
      ComputedRate(lostInPoll, readInPoll)
    }

    function PollLosses(hits: seq<TimedHit>): (losses: seq<Loss>)
      ensures |losses| == |hits|
    {
      seq(|hits|, i requires 0 <= i < |hits| => LossAt(hits[i], Rate()))
    }

    function AfterPoll(hits: seq<TimedHit>): Board {
      var losses := PollLosses(hits);
      Board(account.After(hits, losses), Charged(account.lastLostfpga, losses) % 0x1_0000_0000, |hits| % 0x1_0000)
    }

    function HitsInPoll(hits: seq<TimedHit>): int {
      AfterPoll(hits).account.hitNumber - account.hitNumber
    }

    function AfterPolls(polls: seq<seq<TimedHit>>): Board
      decreases |polls|
    {
      if polls == [] then this else AfterPoll(polls[0]).AfterPolls(polls[1..])
    }

    /** The numbered hits of all polls, one after the other. */
    function NumberPolls(polls: seq<seq<TimedHit>>): seq<NumberedHit>
      decreases |polls|
    {
      if polls == [] then []
      else account.NumberHits(polls[0], PollLosses(polls[0])) + AfterPoll(polls[0]).NumberPolls(polls[1..])
    }

    function Losses(polls: seq<seq<TimedHit>>): seq<Loss>
      decreases |polls|
    {
      if polls == [] then [] else PollLosses(polls[0]) + AfterPoll(polls[0]).Losses(polls[1..])
    }

    function HitsInPolls(polls: seq<seq<TimedHit>>): int
      decreases |polls|
    {
      if polls == [] then 0 else HitsInPoll(polls[0]) + AfterPoll(polls[0]).HitsInPolls(polls[1..])
    }
  }

  const NEW_BOARD: Board := Board(NO_HITS, 0, 0)

  /**
   * The rate, of counts of 32 and 16 bits, never exceeds the hits detected per hit read; it is those exactly
   * when the sum fits 32 bits, and one exactly when nothing was lost.
   */
  lemma {:induction false} RateIsEstimate(lost: nat, read: nat)
    requires lost < 0x1_0000_0000 && read < 0x1_0000
    ensures ComputedRate(lost, read) == RateOf(lost, read) <==> lost + read < 0x1_0000_0000
    ensures ComputedRate(lost, read) == 1.0 <==> lost == 0
    ensures ComputedRate(lost, read) * read as real <= (lost + read) as real
  {
    if lost + read < 0x1_0000_0000 {
      assert ComputedRate(lost, read) == RateOf(lost, read);
      RateIsLow(lost, read);
    } else {
      WrappedRateIsSmall(lost, read);
      SumIsLarge(ComputedRate(lost, read), read as real);
    }
  }

  lemma {:induction false} RateIsLow(lost: nat, read: nat)
    ensures RateOf(lost, read) == 1.0 <==> lost == 0
    ensures RateOf(lost, read) * read as real <= (lost + read) as real
  {
    var l, r, rate := lost as real, read as real, RateOf(lost, read);
    assert rate * (r + 0.001) == l + r + 0.001;
    assert rate * (r + 0.001) == rate * r + rate * 0.001;
  }

  lemma {:induction false} SumIsLarge(rate: real, read: real)
    requires 0.0 <= rate < 1.0 && read >= 0.0
    ensures rate * read <= read
  {
    NoNegativeProduct(1.0 - rate, read);
    assert (1.0 - rate) * read == read - rate * read;
  }

  /** When the sum wraps, the rate falls below one. */
  lemma {:induction false} WrappedRateIsSmall(lost: nat, read: nat)
    requires lost < 0x1_0000_0000 <= lost + read && read < 0x1_0000
    ensures ComputedRate(lost, read) < 1.0
  {
    var sum := (lost + read) % 0x1_0000_0000;
    assert sum < read;
    BelowOne(sum as real + 0.001, read as real + 0.001);
  }

  lemma {:induction false} BelowOne(a: real, b: real)
    requires 0.0 < a < b
    ensures a / b < 1.0
  {
    var q := a / b;
    assert q * b == a;
    if q >= 1.0 {
      ProductGrows(q, b);
    }
  }

  lemma ProductGrows(x: real, y: real)
    requires x >= 1.0 && y >= 0.0
    ensures x * y >= y
  {
    NoNegativeProduct(x - 1.0, y);
    assert (x - 1.0) * y == x * y - y;
  }

  lemma NoNegativeProduct(x: real, y: real)
    requires x >= 0.0 && y >= 0.0
    ensures x * y >= 0.0
  {
  }

  lemma {:induction false} RatesDiffer(lost: nat, read: nat, other: nat)
    ensures RateOf(lost, read) == RateOf(lost, other) <==> lost == 0 || read == other
  {
    var l, r, o := lost as real, read as real + 0.001, other as real + 0.001;
    Share(l, r);
    Share(l, o);
    if l / r == l / o && r != o {
      var q := l / r;
      assert q * r == l && q * o == l;
      assert q * (r - o) == 0.0;
    }
  }

  lemma Share(l: real, r: real)
    requires r > 0.0
    ensures (l + r) / r == l / r + 1.0
  {
    var q, whole := l / r, (l + r) / r;
    assert q * r == l && whole * r == l + r;
    NoZeroProduct(whole - q - 1.0, r);
  }

  lemma NoZeroProduct(x: real, y: real)
    requires x * y == 0.0 && y > 0.0
    ensures x == 0.0
  {
  }

  lemma {:induction false} ChargedIsBounded(last: nat, losses: seq<Loss>)
    requires last < 0x100 && forall i | 0 <= i < |losses| :: losses[i].carry < 0x100
    ensures Charged(last, losses) <= 0xff * |losses|
    decreases |losses|
  {
    if losses != [] {
      ChargedIsBounded(losses[0].carry, losses[1..]);
    }
  }

  /**
   * What a poll leaves for the next one's rate: the hits truly read exactly for fewer than 65536, the
   * carries truly charged exactly below 2^32, which takes more than sixteen million hits. Short of that
   * the rate is that of the hits read exactly when they were fewer than 65536 or nothing was lost.
   */
  lemma {:induction false} RateIsRight(b: Board, hits: seq<TimedHit>)
    requires b.account.lastLostfpga < 0x100
    ensures var next, charged := b.AfterPoll(hits), Charged(b.account.lastLostfpga, b.PollLosses(hits));
            && (next.readInPoll == |hits| <==> |hits| < 0x1_0000)
            && (next.lostInPoll == charged <==> charged < 0x1_0000_0000)
            && (charged >= 0x1_0000_0000 ==> |hits| > 16_000_000)
            && (charged < 0x1_0000_0000 ==>
                  (next.Rate() == RateOf(charged, |hits|) <==> |hits| < 0x1_0000 || charged == 0))
  {
    var next, charged := b.AfterPoll(hits), Charged(b.account.lastLostfpga, b.PollLosses(hits));
    ChargedIsBounded(b.account.lastLostfpga, b.PollLosses(hits));
    if charged < 0x1_0000_0000 {
      assert next.lostInPoll == charged;
      CountedRate(charged, |hits|);
    }
  }

  lemma {:induction false} CountedRate(charged: nat, read: nat)
    requires charged < 0x1_0000_0000 && charged <= 0xff * read
    ensures ComputedRate(charged, read % 0x1_0000) == RateOf(charged, read) <==> read < 0x1_0000 || charged == 0
  {
    var counted := read % 0x1_0000;
    RateIsEstimate(charged, counted);
    RatesDiffer(charged, counted, read);
    if charged + counted >= 0x1_0000_0000 {
      assert read >= 0x1_0000;
      WrappedRateIsSmall(charged, counted);
    }
  }

  /**
   * The hits read are counted in 16 bits: a poll of 65536 makes the next rate one plus a thousand for
   * every hit lost in it.
   */
  lemma HitCountWraps(b: Board, hits: seq<TimedHit>)
    requires |hits| == 0x1_0000
    ensures b.AfterPoll(hits).Rate() == 1.0 + 1000.0 * b.AfterPoll(hits).lostInPoll as real
  {
  }

  function AllHits(polls: seq<seq<TimedHit>>): seq<TimedHit> {
    if polls == [] then [] else polls[0] + AllHits(polls[1..])
  }

  /** The account before hit k, as the hits themselves say it should be. */
  function Carried(a: Account, hits: seq<TimedHit>, losses: seq<Loss>, numbered: seq<NumberedHit>, k: nat): Account
    requires k <= |hits| == |losses| == |numbered|
  {
    if k == 0 then a
    else Account(numbered[k - 1].febHitNumber, losses[k - 1].carry, hits[k - 1].timestamp)
  }

  /** Every hit is numbered from the one before it. */
  ghost predicate Chained(a: Account, hits: seq<TimedHit>, losses: seq<Loss>, numbered: seq<NumberedHit>) {
    && |hits| == |losses| == |numbered|
    && forall k {:trigger Carried(a, hits, losses, numbered, k)} | 0 <= k < |hits| ::
         numbered[k] == Carried(a, hits, losses, numbered, k).Numbered(hits[k], losses[k])
  }

  lemma ChainsJoin(a: Account, h1: seq<TimedHit>, l1: seq<Loss>, n1: seq<NumberedHit>,
                   h2: seq<TimedHit>, l2: seq<Loss>, n2: seq<NumberedHit>)
    requires Chained(a, h1, l1, n1) && Chained(Carried(a, h1, l1, n1, |h1|), h2, l2, n2)
    ensures Chained(a, h1 + h2, l1 + l2, n1 + n2)
  {
    var middle := Carried(a, h1, l1, n1, |h1|);
    forall k | 0 <= k < |h1 + h2|
      ensures (n1 + n2)[k] == Carried(a, h1 + h2, l1 + l2, n1 + n2, k).Numbered((h1 + h2)[k], (l1 + l2)[k])
    {
      if k < |h1| {
        assert Carried(a, h1 + h2, l1 + l2, n1 + n2, k) == Carried(a, h1, l1, n1, k);
      } else {
        var j := k - |h1|;
        assert Carried(a, h1 + h2, l1 + l2, n1 + n2, k) == Carried(middle, h2, l2, n2, j);
        assert n2[j] == Carried(middle, h2, l2, n2, j).Numbered(h2[j], l2[j]);
      }
    }
  }

  lemma {:induction false} PollIsChained(a: Account, hits: seq<TimedHit>, losses: seq<Loss>)
    requires |hits| == |losses|
    ensures Chained(a, hits, losses, a.NumberHits(hits, losses))
    ensures a.After(hits, losses) == Carried(a, hits, losses, a.NumberHits(hits, losses), |hits|)
    decreases |hits|
  {
    if hits != [] {
      var n := |hits| - 1;
      PollIsChained(a, hits[..n], losses[..n]);
      var before, middle := a.NumberHits(hits[..n], losses[..n]), a.After(hits[..n], losses[..n]);
      var last := middle.Numbered(hits[n], losses[n]);
      assert Chained(middle, [hits[n]], [losses[n]], [last]);
      ChainsJoin(a, hits[..n], losses[..n], before, [hits[n]], [losses[n]], [last]);
      assert hits == hits[..n] + [hits[n]] && losses == losses[..n] + [losses[n]];
    }
  }

  lemma {:induction false} PollsAreChained(b: Board, polls: seq<seq<TimedHit>>)
    ensures Chained(b.account, AllHits(polls), b.Losses(polls), b.NumberPolls(polls))
    decreases |polls|
  {
    if polls != [] {
      var next, losses := b.AfterPoll(polls[0]), b.PollLosses(polls[0]);
      PollIsChained(b.account, polls[0], losses);
      PollsAreChained(next, polls[1..]);
      ChainsJoin(b.account, polls[0], losses, b.account.NumberHits(polls[0], losses),
                 AllHits(polls[1..]), next.Losses(polls[1..]), next.NumberPolls(polls[1..]));
    }
  }

  /** The whole hits that fit in the time lost, at this rate, and the board's own count in eight bits. */
  predicate IsLoss(loss: Loss, hit: Hit, rate: real) {
    && loss.estimate as real <= hit.lostcpu as real * rate < loss.estimate as real + 1.0
    && loss.carry == hit.lostfpga % 256
  }

  lemma LossIsLoss(t: TimedHit, rate: real)
    requires rate >= 0.0
    ensures IsLoss(LossAt(t, rate), t.hit, rate)
  {
  }

  /** The losses at a hit are those of the hit, at the rate in use in its own poll, the p-th. */
  lemma {:induction false} LossesOfHits(b: Board, polls: seq<seq<TimedHit>>, k: nat) returns (p: nat)
    requires k < |AllHits(polls)|
    ensures p < |polls| && |AllHits(polls[..p])| <= k < |AllHits(polls[..p + 1])|
    ensures |b.Losses(polls)| == |AllHits(polls)|
    ensures b.Losses(polls)[k] == LossAt(AllHits(polls)[k], b.AfterPolls(polls[..p]).Rate())
    ensures IsLoss(b.Losses(polls)[k], AllHits(polls)[k].hit, b.AfterPolls(polls[..p]).Rate())
    decreases |polls|
  {
    PollsAreChained(b, polls);
    var later, next := polls[1..], b.AfterPoll(polls[0]);
    assert b.Losses(polls) == b.PollLosses(polls[0]) + next.Losses(later);
    if k < |polls[0]| {
      p := 0;
      assert polls[..1][1..] == [] && polls[..0] == [];
      LossIsLoss(polls[0][k], b.Rate());
    } else {
      var q := LossesOfHits(next, later, k - |polls[0]|);
      p := q + 1;
      assert polls[..p][1..] == later[..q] && polls[..p + 1][1..] == later[..q + 1];
    }
  }

  /**
   * Main result on numbering: over all polls of a run, however the hits fall into polls, numbers strictly
   * increase by one plus the hits lost; the lost hits are the estimate for the CPU dead time plus what
   * the hit before reported, each report being used once and cut to eight bits; and the last accepted
   * timestamp is that of the hit before.
   */
  lemma {:induction false} NumberingIsSeamless(polls: seq<seq<TimedHit>>, k: nat)
    requires k < |AllHits(polls)|
    ensures |NEW_BOARD.NumberPolls(polls)| == |NEW_BOARD.Losses(polls)| == |AllHits(polls)|
    ensures var hit, numbered := AllHits(polls), NEW_BOARD.NumberPolls(polls);
            && numbered[k].hit == hit[k].hit && numbered[k].timestamp == hit[k].timestamp
            && numbered[k].febHitNumber
               == (if k == 0 then 0 else numbered[k - 1].febHitNumber) + 1 + numbered[k].lostHits
            && numbered[k].lostHits == NEW_BOARD.Losses(polls)[k].estimate
                                       + (if k == 0 then 0 else hit[k - 1].hit.lostfpga % 0x100)
            && numbered[k].lastAcceptedTimestamp == if k == 0 then 1 else hit[k - 1].timestamp
  {
    PollsAreChained(NEW_BOARD, polls);
    var hits, losses, numbered := AllHits(polls), NEW_BOARD.Losses(polls), NEW_BOARD.NumberPolls(polls);
    assert numbered[k] == Carried(NO_HITS, hits, losses, numbered, k).Numbered(hits[k], losses[k]);
    if k > 0 {
      var _ := LossesOfHits(NEW_BOARD, polls, k - 1);
    }
  }

  function TotalLost(numbered: seq<NumberedHit>): nat {
    if numbered == [] then 0 else TotalLost(numbered[..|numbered| - 1]) + numbered[|numbered| - 1].lostHits
  }

  lemma {:induction false} TotalLostJoins(a: seq<NumberedHit>, b: seq<NumberedHit>)
    ensures TotalLost(a + b) == TotalLost(a) + TotalLost(b)
    decreases |b|
  {
    if b == [] {
      assert a + b == a;
    } else {
      var n := |b| - 1;
      TotalLostJoins(a, b[..n]);
      assert (a + b)[..|a| + n] == a + b[..n];
    }
  }

  lemma {:induction false} PollIsCounted(a: Account, hits: seq<TimedHit>, losses: seq<Loss>)
    requires |hits| == |losses|
    ensures a.After(hits, losses).hitNumber == a.hitNumber + |hits| + TotalLost(a.NumberHits(hits, losses))
    decreases |hits|
  {
    if hits != [] {
      var n := |hits| - 1;
      PollIsCounted(a, hits[..n], losses[..n]);
      assert a.NumberHits(hits, losses)[..n] == a.NumberHits(hits[..n], losses[..n]);
    }
  }

  /** hits_in_poll counts the hits read and those lost, and adds up to the last hit number of the run. */
  lemma {:induction false} HitsInPollsAddUp(b: Board, polls: seq<seq<TimedHit>>)
    ensures b.HitsInPolls(polls) == b.AfterPolls(polls).account.hitNumber - b.account.hitNumber
    ensures b.HitsInPolls(polls) == |AllHits(polls)| + TotalLost(b.NumberPolls(polls))
    decreases |polls|
  {
    if polls != [] {
      var losses := b.PollLosses(polls[0]);
      PollIsCounted(b.account, polls[0], losses);
      HitsInPollsAddUp(b.AfterPoll(polls[0]), polls[1..]);
      TotalLostJoins(b.account.NumberHits(polls[0], losses), b.AfterPoll(polls[0]).NumberPolls(polls[1..]));
    }
  }

  function TotalEstimated(losses: seq<Loss>): nat {
    if losses == [] then 0 else TotalEstimated(losses[..|losses| - 1]) + losses[|losses| - 1].estimate
  }

  function TotalCarried(losses: seq<Loss>): nat {
    if losses == [] then 0 else TotalCarried(losses[..|losses| - 1]) + losses[|losses| - 1].carry
  }

  /** What the board reports lost after each hit. */
  function TotalReported(hits: seq<TimedHit>): nat {
    if hits == [] then 0 else TotalReported(hits[..|hits| - 1]) + hits[|hits| - 1].hit.lostfpga
  }

  lemma {:induction false} ChainIsCounted(a: Account, hits: seq<TimedHit>, losses: seq<Loss>,
                                          numbered: seq<NumberedHit>, n: nat)
    requires Chained(a, hits, losses, numbered) && n <= |hits|
    ensures TotalLost(numbered[..n]) == TotalEstimated(losses[..n])
                                        + if n == 0 then 0 else a.lastLostfpga + TotalCarried(losses[..n - 1])
  {
    if n > 0 {
      ChainIsCounted(a, hits, losses, numbered, n - 1);
      assert numbered[n - 1] == Carried(a, hits, losses, numbered, n - 1).Numbered(hits[n - 1], losses[n - 1]);
      assert numbered[..n][..n - 1] == numbered[..n - 1] && losses[..n][..n - 1] == losses[..n - 1];
      if n > 1 {
        assert losses[..n - 1][..n - 2] == losses[..n - 2];
      }
    }
  }

  lemma {:induction false} CarriesAreComplete(hits: seq<TimedHit>, losses: seq<Loss>)
    requires |hits| == |losses|
    requires forall k | 0 <= k < |hits| :: losses[k].carry == hits[k].hit.lostfpga % 0x100
    ensures TotalCarried(losses) <= TotalReported(hits)
    ensures TotalCarried(losses) == TotalReported(hits) <==> forall k | 0 <= k < |hits| :: hits[k].hit.lostfpga < 0x100
  {
    if hits != [] {
      var n := |hits| - 1;
      CarriesAreComplete(hits[..n], losses[..n]);
      assert forall k | 0 <= k < n :: hits[..n][k] == hits[k];
    }
  }

  /**
   * The lost hits of a run are the estimates plus everything reported before its last hit, exactly when
   * no report but the last exceeds the 8-bit carry.
   */
  lemma {:induction false} ReportsAreChargedOnce(polls: seq<seq<TimedHit>>)
    requires AllHits(polls) != []
    ensures var hits := AllHits(polls); var n := |hits| - 1;
            TotalLost(NEW_BOARD.NumberPolls(polls))
              == TotalEstimated(NEW_BOARD.Losses(polls)) + TotalReported(hits[..n])
            <==> forall k | 0 <= k < n :: hits[k].hit.lostfpga < 0x100
  {
    var hits := AllHits(polls);
    var n := |hits| - 1;
    PollsAreChained(NEW_BOARD, polls);
    var losses, numbered := NEW_BOARD.Losses(polls), NEW_BOARD.NumberPolls(polls);
    ChainIsCounted(NO_HITS, hits, losses, numbered, n + 1);
    assert losses[..n + 1] == losses && numbered[..n + 1] == numbered;
    forall k | 0 <= k < n
      ensures losses[k].carry == hits[k].hit.lostfpga % 0x100
    {
      var _ := LossesOfHits(NEW_BOARD, polls, k);
    }
    CarriesAreComplete(hits[..n], losses[..n]);
    assert forall k | 0 <= k < n :: hits[..n][k] == hits[k];
  }

  /** Hits pushed together, with the time the fragment gets. */
  datatype Fragment = Fragment(hits: seq<NumberedHit>, hitsInFragment: nat, timestamp: real)

  function Concatenated(fragments: seq<Fragment>): seq<NumberedHit> {
    if fragments == [] then [] else Concatenated(fragments[..|fragments| - 1]) + fragments[|fragments| - 1].hits
  }

  /** The fragment period a time lies in: how many whole periods come before it. */
  function Window(time: nat, period: nat): nat
    requires period > 0
  {
    if time < period then 0 else 1 + Window(time - period, period)
  }

  lemma {:induction false} WindowIsQuotient(time: nat, period: nat)
    requires period > 0
    ensures Window(time, period) == time / period
  {
    if time < period {
      Bits.ModUnique(time, period, 0, time);
    } else {
      WindowIsQuotient(time - period, period);
      Bits.ModUnique(time, period, (time - period) / period + 1, (time - period) % period);
    }
  }

  lemma {:induction false} WindowBounds(time: nat, period: nat)
    requires period > 0
    ensures Window(time, period) * period <= time < Window(time, period) * period + period
  {
    if time >= period {
      WindowBounds(time - period, period);
    }
  }

  /** The middle of a window of the fragment period. */
  function WindowTime(window: nat, period: nat): real {
    (window as real + 0.5) * period as real
  }

  /** Nonempty, of one window, and marked with its count and time. */
  predicate FragmentOf(f: Fragment, window: nat, period: nat)
    requires period > 0
  {
    && f.hits != [] && f.hitsInFragment == |f.hits|
    && f.timestamp == WindowTime(window, period)
    && forall i | 0 <= i < |f.hits| :: Window(f.hits[i].timestamp, period) == window
  }

  /** Adjacent fragments are of different windows, so each is as long as it can be. */
  ghost predicate IsSplit(fragments: seq<Fragment>, hits: seq<NumberedHit>, period: nat)
    requires period > 0
  {
    && Concatenated(fragments) == hits
    && (forall i | 0 <= i < |fragments| ::
          fragments[i].hits != [] && FragmentOf(fragments[i], Window(fragments[i].hits[0].timestamp, period), period))
    && forall i | 0 < i < |fragments| ::
         Window(fragments[i].hits[0].timestamp, period) != Window(fragments[i - 1].hits[0].timestamp, period)
  }

  method WindowOf(time: nat, period: nat) returns (window: nat)
    requires period > 0
    ensures window == Window(time, period)
  {
    WindowIsQuotient(time, period);
    window := time / period;
  }

  /** The splitting loop of GetFEBData. */
  method SplitHits(hits: seq<NumberedHit>, period: nat) returns (fragments: seq<Fragment>)
    requires period > 0
    ensures IsSplit(fragments, hits, period)
  {
    fragments := [];
    if hits == [] {
      return;
    }
    var start := 0;
    var window := WindowOf(hits[0].timestamp, period);
    for i := 0 to |hits| + 1
      invariant 0 <= start <= i && (start == i ==> i == 0 || i == |hits| + 1)
      invariant i <= |hits| ==>
                  && start < |hits| && window == Window(hits[start].timestamp, period)
                  && (forall k | start <= k < i :: Window(hits[k].timestamp, period) == window)
                  && IsSplit(fragments, hits[..start], period)
                  && (fragments != [] ==> Window(fragments[|fragments| - 1].hits[0].timestamp, period) != window)
      invariant i > |hits| ==> IsSplit(fragments, hits, period)
    {
      var next := window;
      if i < |hits| {
        next := WindowOf(hits[i].timestamp, period);
      }
      if i == |hits| || next != window {
        var fragment := Fragment(hits[start..i], i - start, WindowTime(window, period));
        SplitGrows(fragments, hits, start, i, fragment, window, period);
        fragments := fragments + [fragment];
        if i < |hits| {
          start, window := i, next;
        }
      }
    }
  }

  lemma SplitGrows(fragments: seq<Fragment>, hits: seq<NumberedHit>, start: nat, end: nat, f: Fragment,
                   window: nat, period: nat)
    requires period > 0 && start < end <= |hits|
    requires IsSplit(fragments, hits[..start], period) && FragmentOf(f, window, period) && f.hits == hits[start..end]
    requires fragments != [] ==> Window(fragments[|fragments| - 1].hits[0].timestamp, period) != window
    ensures IsSplit(fragments + [f], hits[..end], period)
    ensures end == |hits| ==> hits[..end] == hits
  {
    assert (fragments + [f])[..|fragments|] == fragments;
    assert hits[..start] + hits[start..end] == hits[..end];
  }

  /** Every hit lies within half a period of its fragment's timestamp. */
  lemma HitsAreNearTheirFragment(f: Fragment, window: nat, period: nat, i: nat)
    requires period > 0 && FragmentOf(f, window, period) && i < |f.hits|
    ensures -(period as real) / 2.0 <= f.hits[i].timestamp as real - f.timestamp < period as real / 2.0
  {
    var t := f.hits[i].timestamp;
    WindowBounds(t, period);
    assert (window * period) as real == window as real * period as real;
  }

  /** There is only one such split, so the loop's is the one intended. */
  lemma {:induction false} SplitIsUnique(a: seq<Fragment>, b: seq<Fragment>, hits: seq<NumberedHit>, period: nat)
    requires period > 0 && IsSplit(a, hits, period) && IsSplit(b, hits, period)
    ensures a == b
    decreases |a|
  {
    if a == [] || b == [] {
      EmptySplit(a, hits, period);
      EmptySplit(b, hits, period);
    } else {
      var m, n := |a| - 1, |b| - 1;
      LastFragmentsAgree(a, b, hits, period);
      SplitWithoutLast(a, hits, period);
      SplitWithoutLast(b, hits, period);
      SplitIsUnique(a[..m], b[..n], hits[..|hits| - |a[m].hits|], period);
      assert a == a[..m] + [a[m]] && b == b[..n] + [b[n]];
    }
  }

  lemma SplitWithoutLast(a: seq<Fragment>, hits: seq<NumberedHit>, period: nat)
    requires period > 0 && IsSplit(a, hits, period) && a != []
    ensures |a[|a| - 1].hits| <= |hits|
    ensures IsSplit(a[..|a| - 1], hits[..|hits| - |a[|a| - 1].hits|], period)
  {
    assert Concatenated(a[..|a| - 1]) == hits[..|hits| - |a[|a| - 1].hits|];
  }

  lemma EmptySplit(a: seq<Fragment>, hits: seq<NumberedHit>, period: nat)
    requires period > 0 && IsSplit(a, hits, period)
    ensures a == [] <==> hits == []
  {
  }

  /** The last fragment starts right after the last hit of another window. */
  lemma LastFragmentsAgree(a: seq<Fragment>, b: seq<Fragment>, hits: seq<NumberedHit>, period: nat)
    requires period > 0 && IsSplit(a, hits, period) && IsSplit(b, hits, period) && a != [] && b != []
    ensures a[|a| - 1] == b[|b| - 1]
  {
    var f, g := a[|a| - 1], b[|b| - 1];
    LastFragment(a, hits, period);
    LastFragment(b, hits, period);
    LastFragmentIsLongest(a, hits, period, |g.hits|);
    LastFragmentIsLongest(b, hits, period, |f.hits|);
  }

  lemma LastFragment(a: seq<Fragment>, hits: seq<NumberedHit>, period: nat)
    requires period > 0 && IsSplit(a, hits, period) && a != []
    ensures |a[|a| - 1].hits| <= |hits|
    ensures a[|a| - 1].hits == hits[|hits| - |a[|a| - 1].hits|..]
    ensures FragmentOf(a[|a| - 1], Window(hits[|hits| - 1].timestamp, period), period)
  {
    var f := a[|a| - 1];
    assert hits == Concatenated(a[..|a| - 1]) + f.hits;
    assert f.hits[|f.hits| - 1] == hits[|hits| - 1];
  }

  lemma {:induction false} BeforeLastFragment(a: seq<Fragment>, hits: seq<NumberedHit>, period: nat)
    requires period > 0 && IsSplit(a, hits, period) && a != []
    ensures |a[|a| - 1].hits| <= |hits|
    ensures var before := |hits| - |a[|a| - 1].hits|;
            before > 0 ==> Window(hits[before - 1].timestamp, period) != Window(hits[|hits| - 1].timestamp, period)
  {
    var last := |a| - 1;
    LastFragment(a, hits, period);
    var earlier := a[..last];
    if last > 0 {
      var f := a[last - 1];
      assert earlier[last - 1] == f;
      assert Concatenated(earlier) == Concatenated(earlier[..last - 1]) + f.hits;
      assert hits[|Concatenated(earlier)| - 1] == f.hits[|f.hits| - 1];
      assert FragmentOf(f, Window(f.hits[0].timestamp, period), period);
    } else {
      assert earlier == [];
    }
  }

  lemma LastFragmentIsLongest(a: seq<Fragment>, hits: seq<NumberedHit>, period: nat, n: nat)
    requires period > 0 && IsSplit(a, hits, period) && a != [] && n <= |hits|
    requires forall i | |hits| - n <= i < |hits| ::
               Window(hits[i].timestamp, period) == Window(hits[|hits| - 1].timestamp, period)
    ensures n <= |a[|a| - 1].hits|
  {
    BeforeLastFragment(a, hits, period);
  }

  lemma AddInside(x: nat, y: nat)
    ensures (x % 0x1_0000_0000 + y) % 0x1_0000_0000 == (x + y) % 0x1_0000_0000
  {
  }

  class FEB {
    var lastAcceptedTimestamp: nat
    var lastLostfpga: nat
    var lastPollTotalLostfpga: nat
    var lastPollTotalReadHits: nat
    var hitNumber: nat
    var hitsInPoll: int

    constructor ()
      ensures State() == NEW_BOARD
    {
      lastAcceptedTimestamp, lastLostfpga, hitNumber := 1, 0, 0;
      lastPollTotalLostfpga, lastPollTotalReadHits, hitsInPoll := 0, 0, 0;
    }

    function State(): Board
      reads `lastAcceptedTimestamp, `lastLostfpga, `lastPollTotalLostfpga, `lastPollTotalReadHits, `hitNumber
    {
      Board(Account(hitNumber, lastLostfpga, lastAcceptedTimestamp), lastPollTotalLostfpga, lastPollTotalReadHits)
    }

    /** One turn of the numbering loop. */
    method NumberHit(t: TimedHit, rate: real) returns (numbered: NumberedHit)
      requires rate >= 0.0
      modifies `hitNumber, `lastLostfpga, `lastAcceptedTimestamp
      ensures State().account == old(State().account).Next(t, LossAt(t, rate))
      ensures numbered == old(State().account).Numbered(t, LossAt(t, rate))
    {
      var lost := (t.hit.lostcpu as real * rate + lastLostfpga as real).Floor;
      assert lost == Estimate(t.hit.lostcpu, rate) + lastLostfpga;
      lastLostfpga := t.hit.lostfpga % 0x100;
      hitNumber := hitNumber + 1 + lost;
      numbered := NumberedHit(t.hit, t.timestamp, lost, hitNumber, lastAcceptedTimestamp);
      lastAcceptedTimestamp := t.timestamp;
    }

    /** One turn of the loop, with what its hit is charged added up. */
    method NumberNext(timed: seq<TimedHit>, rate: real, ghost losses: seq<Loss>, ghost a: Account, i: nat,
                      before: seq<NumberedHit>, totalBefore: nat)
        returns (numbered: seq<NumberedHit>, totalLostfpga: nat)
      requires rate >= 0.0 && i < |losses| == |timed| && losses[i] == LossAt(timed[i], rate)
      requires State().account == a.After(timed[..i], losses[..i])
      requires before == a.NumberHits(timed[..i], losses[..i])
      requires totalBefore == Charged(a.lastLostfpga, losses[..i]) % 0x1_0000_0000
      modifies `hitNumber, `lastLostfpga, `lastAcceptedTimestamp
      ensures State().account == a.After(timed[..i + 1], losses[..i + 1])
      ensures numbered == a.NumberHits(timed[..i + 1], losses[..i + 1])
      ensures totalLostfpga == Charged(a.lastLostfpga, losses[..i + 1]) % 0x1_0000_0000
    {
      NextAccount(a, timed, losses, i);
      NextTotal(a, timed, losses, i, totalBefore);
      totalLostfpga := (totalBefore + lastLostfpga) % 0x1_0000_0000;
      var next := NumberHit(timed[i], rate);
      numbered := before + [next];
    }

    /** The numbering loop. */
    method NumberHits(timed: seq<TimedHit>, rate: real, ghost losses: seq<Loss>)
        returns (numbered: seq<NumberedHit>, totalLostfpga: nat)
      requires rate >= 0.0 && |losses| == |timed|
      requires forall i | 0 <= i < |timed| :: losses[i] == LossAt(timed[i], rate)
      modifies `hitNumber, `lastLostfpga, `lastAcceptedTimestamp
      ensures State().account == old(State().account).After(timed, losses)
      ensures numbered == old(State().account).NumberHits(timed, losses)
      ensures totalLostfpga == Charged(old(lastLostfpga), losses) % 0x1_0000_0000
    {
      ghost var a := State().account;
      numbered, totalLostfpga := [], 0;
      for i := 0 to |timed|
        invariant State().account == a.After(timed[..i], losses[..i])
        invariant numbered == a.NumberHits(timed[..i], losses[..i])
        invariant totalLostfpga == Charged(a.lastLostfpga, losses[..i]) % 0x1_0000_0000
      {
        numbered, totalLostfpga := NumberNext(timed, rate, losses, a, i, numbered, totalLostfpga);
      }
      assert timed[..|timed|] == timed && losses[..|timed|] == losses;
    }

    /** What GetFEBData does with the hits read in a poll. */
    method ProcessPoll(hits: seq<Hit>, ppsOffset: int, lastPollStart: nat, thisPollEnd: nat, period: nat)
        returns (fragments: seq<Fragment>)
      requires period > 0
      modifies this
      ensures var timed := Timed(hits, ppsOffset, lastPollStart, thisPollEnd);
              && State() == old(State()).AfterPoll(timed)
              && hitsInPoll == old(State()).HitsInPoll(timed)
              && IsSplit(fragments, old(State()).account.NumberHits(timed, old(State()).PollLosses(timed)), period)
      ensures AreTimed(Concatenated(fragments), hits, ppsOffset, lastPollStart, thisPollEnd)
    {
      TimesAreTrue(State().account, hits, State().PollLosses(Timed(hits, ppsOffset, lastPollStart, thisPollEnd)),
                   ppsOffset, lastPollStart, thisPollEnd);
      var timed := CalculateTimestamps(hits, ppsOffset, lastPollStart, thisPollEnd);
      var sum := (lastPollTotalLostfpga + lastPollTotalReadHits) % 0x1_0000_0000;
      var rate := (sum as real + 0.001) / (lastPollTotalReadHits as real + 0.001);
      assert rate == State().Rate();
      var lastPollHitNumber := hitNumber;
      var numbered, totalLostfpga := NumberHits(timed, rate, State().PollLosses(timed));
      lastPollTotalReadHits := |hits| % 0x1_0000;
      lastPollTotalLostfpga := totalLostfpga;
      hitsInPoll := hitNumber - lastPollHitNumber;
      fragments := SplitHits(numbered, period);
    }
  }

  method CalculateTimestamps(hits: seq<Hit>, ppsOffset: int, lastPollStart: nat, thisPollEnd: nat)
      returns (timed: seq<TimedHit>)
    ensures timed == Timed(hits, ppsOffset, lastPollStart, thisPollEnd)
  {
    timed := [];
    for i := 0 to |hits|
      invariant timed == Timed(hits[..i], ppsOffset, lastPollStart, thisPollEnd)
    {
      timed := timed + [TimedHit(hits[i], TimeRecovery.HitTimestamp(hits[i].ts0, ppsOffset, lastPollStart,
          thisPollEnd))];
    }
    assert hits[..|hits|] == hits;
  }

  function Timed(hits: seq<Hit>, ppsOffset: int, lastPollStart: nat, thisPollEnd: nat): (timed: seq<TimedHit>)
    ensures |timed| == |hits|
  {
    seq(|hits|, i requires 0 <= i < |hits| =>
      TimedHit(hits[i], TimeRecovery.HitTimestamp(hits[i].ts0, ppsOffset, lastPollStart, thisPollEnd)))
  }

  /** A time a hit may have been taken at, in a poll window below 1 s - 2 ns: its nanoseconds are the hit's. */
  predicate PossibleTime(time: nat, ts0: nat, ppsOffset: int, lastPollStart: nat, thisPollEnd: nat) {
    && lastPollStart <= time <= thisPollEnd < TimeRecovery.UINT64_RANGE
    && thisPollEnd - lastPollStart < TimeRecovery.SECOND - 2
    && time % TimeRecovery.SECOND == (ts0 + ppsOffset) % TimeRecovery.SECOND
  }

  /** These are the hits, in order, each with the only time it may have been taken at, if there is one. */
  ghost predicate AreTimed(numbered: seq<NumberedHit>, hits: seq<Hit>, ppsOffset: int, lastPollStart: nat,
                           thisPollEnd: nat) {
    && |numbered| == |hits|
    && (forall i | 0 <= i < |hits| :: numbered[i].hit == hits[i])
    && forall i, time: nat |
         0 <= i < |hits| && PossibleTime(time, hits[i].ts0, ppsOffset, lastPollStart, thisPollEnd) ::
         numbered[i].timestamp == time
  }

  lemma {:induction false} TimesAreTrue(a: Account, hits: seq<Hit>, losses: seq<Loss>, ppsOffset: int,
                                        lastPollStart: nat, thisPollEnd: nat)
    requires |losses| == |hits|
    ensures AreTimed(a.NumberHits(Timed(hits, ppsOffset, lastPollStart, thisPollEnd), losses), hits, ppsOffset,
                     lastPollStart, thisPollEnd)
  {
    var timed := Timed(hits, ppsOffset, lastPollStart, thisPollEnd);
    NumberingKeepsHits(a, timed, losses);
    forall i, time: nat | 0 <= i < |hits| && PossibleTime(time, hits[i].ts0, ppsOffset, lastPollStart, thisPollEnd)
      ensures timed[i].timestamp == time
    {
      TimeRecovery.HitTimeIsRecovered(hits[i].ts0, ppsOffset, lastPollStart, thisPollEnd, time);
    }
  }

  lemma {:induction false} NumberingKeepsHits(a: Account, timed: seq<TimedHit>, losses: seq<Loss>)
    requires |losses| == |timed|
    ensures forall i | 0 <= i < |timed| ::
              && a.NumberHits(timed, losses)[i].hit == timed[i].hit
              && a.NumberHits(timed, losses)[i].timestamp == timed[i].timestamp
    decreases |timed|
  {
    if timed != [] {
      NumberingKeepsHits(a, timed[..|timed| - 1], losses[..|timed| - 1]);
    }
  }

  lemma {:induction false} NextAccount(a: Account, hits: seq<TimedHit>, losses: seq<Loss>, n: nat)
    requires n < |hits| == |losses|
    ensures Charged(a.lastLostfpga, losses[..n + 1])
            == Charged(a.lastLostfpga, losses[..n]) + a.After(hits[..n], losses[..n]).lastLostfpga
    ensures a.After(hits[..n + 1], losses[..n + 1]) == a.After(hits[..n], losses[..n]).Next(hits[n], losses[n])
    ensures a.NumberHits(hits[..n + 1], losses[..n + 1])
            == a.NumberHits(hits[..n], losses[..n]) + [a.After(hits[..n], losses[..n]).Numbered(hits[n], losses[n])]
  {
    assert hits[..n + 1][..n] == hits[..n] && losses[..n + 1][..n] == losses[..n];
    ChargedLast(a.lastLostfpga, losses[..n], losses[n]);
    assert losses[..n + 1] == losses[..n] + [losses[n]];
  }

  /** The sum of the carries, kept in 32 bits. */
  lemma {:induction false} NextTotal(a: Account, hits: seq<TimedHit>, losses: seq<Loss>, n: nat, total: nat)
    requires n < |hits| == |losses| && total == Charged(a.lastLostfpga, losses[..n]) % 0x1_0000_0000
    ensures (total + a.After(hits[..n], losses[..n]).lastLostfpga) % 0x1_0000_0000
            == Charged(a.lastLostfpga, losses[..n + 1]) % 0x1_0000_0000
  {
    NextAccount(a, hits, losses, n);
    AddInside(Charged(a.lastLostfpga, losses[..n]), a.After(hits[..n], losses[..n]).lastLostfpga);
  }

  lemma {:induction false} ChargedLast(last: nat, losses: seq<Loss>, loss: Loss)
    ensures Charged(last, losses + [loss])
            == Charged(last, losses) + if losses == [] then last else losses[|losses| - 1].carry
    decreases |losses|
  {
    if losses == [] {
      assert ([] + [loss])[1..] == [];
    } else {
      assert (losses + [loss])[1..] == losses[1..] + [loss];
      ChargedLast(losses[0].carry, losses[1..], loss);
    }
  }
}
