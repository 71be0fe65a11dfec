/** The gate filter: triggers are the set bits of high-level trigger words, and an event passes or not by them. */
module GateFilter {
  import opened Bits
  import opened Sequences

  const HLT_WORD: nat := 2
  const HLT_MASK: nat := 0x1FFF_FFFF_FFFF_FFFF
  const RESERVED_TRIGGERS: nat := 20

  /** Bitwise and, bit by bit. */
  function And(a: nat, b: nat): nat {
    if a == 0 then 0 else 2 * And(a / 2, b / 2) + if a % 2 == 1 && b % 2 == 1 then 1 else 0
  }

  function Or(a: nat, b: nat): nat
    decreases a + b
  {
    if a == 0 then b else 2 * Or(a / 2, b / 2) + if a % 2 == 1 || b % 2 == 1 then 1 else 0
  }

  lemma {:induction false} ZeroHasNoBits(k: nat)
    ensures !BitAt(0, k)
  {
    if k > 0 {
      ZeroHasNoBits(k - 1);
    }
  }

  lemma {:induction false} BitOfAnd(a: nat, b: nat, k: nat)
    ensures BitAt(And(a, b), k) == (BitAt(a, k) && BitAt(b, k))
  {
    if a == 0 {
      ZeroHasNoBits(k);
    } else {
      DoubledBit(And(a / 2, b / 2), a % 2 == 1 && b % 2 == 1, k);
      if k > 0 {
        BitOfAnd(a / 2, b / 2, k - 1);
      }
    }
  }

  lemma {:induction false} BitOfOr(a: nat, b: nat, k: nat)
    ensures BitAt(Or(a, b), k) == (BitAt(a, k) || BitAt(b, k))
  {
    if a == 0 {
      ZeroHasNoBits(k);
    } else {
      DoubledBit(Or(a / 2, b / 2), a % 2 == 1 || b % 2 == 1, k);
      if k > 0 {
        BitOfOr(a / 2, b / 2, k - 1);
      }
    }
  }

  /** The number of the lowest set bit. */
  function LowestBit(m: nat): (k: nat)
    requires m > 0
  {
    if m % 2 == 1 then 0 else 1 + LowestBit(m / 2)
  }

  lemma {:induction false} LowestBitIsLowest(m: nat, k: nat)
    requires m > 0
    ensures BitAt(m, LowestBit(m))
    ensures BitAt(m, k) ==> LowestBit(m) <= k
  {
    if m % 2 == 0 {
      LowestBitIsLowest(m / 2, if k > 0 then k - 1 else 0);
    }
  }

  /** m & (m - 1) clears the lowest set bit and no other. */
  lemma {:induction false} ClearsLowestBit(m: nat, k: nat)
    requires m > 0
    ensures And(m, m - 1) < m
    ensures BitAt(And(m, m - 1), k) == (BitAt(m, k) && k != LowestBit(m))
  {
    if m % 2 == 1 {
      assert (m - 1) / 2 == m / 2;
      AndSelf(m / 2);
      DoubledBit(And(m / 2, m / 2), false, k);
    } else {
      assert (m - 1) / 2 == m / 2 - 1;
      DoubledBit(And(m / 2, m / 2 - 1), false, k);
      ClearsLowestBit(m / 2, if k > 0 then k - 1 else 0);
    }
  }

  lemma {:induction false} AndSelf(a: nat)
    ensures And(a, a) == a
  {
    if a > 0 {
      AndSelf(a / 2);
    }
  }

  /** The triggers of a mask, in order: its set bits below a limit. */
  function SetBits(mask: nat, limit: nat): seq<nat> {
    if limit == 0 then []
    else SetBits(mask, limit - 1) + if BitAt(mask, limit - 1) then [limit - 1] else []
  }

  lemma {:induction false} SetBitsAre(mask: nat, limit: nat)
    ensures forall k :: k in SetBits(mask, limit) <==> 0 <= k < limit && BitAt(mask, k)
    ensures forall i, j | 0 <= i < j < |SetBits(mask, limit)| :: SetBits(mask, limit)[i] < SetBits(mask, limit)[j]
  {
    if limit > 0 {
      SetBitsAre(mask, limit - 1);
      var before := SetBits(mask, limit - 1);
      forall i | 0 <= i < |before|
        ensures before[i] < limit - 1
      {
        assert before[i] in before;
      }
    }
  }

  /** Bits that are not set add no triggers. */
  lemma {:induction false} SetBitsSkip(mask: nat, low: nat, high: nat)
    requires low <= high && forall k | low <= k < high :: !BitAt(mask, k)
    ensures SetBits(mask, high) == SetBits(mask, low)
  {
    if low < high {
      SetBitsSkip(mask, low, high - 1);
    }
  }

  function Min(a: nat, b: nat): nat {
    if a < b then a else b
  }

  /** What is left of a mask when the bits below a limit are cleared. */
  ghost predicate Remaining(rest: nat, mask: nat, limit: nat) {
    forall k: nat :: BitAt(rest, k) <==> BitAt(mask, k) && k >= limit
  }

  lemma {:induction false} NothingRemains(mask: nat, limit: nat)
    requires Remaining(0, mask, limit)
    ensures forall k: nat | k >= limit :: !BitAt(mask, k)
  {
    forall k: nat | k >= limit
      ensures !BitAt(mask, k)
    {
      ZeroHasNoBits(k);
    }
  }

  /** The scan of one mask by its lowest set bits, which skips triggers reserved for other purposes. */
  method ScanMask(mask: nat) returns (triggers: seq<nat>)
    ensures triggers == SetBits(mask, RESERVED_TRIGGERS)
  {
    var rest := mask;
    triggers := [];
    ghost var seen: nat := 0;
    while rest != 0
      invariant Remaining(rest, mask, seen)
      invariant triggers == SetBits(mask, Min(seen, RESERVED_TRIGGERS))
      decreases rest
    {
      var trigger := LowestBit(rest);
      ScanStep(mask, rest, seen, trigger);
      NextTrigger(mask, seen, trigger);
      rest := And(rest, rest - 1);
      seen := trigger + 1;
      if trigger >= RESERVED_TRIGGERS {
        continue;
      }
      triggers := triggers + [trigger];
    }
    NothingRemains(mask, seen);
    SetBitsSkip(mask, Min(seen, RESERVED_TRIGGERS), RESERVED_TRIGGERS);
  }

  lemma {:induction false} ScanStep(mask: nat, rest: nat, seen: nat, next: nat)
    requires rest > 0 && Remaining(rest, mask, seen)
    requires next == LowestBit(rest)
    ensures And(rest, rest - 1) < rest && next >= seen && BitAt(mask, next)
    ensures Remaining(And(rest, rest - 1), mask, next + 1)
    ensures forall k | seen <= k < next :: !BitAt(mask, k)
  {
    forall k: nat
      ensures BitAt(And(rest, rest - 1), k) <==> BitAt(mask, k) && k >= next + 1
      ensures BitAt(rest, k) ==> next <= k
    {
      ClearsLowestBit(rest, k);
      LowestBitIsLowest(rest, k);
    }
    ClearsLowestBit(rest, 0);
    LowestBitIsLowest(rest, 0);
  }

  /** The next set bit is the next trigger, unless it is reserved. */
  lemma {:induction false} NextTrigger(mask: nat, seen: nat, next: nat)
    requires seen <= next && BitAt(mask, next) && forall k | seen <= k < next :: !BitAt(mask, k)
    ensures next < RESERVED_TRIGGERS ==>
              SetBits(mask, Min(next + 1, RESERVED_TRIGGERS)) == SetBits(mask, Min(seen, RESERVED_TRIGGERS)) + [next]
    ensures next >= RESERVED_TRIGGERS ==>
              SetBits(mask, Min(next + 1, RESERVED_TRIGGERS)) == SetBits(mask, Min(seen, RESERVED_TRIGGERS))
  {
    SetBitsSkip(mask, Min(seen, RESERVED_TRIGGERS), Min(next, RESERVED_TRIGGERS));
  }

  datatype CtbWord = CtbWord(wordType: nat, triggerWord: nat)

  function HltMask(w: CtbWord): nat {
    And(w.triggerWord, HLT_MASK)
  }

  lemma {:induction false} BitOfPow2(n: nat, k: nat)
    ensures BitAt(Pow2(n), k) <==> k == n
  {
    ZeroHasNoBits(k);
    if n == 0 {
      DoubledBit(0, true, k);
    } else {
      DoubledBit(Pow2(n - 1), false, k);
      if k > 0 {
        ZeroHasNoBits(k - 1);
        BitOfPow2(n - 1, k - 1);
      }
    }
    if n == 0 && k > 0 {
      ZeroHasNoBits(k - 1);
    }
  }

  lemma {:induction false} BitOfOnes(n: nat, k: nat)
    ensures BitAt(Pow2(n) - 1, k) <==> k < n
  {
    if n == 0 {
      ZeroHasNoBits(k);
    } else {
      assert Pow2(n) - 1 == 2 * (Pow2(n - 1) - 1) + 1;
      DoubledBit(Pow2(n - 1) - 1, true, k);
      if k > 0 {
        BitOfOnes(n - 1, k - 1);
      }
    }
  }

  lemma {:induction false} Pow2Of20()
    ensures Pow2(20) == 0x10_0000
  {
    assert Pow2(5) == 0x20;
    Pow2Add(5, 5);
    assert Pow2(10) == 0x400;
    Pow2Add(10, 10);
  }

  lemma {:induction false} MaskIsOnes()
    ensures HLT_MASK == Pow2(61) - 1
  {
    Pow2Of20();
    Pow2Add(20, 20);
    assert Pow2(40) == 0x100_0000_0000;
    Pow2Add(40, 20);
    assert Pow2(60) == 0x1000_0000_0000_0000;
    assert Pow2(61) == 2 * Pow2(60);
  }

  /** The mask keeps the bits below 61. */
  lemma {:induction false} HltMaskBits(w: CtbWord, k: nat)
    ensures BitAt(HltMask(w), k) <==> BitAt(w.triggerWord, k) && k < 61
  {
    MaskIsOnes();
    BitOfOnes(61, k);
    BitOfAnd(w.triggerWord, HLT_MASK, k);
  }

  /** The triggers of a fragment's words, word by word. */
  function Hlts(words: seq<CtbWord>): seq<nat> {
    if words == [] then []
    else
      var last := words[|words| - 1];
      Hlts(words[..|words| - 1]) + HltsOf(last)
  }

  function HltsOf(w: CtbWord): seq<nat> {
    if w.wordType == HLT_WORD then SetBits(HltMask(w), RESERVED_TRIGGERS) else []
  }

  method GetHlt(words: seq<CtbWord>) returns (triggers: seq<nat>)
    ensures triggers == Hlts(words)
  {
    triggers := [];
    for i := 0 to |words|
      invariant triggers == Hlts(words[..i])
    {
      assert words[..i + 1][..i] == words[..i];
      if words[i].wordType != HLT_WORD {
        continue;
      }
      var found := ScanMask(And(words[i].triggerWord, HLT_MASK));
      triggers := triggers + found;
    }
    assert words[..|words|] == words;
  }

  /** All words of a container's fragments. */
  function Flat(fragments: seq<seq<CtbWord>>): seq<CtbWord> {
    if fragments == [] then [] else Flat(fragments[..|fragments| - 1]) + fragments[|fragments| - 1]
  }

  lemma {:induction false} HltsStep(words: seq<CtbWord>, w: CtbWord)
    ensures Hlts(words + [w]) == Hlts(words) + HltsOf(w)
  {
    assert (words + [w])[..|words|] == words;
  }

  lemma {:induction false} HltsJoin(a: seq<CtbWord>, b: seq<CtbWord>)
    ensures Hlts(a + b) == Hlts(a) + Hlts(b)
    decreases |b|
  {
    if b == [] {
      assert a + b == a;
    } else {
      var first, last := b[..|b| - 1], b[|b| - 1];
      var before, middle, added := Hlts(a), Hlts(first), HltsOf(last);
      HltsJoin(a, first);
      assert b == first + [last];
      HltsStep(first, last);
      assert Hlts(a + b) == before + middle + added by {
        HltsStep(a + first, last);
        Associate(a, first, [last]);
      }
      Associate(before, middle, added);
    }
  }

  method GetAllHlts(fragments: seq<seq<CtbWord>>) returns (triggers: seq<nat>)
    ensures triggers == Hlts(Flat(fragments))
  {
    triggers := [];
    for f := 0 to |fragments|
      invariant triggers == Hlts(Flat(fragments[..f]))
    {
      var found := GetHlt(fragments[f]);
      assert fragments[..f + 1][..f] == fragments[..f];
      HltsJoin(Flat(fragments[..f]), fragments[f]);
      triggers := triggers + found;
    }
    assert fragments[..|fragments|] == fragments;
  }

  /** An unsigned 64-bit number stored as a signed 32-bit one. */
  function ToInt(x: nat): int {
    var low := x % 0x1_0000_0000;
    if low < 0x8000_0000 then low else low - 0x1_0000_0000
  }

  predicate Excluded(t: nat, excluded: seq<nat>) {
    exists i :: 0 <= i < |excluded| && ToInt(excluded[i]) == ToInt(t)
  }

  predicate Wanted(t: nat, types: seq<int>) {
    exists i :: 0 <= i < |types| && (types[i] == ToInt(t) || types[i] == -1)
  }

  /** The decision on a list of triggers. */
  predicate Passes(triggers: seq<nat>, types: seq<int>, excluded: seq<nat>) {
    && (forall t | t in triggers :: !Excluded(t, excluded))
    && exists t :: t in triggers && Wanted(t, types)
  }

  method ApplyGateFilter(triggers: seq<nat>, types: seq<int>, excluded: seq<nat>) returns (passes: bool)
    ensures passes <==> Passes(triggers, types, excluded)
  {
    if |triggers| == 0 {
      return false;
    }
    passes := false;
    for i := 0 to |triggers|
      invariant forall t | t in triggers[..i] :: !Excluded(t, excluded)
      invariant passes <==> exists t :: t in triggers[..i] && Wanted(t, types)
    {
      var trigger := ToInt(triggers[i]);
      assert triggers[..i + 1] == triggers[..i] + [triggers[i]];
      if |excluded| > 0 {
        for j := 0 to |excluded|
          invariant forall k | 0 <= k < j :: ToInt(excluded[k]) != trigger
        {
          if trigger == ToInt(excluded[j]) {
            assert triggers[i] in triggers && Excluded(triggers[i], excluded);
            return false;
          }
        }
      }
      ghost var before := passes;
      for j := 0 to |types|
        invariant passes <==> before || exists k :: 0 <= k < j && (types[k] == trigger || types[k] == -1)
      {
        if trigger == types[j] || types[j] == -1 {
          passes := true;
          if |excluded| == 0 {
            assert Wanted(triggers[i], types);
            break;
          }
        }
      }
      assert passes <==> before || Wanted(triggers[i], types);
    }
    assert triggers[..|triggers|] == triggers;
  }

  /** The or of all high-level trigger masks. */
  function AllMasks(words: seq<CtbWord>): nat {
    if words == [] then 0
    else
      var last := words[|words| - 1];
      Or(AllMasks(words[..|words| - 1]), if last.wordType == HLT_WORD then HltMask(last) else 0)
  }

  lemma {:induction false} HltsAreMaskBits(words: seq<CtbWord>, t: nat)
    ensures t in Hlts(words) <==> t < RESERVED_TRIGGERS && BitAt(AllMasks(words), t)
    decreases |words|
  {
    ZeroHasNoBits(t);
    if words != [] {
      var n := |words| - 1;
      var mask := if words[n].wordType == HLT_WORD then HltMask(words[n]) else 0;
      HltsAreMaskBits(words[..n], t);
      SetBitsAre(mask, RESERVED_TRIGGERS);
      BitOfOr(AllMasks(words[..n]), mask, t);
    }
  }

  /** Bit k of a mask is a trigger that the settings exclude, or one that they ask for. */
  predicate BitExcluded(mask: nat, k: nat, excluded: seq<nat>) {
    BitAt(mask, k) && exists i :: 0 <= i < |excluded| && ToInt(excluded[i]) == k
  }

  predicate BitWanted(mask: nat, k: nat, types: seq<int>) {
    BitAt(mask, k) && (k in types || -1 in types)
  }

  predicate MaskPasses(mask: nat, types: seq<int>, excluded: seq<nat>) {
    && (forall k | 0 <= k < RESERVED_TRIGGERS :: !BitExcluded(mask, k, excluded))
    && exists k :: 0 <= k < RESERVED_TRIGGERS && BitWanted(mask, k, types)
  }

  /**
   * Main result: an event passes exactly when, in the or of its masks, no bit below 20 is excluded and
   * some bit below 20 is wanted, every one being wanted when -1 is.
   */
  lemma {:induction false} FilterIsMaskFormula(words: seq<CtbWord>, types: seq<int>, excluded: seq<nat>)
    ensures Passes(Hlts(words), types, excluded) <==> MaskPasses(AllMasks(words), types, excluded)
  {
    var mask, triggers := AllMasks(words), Hlts(words);
    forall t: nat
      ensures t in triggers && Excluded(t, excluded) <==> t < RESERVED_TRIGGERS && BitExcluded(mask, t, excluded)
      ensures t in triggers && Wanted(t, types) <==> t < RESERVED_TRIGGERS && BitWanted(mask, t, types)
    {
      TriggerIsBit(words, t, types, excluded);
    }
    if t :| t in triggers && Wanted(t, types) {
      assert BitWanted(mask, t, types);
    }
  }

  lemma {:induction false} TriggerIsBit(words: seq<CtbWord>, t: nat, types: seq<int>, excluded: seq<nat>)
    ensures t in Hlts(words) && Excluded(t, excluded) <==>
            t < RESERVED_TRIGGERS && BitExcluded(AllMasks(words), t, excluded)
    ensures t in Hlts(words) && Wanted(t, types) <==> t < RESERVED_TRIGGERS && BitWanted(AllMasks(words), t, types)
  {
    HltsAreMaskBits(words, t);
    if t < RESERVED_TRIGGERS {
      assert ToInt(t) == t;
      assert Wanted(t, types) <==> t in types || -1 in types;
    }
  }

  /** The settings as they read: an event passes when no trigger of it is listed and some is wanted. */
  predicate PassesAsListed(mask: nat, types: seq<int>, excluded: seq<nat>) {
    && (forall k | 0 <= k < RESERVED_TRIGGERS && BitAt(mask, k) :: k !in excluded)
    && exists k :: 0 <= k < RESERVED_TRIGGERS && BitWanted(mask, k, types)
  }

  function Truncated(e: nat): nat {
    e % 0x1_0000_0000
  }

  /** Cut to 32 bits, every exclusion is a trigger that is listed anyway, or none at all. */
  predicate TruncationIsHarmless(excluded: seq<nat>) {
    forall e | e in excluded && Truncated(e) < RESERVED_TRIGGERS :: Truncated(e) in excluded
  }

  lemma {:induction false} ExcludedIs(t: nat, excluded: seq<nat>)
    requires t < RESERVED_TRIGGERS
    ensures Excluded(t, excluded) <==> exists e :: e in excluded && Truncated(e) == t
    ensures t in excluded ==> Excluded(t, excluded)
  {
    if Excluded(t, excluded) {
      var i :| 0 <= i < |excluded| && ToInt(excluded[i]) == ToInt(t);
      assert excluded[i] in excluded && Truncated(excluded[i]) == t;
    }
    if e :| e in excluded && Truncated(e) == t {
      var i :| 0 <= i < |excluded| && excluded[i] == e;
      assert ToInt(excluded[i]) == ToInt(t);
    }
    if t in excluded {
      var i :| 0 <= i < |excluded| && excluded[i] == t;
      assert ToInt(excluded[i]) == ToInt(t);
    }
  }

  /** Exclusions are compared as 32-bit numbers: just the listed triggers are excluded exactly when that is harmless. */
  lemma {:induction false} ExclusionsAreTruncated(excluded: seq<nat>)
    ensures (forall t | 0 <= t < RESERVED_TRIGGERS :: Excluded(t, excluded) <==> t in excluded)
            <==> TruncationIsHarmless(excluded)
  {
    forall t | 0 <= t < RESERVED_TRIGGERS
      ensures Excluded(t, excluded) <==> exists e :: e in excluded && Truncated(e) == t
      ensures t in excluded ==> Excluded(t, excluded)
    {
      ExcludedIs(t, excluded);
    }
    if forall t | 0 <= t < RESERVED_TRIGGERS :: Excluded(t, excluded) <==> t in excluded {
      forall e | e in excluded && Truncated(e) < RESERVED_TRIGGERS
        ensures Truncated(e) in excluded
      {
        assert Excluded(Truncated(e), excluded);
      }
    }
  }

  predicate FiltersAsListed(words: seq<CtbWord>, types: seq<int>, excluded: seq<nat>) {
    Passes(Hlts(words), types, excluded) <==> PassesAsListed(AllMasks(words), types, excluded)
  }

  /** No event can pass: everything wanted is listed as excluded. */
  predicate NothingPasses(types: seq<int>, excluded: seq<nat>) {
    forall k: nat | k < RESERVED_TRIGGERS && (k in types || -1 in types) :: k in excluded
  }

  /**
   * Every event is filtered as the settings read exactly when cutting the exclusions to 32 bits is
   * harmless, or no event can pass anyway.
   */
  lemma {:induction false} FilterIsAsListed(types: seq<int>, excluded: seq<nat>)
    ensures (forall words :: FiltersAsListed(words, types, excluded)) <==>
            TruncationIsHarmless(excluded) || NothingPasses(types, excluded)
  {
    if TruncationIsHarmless(excluded) || NothingPasses(types, excluded) {
      forall words
        ensures FiltersAsListed(words, types, excluded)
      {
        if TruncationIsHarmless(excluded) {
          HarmlessFilter(words, types, excluded);
        } else {
          NothingFilter(words, types, excluded);
        }
      }
    } else {
      var e :| e in excluded && Truncated(e) < RESERVED_TRIGGERS && Truncated(e) !in excluded;
      var w: nat :| w < RESERVED_TRIGGERS && (w in types || -1 in types) && w !in excluded;
      TwoTriggersFail(e, w, types, excluded);
    }
  }

  lemma {:induction false} HarmlessFilter(words: seq<CtbWord>, types: seq<int>, excluded: seq<nat>)
    requires TruncationIsHarmless(excluded)
    ensures FiltersAsListed(words, types, excluded)
  {
    var mask := AllMasks(words);
    FilterIsMaskFormula(words, types, excluded);
    forall k | 0 <= k < RESERVED_TRIGGERS && BitAt(mask, k)
      ensures k in excluded <==> BitExcluded(mask, k, excluded)
    {
      BitExcludedIs(mask, k, excluded);
      ExcludedIs(k, excluded);
    }
  }

  lemma {:induction false} BitExcludedIs(mask: nat, k: nat, excluded: seq<nat>)
    requires k < RESERVED_TRIGGERS && BitAt(mask, k)
    ensures BitExcluded(mask, k, excluded) <==> Excluded(k, excluded)
  {
    assert ToInt(k) == k;
  }

  lemma {:induction false} NothingFilter(words: seq<CtbWord>, types: seq<int>, excluded: seq<nat>)
    requires NothingPasses(types, excluded)
    ensures FiltersAsListed(words, types, excluded)
  {
    var mask := AllMasks(words);
    FilterIsMaskFormula(words, types, excluded);
    if k: nat :| k < RESERVED_TRIGGERS && BitWanted(mask, k, types) {
      BitExcludedIs(mask, k, excluded);
      ExcludedIs(k, excluded);
    }
  }

  function OneTrigger(t: nat): CtbWord {
    CtbWord(HLT_WORD, Pow2(t))
  }

  lemma {:induction false} MaskOfTwo(t: nat, w: nat, k: nat)
    requires t < RESERVED_TRIGGERS && w < RESERVED_TRIGGERS
    ensures BitAt(AllMasks([OneTrigger(t), OneTrigger(w)]), k) <==> k == t || k == w
  {
    var one, two := [OneTrigger(t)], [OneTrigger(t), OneTrigger(w)];
    assert one[..0] == [] && two[..1] == one;
    assert AllMasks(one) == Or(0, HltMask(OneTrigger(t)));
    assert AllMasks(two) == Or(AllMasks(one), HltMask(OneTrigger(w)));
    HltMaskBits(OneTrigger(t), k);
    HltMaskBits(OneTrigger(w), k);
    BitOfPow2(t, k);
    BitOfPow2(w, k);
    ZeroHasNoBits(k);
    BitOfOr(0, HltMask(OneTrigger(t)), k);
    BitOfOr(AllMasks(one), HltMask(OneTrigger(w)), k);
  }

  /** An event of the trigger a long exclusion is cut to, and of one that is wanted. */
  lemma {:induction false} TwoTriggersFail(e: nat, w: nat, types: seq<int>, excluded: seq<nat>)
    requires e in excluded && Truncated(e) < RESERVED_TRIGGERS && Truncated(e) !in excluded
    requires w < RESERVED_TRIGGERS && (w in types || -1 in types) && w !in excluded
    ensures !FiltersAsListed([OneTrigger(Truncated(e)), OneTrigger(w)], types, excluded)
  {
    var t := Truncated(e);
    var words := [OneTrigger(t), OneTrigger(w)];
    forall k: nat
      ensures BitAt(AllMasks(words), k) <==> k == t || k == w
    {
      MaskOfTwo(t, w, k);
    }
    assert BitWanted(AllMasks(words), w, types);
    ExcludedIs(t, excluded);
    HltsAreMaskBits(words, t);
    assert t in Hlts(words) && Excluded(t, excluded);
  }

  /** filter: only the first container of an event decides; without one the event fails. */
  method Filter(containers: seq<seq<seq<CtbWord>>>, types: seq<int>, excluded: seq<nat>) returns (passes: bool)
    ensures passes <==> containers != [] && Passes(Hlts(Flat(containers[0])), types, excluded)
  {
    passes := false;
    if containers != [] {
      var hlts := GetAllHlts(containers[0]);
      passes := ApplyGateFilter(hlts, types, excluded);
    }
  }
}
