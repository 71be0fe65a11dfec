/** The front-end board driver's decoding: Gray-coded times, hits of fixed size, and the hits of a packet. */
module FebDriver {
  import opened Bits

  const WORD_RANGE: nat := 0x1_0000_0000
  const TIME_RANGE: nat := 0x4000_0000
  const PACKET_HEADER_BYTES: int := 18
  const MAXPAYLOAD: nat := 1500 - 14 - 4
  const PHASE_CORRECTION: nat := 5
  const CHANNELS: nat := 32

  /** The Gray code of a number, n xor n/2 (GrayIsXor). */
  function Gray(n: nat): nat {
    if n == 0 then 0 else 2 * Gray(n / 2) + if n % 2 != n / 2 % 2 then 1 else 0
  }

  function Ungray(g: nat): nat {
    if g == 0 then 0 else 2 * Ungray(g / 2) + if g % 2 != Ungray(g / 2) % 2 then 1 else 0
  }

  lemma {:induction false} GrayIsXor(n: nat, k: nat)
    ensures BitAt(Gray(n), k) == (BitAt(n, k) != BitAt(n / 2, k))
  {
    if k > 0 {
      GrayIsXor(n / 2, k - 1);
      assert Gray(n) / 2 == Gray(n / 2);
    }
  }

  /** Decoding inverts encoding, for numbers of any width. */
  lemma {:induction false} UngrayGray(n: nat)
    ensures Ungray(Gray(n)) == n
  {
    if n > 0 {
      UngrayGray(n / 2);
      assert Gray(n) / 2 == Gray(n / 2);
    }
  }

  lemma {:induction false} GrayUngray(g: nat)
    ensures Gray(Ungray(g)) == g
  {
    if g > 0 {
      GrayUngray(g / 2);
      assert Ungray(g) / 2 == Ungray(g / 2);
    }
  }

  /** The bit of its Gray code in which a number differs from the next one. */
  function ChangedBit(n: nat): nat {
    if n % 2 == 0 then 0 else 1 + ChangedBit(n / 2)
  }

  lemma {:induction false} GrayOfHalf(n: nat)
    ensures Gray(n) == 2 * Gray(n / 2) + if n % 2 != n / 2 % 2 then 1 else 0
  {
  }

  lemma {:induction false} BitOfGray(n: nat, j: nat)
    ensures j == 0 ==> BitAt(Gray(n), j) == (n % 2 != n / 2 % 2)
    ensures j > 0 ==> BitAt(Gray(n), j) == BitAt(Gray(n / 2), j - 1)
  {
    GrayOfHalf(n);
    DoubledBit(Gray(n / 2), n % 2 != n / 2 % 2, j);
  }

  /** The code is good for latching a running counter: one step changes exactly one bit. */
  lemma {:induction false} OneBitChanges(n: nat, j: nat)
    ensures BitAt(Gray(n), j) != BitAt(Gray(n + 1), j) <==> j == ChangedBit(n)
  {
    BitOfGray(n, j);
    BitOfGray(n + 1, j);
    var half := n / 2;
    if n % 2 == 0 {
      assert n == 2 * half && (n + 1) / 2 == half;
    } else {
      assert n == 2 * half + 1 && (n + 1) / 2 == half + 1;
      if j > 0 {
        OneBitChanges(half, j - 1);
      }
    }
  }

  lemma {:induction false} UngrayFits(g: nat, width: nat)
    ensures Ungray(g) < Pow2(width) <==> g < Pow2(width)
  {
    if width > 0 {
      UngrayFits(g / 2, width - 1);
      assert Ungray(g) / 2 == Ungray(g / 2);
    } else {
      GrayUngray(g);
    }
  }

  /** Decoding on bits, most significant first: every bit is the parity of the code bits down to it. */
  function RunningXor(bits: seq<bool>): (parities: seq<bool>)
    ensures |parities| == |bits|
  {
    if bits == [] then []
    else
      var before := RunningXor(bits[..|bits| - 1]);
      before + [bits[|bits| - 1] != (before != [] && before[|before| - 1])]
  }

  lemma {:induction false} RunningXorDecodes(g: nat, width: nat)
    requires g < Pow2(width)
    ensures ToNat(RunningXor(FromNat(g, width))) == Ungray(g)
  {
    if width > 0 {
      var higher := FromNat(g / 2, width - 1);
      RunningXorDecodes(g / 2, width - 1);
      RunningXorNext(higher, g % 2 == 1);
      UngrayNext(g);
    }
  }

  lemma UngrayNext(g: nat)
    ensures Ungray(g) == 2 * Ungray(g / 2) + if (g % 2 == 1) != (Ungray(g / 2) % 2 == 1) then 1 else 0
  {
  }

  lemma {:induction false} RunningXorNext(bits: seq<bool>, bit: bool)
    ensures ToNat(RunningXor(bits + [bit])) ==
              var h := ToNat(RunningXor(bits)); 2 * h + if bit != (h % 2 == 1) then 1 else 0
  {
    var before := RunningXor(bits);
    assert (bits + [bit])[..|bits|] == bits;
    LastBit(before, bit != (before != [] && before[|before| - 1]));
  }

  lemma {:induction false} LastBit(bits: seq<bool>, bit: bool)
    ensures ToNat(bits + [bit]) == 2 * ToNat(bits) + if bit then 1 else 0
    ensures ToNat(bits) % 2 == 1 <==> bits != [] && bits[|bits| - 1]
  {
    assert (bits + [bit])[..|bits|] == bits;
    if bits != [] {
      Parity(ToNat(bits[..|bits| - 1]), bits[|bits| - 1]);
    }
  }

  lemma Parity(h: nat, bit: bool)
    ensures (2 * h + if bit then 1 else 0) % 2 == 1 <==> bit
  {
  }

  lemma PowersOfTwo()
    ensures Pow2(28) == 0x1000_0000 && Pow2(31) == 0x8000_0000 && Pow2(32) == WORD_RANGE
  {
    assert Pow2(4) == 16 && Pow2(8) == 256;
    Pow2Add(8, 8);
    Pow2Add(16, 8);
    Pow2Add(24, 4);
    Pow2Add(28, 4);
    assert Pow2(32) == 2 * Pow2(31);
  }

  lemma {:induction false} TopBit(v: nat, width: nat)
    requires width > 0 && v < Pow2(width)
    ensures FromNat(v, width)[0] == (v >= Pow2(width - 1))
  {
    if width > 1 {
      TopBit(v / 2, width - 1);
    }
  }

  lemma {:induction false} TailBits(v: nat, width: nat)
    ensures FromNat(v, width + 1)[1..] == FromNat(v, width)
  {
    if width > 0 {
      TailBits(v / 2, width - 1);
    }
  }

  lemma {:induction false} LowBits(v: nat, width: nat)
    ensures FromNat(v % Pow2(width), width) == FromNat(v, width)
  {
    if width > 0 {
      var low := v % Pow2(width);
      HalfMod(v, Pow2(width - 1));
      assert low / 2 == v / 2 % Pow2(width - 1) && low % 2 == v % 2;
      LowBits(v / 2, width - 1);
    }
  }

  lemma {:induction false} DoubledBits(v: nat, width: nat)
    requires width > 0
    ensures FromNat(2 * v, width) == FromNat(v, width - 1) + [false]
  {
    assert 2 * v / 2 == v && 2 * v % 2 == 0;
  }

  /** Shifting left in a fixed width drops the top bit. */
  lemma {:induction false} ShiftLeft(v: nat, width: nat)
    requires width > 0
    ensures FromNat(2 * v % Pow2(width), width) == FromNat(v, width)[1..] + [false]
  {
    LowBits(2 * v, width);
    TailBits(v, width - 1);
    DoubledBits(v, width);
  }

  lemma ShiftOut(v: nat, n: nat)
    requires v < WORD_RANGE && n < 32
    ensures FromNat(v, 32)[..n + 1] == [v >= 0x8000_0000] + FromNat(2 * v % WORD_RANGE, 32)[..n]
  {
    PowersOfTwo();
    TopBit(v, 32);
    ShiftLeft(v, 32);
    FirstOut(FromNat(v, 32), FromNat(2 * v % WORD_RANGE, 32), n);
  }

  lemma FirstOut(bits: seq<bool>, shifted: seq<bool>, n: nat)
    requires n < |bits| && shifted == bits[1..] + [false]
    ensures bits[..n + 1] == [bits[0]] + shifted[..n]
  {
  }

  /** With bits i and on of a word at the top, the next one is the top bit, and shifting brings up the rest. */
  lemma NextBit(bits: seq<bool>, i: nat, v: nat)
    requires i < |bits| == 32 && v < WORD_RANGE && FromNat(v, 32)[..32 - i] == bits[i..]
    ensures bits[i] == (v >= 0x8000_0000) && FromNat(2 * v % WORD_RANGE, 32)[..31 - i] == bits[i + 1..]
  {
    ShiftOut(v, 31 - i);
    assert bits[i..][0] == bits[i] && bits[i..][1..] == bits[i + 1..];
  }

  /** The bits of a word, most significant first. */
  method ReadBits(n: nat) returns (a: array<bool>)
    requires n < WORD_RANGE
    ensures fresh(a) && a[..] == FromNat(n, 32)
  {
    PowersOfTwo();
    a := new bool[32];
    var rest: nat := n;
    ghost var bits := FromNat(n, 32);
    for i := 0 to 32
      invariant rest < WORD_RANGE && FromNat(rest, 32)[..32 - i] == bits[i..]
      invariant a[..i] == bits[..i]
    {
      NextBit(bits, i, rest);
      a[i] := rest >= 0x8000_0000;
      assert a[..i + 1] == a[..i] + [a[i]];
      rest := 2 * rest % WORD_RANGE;
    }
    assert a[..] == a[..32] && bits[..32] == bits;
  }

  method WriteBits(b: array<bool>) returns (res: nat)
    ensures res == ToNat(b[..])
  {
    res := 0;
    for i := 0 to b.Length
      invariant res == ToNat(b[..i])
    {
      LastBit(b[..i], b[i]);
      assert b[..i + 1] == b[..i] + [b[i]];
      res := 2 * res + if b[i] then 1 else 0;
    }
    assert b[..b.Length] == b[..];
  }

  method GrayToBin(n: nat) returns (res: nat)
    requires n < WORD_RANGE
    ensures res == Ungray(n)
  {
    var a := ReadBits(n);
    assert |a[..]| == 32;
    var b := new bool[32];
    b[0] := a[0];
    assert a[..1] == [a[0]] && b[..1] == RunningXor(a[..1]);
    for i := 1 to 32
      invariant a[..] == FromNat(n, 32) && b[..i] == RunningXor(a[..i])
    {
      b[i] := if a[i] then !b[i - 1] else b[i - 1];
      assert a[..i + 1][..i] == a[..i] && b[..i + 1] == b[..i] + [b[i]];
    }
    assert a[..32] == a[..] && b[..32] == b[..];
    res := WriteBits(b);
    PowersOfTwo();
    RunningXorDecodes(n, 32);
  }

  type Byte = b: nat | b < 256

  function Le16(data: seq<Byte>, j: nat): (v: nat)
    requires j + 2 <= |data|
    ensures v < 0x1_0000
  {
    var low: nat, high: nat := data[j], data[j + 1];
    low + 0x100 * high
  }

  function Le32(data: seq<Byte>, j: nat): (v: nat)
    requires j + 4 <= |data|
    ensures v < WORD_RANGE
  {
    Le16(data, j) + 0x1_0000 * Le16(data, j + 2)
  }

  /** The time in a time word: 28 Gray-coded bits above two plain ones. */
  function Time(word: nat): nat {
    4 * Ungray(word % TIME_RANGE / 4) + word % 4
  }

  predicate NoTime(word: nat) {
    word / TIME_RANGE % 2 == 1
  }

  predicate IsReference(word: nat) {
    word / (2 * TIME_RANGE) % 2 == 1
  }

  datatype Hit = Hit(lostcpu: nat, lostfpga: nat, ts0: nat, ts1: nat, flags: nat, adc: seq<nat>, coinc: nat)

  datatype FirmwareVersion = ICARUS | SBND

  function HitSize(firmware: FirmwareVersion): nat {
    if firmware == SBND then 76 else 80
  }

  function Flags(word0: nat, word1: nat): nat {
    (if NoTime(word0) then 0 else 1) + (if NoTime(word1) then 0 else 2)
    + (if IsReference(word0) then 4 else 0) + (if IsReference(word1) then 8 else 0)
  }

  function Adcs(data: seq<Byte>, n: nat): seq<nat>
    requires 12 + 2 * n <= |data|
  {
    seq(n, k requires 0 <= k < n => Le16(data, 12 + 2 * k))
  }

  /** The reference decoding of the bytes of one hit. */
  function DecodeHit(data: seq<Byte>, firmware: FirmwareVersion): Hit
    requires |data| == HitSize(firmware)
  {
    Hit(Le16(data, 0), Le16(data, 2),
        Time(Le32(data, 4)) + PHASE_CORRECTION, Time(Le32(data, 8)) + PHASE_CORRECTION,
        Flags(Le32(data, 4), Le32(data, 8)),
        Adcs(data, CHANNELS),
        if firmware == ICARUS then Le32(data, 76) else 0)
  }

  /** Bit k of what is sent at byte j, least significant byte first. */
  predicate SentBit(data: seq<Byte>, j: nat, k: nat)
    requires j + k / 8 < |data|
  {
    BitAt(data[j + k / 8], k % 8)
  }

  /** A number of bytes, from byte j on. */
  ghost predicate IsNumber(v: nat, data: seq<Byte>, j: nat, bytes: nat)
    requires j + bytes <= |data|
  {
    forall k: nat | k < 8 * bytes :: BitAt(v, k) == SentBit(data, j, k)
  }

  /** Bit k of a time, the lowest two being sent as they are, the others in Gray code. */
  ghost predicate IsTimeBit(t: nat, data: seq<Byte>, j: nat, k: nat)
    requires j + k / 8 < |data|
  {
    SentBit(data, j, k) == if k < 2 then BitAt(t, k) else BitAt(t, k) != BitAt(t, k + 1)
  }

  ghost predicate IsTime(t: nat, data: seq<Byte>, j: nat)
    requires j + 4 <= |data|
  {
    t < TIME_RANGE && forall k: nat | k < 30 :: IsTimeBit(t, data, j, k)
  }

  lemma {:induction false} Le16Bits(data: seq<Byte>, j: nat)
    requires j + 2 <= |data|
    ensures IsNumber(Le16(data, j), data, j, 2)
  {
    assert Pow2(8) == 256;
    forall k: nat | k < 16
      ensures BitAt(Le16(data, j), k) == SentBit(data, j, k)
    {
      BitOfSum(data[j], data[j + 1], 8, k);
    }
  }

  lemma {:induction false} Le32Bits(data: seq<Byte>, j: nat)
    requires j + 4 <= |data|
    ensures IsNumber(Le32(data, j), data, j, 4)
  {
    assert Pow2(8) == 256;
    Pow2Add(8, 8);
    forall k: nat | k < 32
      ensures BitAt(Le32(data, j), k) == SentBit(data, j, k)
    {
      BitOfSum(Le16(data, j), Le16(data, j + 2), 16, k);
      Le16Bits(data, j);
      Le16Bits(data, j + 2);
      assert k >= 16 ==> SentBit(data, j, k) == SentBit(data, j + 2, k - 16);
    }
  }

  /** A word taken apart: its top bits, the Gray-coded ones and the lowest two. */
  lemma {:induction false} WordBits(word: nat, g: nat, top: nat, k: nat)
    requires g == word % TIME_RANGE / 4 && top == word / TIME_RANGE
    ensures BitAt(word, k)
            == if k < 2 then BitAt(word % 4, k) else if k < 30 then BitAt(g, k - 2) else BitAt(top, k - 30)
  {
    WordIsSum(word, word % 4, g, top);
    BitsOfParts(word, word % 4, g, top, 2, 28, k);
  }

  lemma {:induction false} WordIsSum(word: nat, low: nat, g: nat, top: nat)
    requires low == word % 4 && g == word % TIME_RANGE / 4 && top == word / TIME_RANGE
    ensures low < Pow2(2) && g < Pow2(28) && word == low + Pow2(2) * (g + Pow2(28) * top)
  {
    PowersOfTwo();
    assert Pow2(2) == 4;
  }

  lemma {:induction false} BitsOfParts(word: nat, low: nat, g: nat, top: nat, m: nat, n: nat, k: nat)
    requires low < Pow2(m) && g < Pow2(n) && word == low + Pow2(m) * (g + Pow2(n) * top)
    ensures BitAt(word, k)
            == if k < m then BitAt(low, k) else if k < m + n then BitAt(g, k - m) else BitAt(top, k - m - n)
  {
    BitOfSum(low, g + Pow2(n) * top, m, k);
    if k >= m {
      BitOfSum(g, top, n, k - m);
    }
  }

  lemma {:induction false} TimeBits(word: nat, k: nat)
    requires k < 30
    ensures BitAt(word, k) == if k < 2 then BitAt(Time(word), k) else BitAt(Time(word), k) != BitAt(Time(word), k + 1)
  {
    var g := word % TIME_RANGE / 4;
    WordBits(word, g, word / TIME_RANGE, k);
    assert Pow2(2) == 4;
    BitOfSum(word % 4, Ungray(g), 2, k);
    BitOfSum(word % 4, Ungray(g), 2, k + 1);
    if k >= 2 {
      GrayUngray(g);
      GrayIsXor(Ungray(g), k - 2);
    }
  }

  lemma {:induction false} FlagBits(word: nat)
    ensures NoTime(word) == BitAt(word, 30) && IsReference(word) == BitAt(word, 31)
  {
    var top := word / TIME_RANGE;
    WordBits(word, word % TIME_RANGE / 4, top, 30);
    WordBits(word, word % TIME_RANGE / 4, top, 31);
    assert word / (2 * TIME_RANGE) == top / 2;
    assert BitAt(top, 1) == BitAt(top / 2, 0);
  }

  lemma {:induction false} TimeIsSent(data: seq<Byte>, j: nat)
    requires j + 4 <= |data|
    ensures IsTime(Time(Le32(data, j)), data, j)
  {
    var word := Le32(data, j);
    TimeIsBounded(word);
    Le32Bits(data, j);
    forall k: nat | k < 30
      ensures IsTimeBit(Time(word), data, j, k)
    {
      TimeBits(word, k);
    }
  }

  /** The four flags: times that are not missing, and reference times. */
  predicate AreFlags(flags: nat, missing0: bool, missing1: bool, reference0: bool, reference1: bool) {
    flags == (if missing0 then 0 else 1) + (if missing1 then 0 else 2) + (if reference0 then 4 else 0)
             + if reference1 then 8 else 0
  }

  /** Where every bit of a hit is sent. */
  lemma {:induction false} HitBits(data: seq<Byte>, firmware: FirmwareVersion)
    requires |data| == HitSize(firmware)
    ensures var hit := DecodeHit(data, firmware);
            && IsNumber(hit.lostcpu, data, 0, 2) && IsNumber(hit.lostfpga, data, 2, 2)
            && hit.ts0 >= 5 && IsTime(hit.ts0 - 5, data, 4) && hit.ts1 >= 5 && IsTime(hit.ts1 - 5, data, 8)
            && AreFlags(hit.flags, SentBit(data, 4, 30), SentBit(data, 8, 30), SentBit(data, 4, 31),
                        SentBit(data, 8, 31))
            && |hit.adc| == 32 && (forall k | 0 <= k < 32 :: IsNumber(hit.adc[k], data, 12 + 2 * k, 2))
            && (firmware == ICARUS ==> IsNumber(hit.coinc, data, 76, 4))
  {
    Le16Bits(data, 0);
    Le16Bits(data, 2);
    TimeIsSent(data, 4);
    TimeIsSent(data, 8);
    Le32Bits(data, 4);
    Le32Bits(data, 8);
    FlagBits(Le32(data, 4));
    FlagBits(Le32(data, 8));
    forall k | 0 <= k < 32
      ensures IsNumber(DecodeHit(data, firmware).adc[k], data, 12 + 2 * k, 2)
    {
      Le16Bits(data, 12 + 2 * k);
    }
    if firmware == ICARUS {
      Le32Bits(data, 76);
    }
  }

  /** Whatever the bytes, a decoded time is at most 2^30 + 4, so the correction cannot overflow its word. */
  lemma TimeIsBounded(word: nat)
    ensures Time(word) < TIME_RANGE
  {
    PowersOfTwo();
    UngrayFits(word % TIME_RANGE / 4, 28);
  }

  lemma DecodedTimesAreBounded(data: seq<Byte>, firmware: FirmwareVersion)
    requires |data| == HitSize(firmware)
    ensures DecodeHit(data, firmware).ts0 <= 0x4000_0004 && DecodeHit(data, firmware).ts1 <= 0x4000_0004
  {
    TimeIsBounded(Le32(data, 4));
    TimeIsBounded(Le32(data, 8));
  }

  /** Decodes one time word as the driver does it, on its bit fields. */
  method TimeStamp(word: nat) returns (t: nat)
    requires word < WORD_RANGE
    ensures t == Time(word) + PHASE_CORRECTION < WORD_RANGE
  {
    TimeIsBounded(word);
    var low, high := word % 4, word % TIME_RANGE / 4;
    var binary := GrayToBin(high);
    t := 4 * binary + low + PHASE_CORRECTION;
  }

  method ReadAdcs(data: seq<Byte>, jj: nat) returns (adc: seq<nat>, next: nat)
    requires jj + 2 * CHANNELS <= |data|
    ensures next == jj + 2 * CHANNELS && |adc| == CHANNELS
    ensures forall k | 0 <= k < CHANNELS :: adc[k] == Le16(data, jj + 2 * k)
  {
    next, adc := jj, [];
    for k := 0 to CHANNELS
      invariant next == jj + 2 * k && |adc| == k
      invariant forall i | 0 <= i < k :: adc[i] == Le16(data, jj + 2 * i)
    {
      adc := adc + [Le16(data, next)];
      next := next + 2;
    }
  }

  lemma FieldsOfSlice(data: seq<Byte>, jj: nat, bytes: seq<Byte>)
    requires 76 <= |bytes| && jj + |bytes| <= |data| && bytes == data[jj..jj + |bytes|]
    ensures Le16(data, jj) == Le16(bytes, 0) && Le16(data, jj + 2) == Le16(bytes, 2)
    ensures Le32(data, jj + 4) == Le32(bytes, 4) && Le32(data, jj + 8) == Le32(bytes, 8)
    ensures |bytes| == 80 ==> Le32(data, jj + 76) == Le32(bytes, 76)
    ensures forall k | 0 <= k < CHANNELS :: Le16(data, jj + 12 + 2 * k) == Adcs(bytes, CHANNELS)[k]
  {
  }

  /** Reads the hit at jj and moves jj past it. */
  method ProcessSingleHit(data: seq<Byte>, jj: nat, firmware: FirmwareVersion) returns (hit: Hit, next: nat)
    requires jj + HitSize(firmware) <= |data|
    ensures next == jj + HitSize(firmware)
    ensures hit == DecodeHit(data[jj..next], firmware)
  {
    ghost var bytes := data[jj..jj + HitSize(firmware)];
    FieldsOfSlice(data, jj, bytes);
    next := jj;
    var lostcpu := Le16(data, next);
    next := next + 2;
    var lostfpga := Le16(data, next);
    next := next + 2;
    var word0 := Le32(data, next);
    next := next + 4;
    var word1 := Le32(data, next);
    next := next + 4;
    var ts0 := TimeStamp(word0);
    var ts1 := TimeStamp(word1);
    var flags := 0;
    if !NoTime(word0) { flags := flags + 1; }
    if !NoTime(word1) { flags := flags + 2; }
    if IsReference(word0) { flags := flags + 4; }
    if IsReference(word1) { flags := flags + 8; }
    var adc;
    adc, next := ReadAdcs(data, next);
    assert adc == Adcs(bytes, CHANNELS);
    var coinc := 0;
    if firmware == ICARUS {
      coinc := Le32(data, next);
      next := next + 4;
    }
    hit := Hit(lostcpu, lostfpga, ts0, ts1, flags, adc, coinc);
  }

  /** A length made of whole hits. */
  predicate Whole(length: int, size: nat)
    requires size > 0
    decreases length
  {
    length == 0 || (length >= size && Whole(length - size, size))
  }

  lemma {:induction false} WholeIsMultiple(length: nat, size: nat)
    requires size > 0
    ensures Whole(length, size) <==> length % size == 0
  {
    if length >= size {
      WholeIsMultiple(length - size, size);
      ModUnique(length, size, (length - size) / size + 1, (length - size) % size);
    }
  }

  /** A payload made of whole hits, cut into the bytes of each. */
  function Chunks(data: seq<Byte>, size: nat): seq<seq<Byte>>
    requires size > 0 && Whole(|data|, size)
  {
    if data == [] then [] else [data[..size]] + Chunks(data[size..], size)
  }

  lemma {:induction false} ChunksAppend(data: seq<Byte>, last: seq<Byte>, size: nat)
    requires size > 0 && Whole(|data|, size) && |last| == size
    ensures Whole(|data + last|, size) && Chunks(data + last, size) == Chunks(data, size) + [last]
    decreases |data|
  {
    if data == [] {
      assert data + last == last && last[..size] == last && last[size..] == [];
    } else {
      ChunksAppend(data[size..], last, size);
      assert (data + last)[..size] == data[..size] && (data + last)[size..] == data[size..] + last;
    }
  }

  predicate IsDecoded(hit: Hit, chunk: seq<Byte>, firmware: FirmwareVersion) {
    |chunk| == HitSize(firmware) && hit == DecodeHit(chunk, firmware)
  }

  /** Hits that are the reference decodings of chunks, one by one. */
  predicate AreDecoded(hits: seq<Hit>, chunks: seq<seq<Byte>>, firmware: FirmwareVersion) {
    |hits| == |chunks|
    && forall i {:trigger IsDecoded(hits[i], chunks[i], firmware)} | 0 <= i < |hits| ::
        IsDecoded(hits[i], chunks[i], firmware)
  }

  lemma DecodedAppend(hits: seq<Hit>, chunks: seq<seq<Byte>>, hit: Hit, chunk: seq<Byte>, firmware: FirmwareVersion)
    requires AreDecoded(hits, chunks, firmware) && IsDecoded(hit, chunk, firmware)
    ensures AreDecoded(hits + [hit], chunks + [chunk], firmware)
  {
    forall i | 0 <= i < |hits + [hit]|
      ensures IsDecoded((hits + [hit])[i], (chunks + [chunk])[i], firmware)
    {
      assert i < |hits| ==> IsDecoded(hits[i], chunks[i], firmware);
    }
  }

  /** The bytes the hit loop reads for a payload of datalen bytes: up to the end of the last hit begun. */
  function BytesRead(datalen: int, size: nat): nat
    requires size > 0
    decreases datalen
  {
    if datalen <= 0 then 0 else size + BytesRead(datalen - size, size)
  }

  /** It reads whole hits, and only received bytes exactly when the payload is made of whole hits. */
  lemma {:induction false} OnlyReceivedBytes(datalen: nat, size: nat)
    requires size > 0
    ensures BytesRead(datalen, size) >= datalen && Whole(BytesRead(datalen, size), size)
    ensures BytesRead(datalen, size) == datalen <==> datalen % size == 0
  {
    WholeIsMultiple(datalen, size);
    if datalen >= size {
      OnlyReceivedBytes(datalen - size, size);
      WholeIsMultiple(datalen - size, size);
    } else if datalen > 0 {
      assert BytesRead(datalen - size, size) == 0;
    }
  }

  lemma {:induction false} BytesReadIs(datalen: nat, size: nat)
    requires size > 0
    ensures BytesRead(datalen, size) == (datalen + size - 1) / size * size
  {
    if datalen >= size {
      BytesReadIs(datalen - size, size);
      var q := (datalen - 1) / size;
      ModUnique(datalen + size - 1, size, q + 1, (datalen - 1) % size);
    } else if datalen > 0 {
      ModUnique(datalen + size - 1, size, 1, datalen - 1);
    } else {
      ModUnique(size - 1, size, 0, size - 1);
    }
  }

  /** The loop stays inside the packet buffer exactly up to this payload size. */
  lemma BufferSuffices(datalen: nat, firmware: FirmwareVersion)
    ensures BytesRead(datalen, HitSize(firmware)) <= MAXPAYLOAD <==> datalen <= if firmware == SBND then 1444 else 1440
  {
    BytesReadIs(datalen, HitSize(firmware));
  }

  /** The size check of GetData, which only logs, accepts exactly the packets made of whole hits. */
  lemma SizeCheck(numbytes: nat, firmware: FirmwareVersion)
    ensures numbytes % HitSize(firmware) == PACKET_HEADER_BYTES <==>
            numbytes >= PACKET_HEADER_BYTES && (numbytes - PACKET_HEADER_BYTES) % HitSize(firmware) == 0
  {
  }

  /** The hits of one packet, which the loop appends to the board's list. */
  method ReadHits(data: seq<Byte>, numbytes: nat, firmware: FirmwareVersion, hits: seq<Hit>) returns (all: seq<Hit>)
    requires |data| == MAXPAYLOAD && BytesRead(numbytes - PACKET_HEADER_BYTES, HitSize(firmware)) <= MAXPAYLOAD
    ensures var read := BytesRead(numbytes - PACKET_HEADER_BYTES, HitSize(firmware));
            && Whole(read, HitSize(firmware)) && hits <= all
            && AreDecoded(all[|hits|..], Chunks(data[..read], HitSize(firmware)), firmware)
  {
    var more, read := HitLoop(data, numbytes - PACKET_HEADER_BYTES, firmware);
    all := hits + more;
    assert all[|hits|..] == more;
  }

  method HitLoop(data: seq<Byte>, datalen: int, firmware: FirmwareVersion) returns (hits: seq<Hit>, jj: nat)
    requires BytesRead(datalen, HitSize(firmware)) <= |data|
    ensures jj == BytesRead(datalen, HitSize(firmware)) && Whole(jj, HitSize(firmware))
    ensures AreDecoded(hits, Chunks(data[..jj], HitSize(firmware)), firmware)
  {
    hits, jj := [], 0;
    while jj < datalen
      invariant jj + BytesRead(datalen - jj, HitSize(firmware)) == BytesRead(datalen, HitSize(firmware))
      invariant Whole(jj, HitSize(firmware)) && AreDecoded(hits, Chunks(data[..jj], HitSize(firmware)), firmware)
    {
      var hit, next := NextHit(data, jj, firmware);
      ghost var chunk := data[jj..next];
      ChunksAppend(data[..jj], chunk, HitSize(firmware));
      DecodedAppend(hits, Chunks(data[..jj], HitSize(firmware)), hit, chunk, firmware);
      assert data[..jj] + chunk == data[..next];
      hits := hits + [hit];
      jj := next;
    }
  }

  method NextHit(data: seq<Byte>, jj: nat, firmware: FirmwareVersion) returns (hit: Hit, next: nat)
    requires jj + HitSize(firmware) <= |data|
    ensures next == jj + HitSize(firmware) && IsDecoded(hit, data[jj..next], firmware)
  {
    hit, next := ProcessSingleHit(data, jj, firmware);
  }

  /** What a board measures for a hit. */
  datatype Stamp = Stamp(time: nat, missing: bool, reference: bool) {
    predicate Valid() {
      time < TIME_RANGE
    }

    /** The word it sends for it. */
    function Word(): nat {
      4 * Gray(time / 4) + time % 4 + (if missing then TIME_RANGE else 0) + (if reference then 2 * TIME_RANGE else 0)
    }
  }

  predicate AreWords(adc: seq<nat>) {
    forall k | 0 <= k < |adc| :: adc[k] < 0x1_0000
  }

  datatype Sample = Sample(lostcpu: nat, lostfpga: nat, stamp0: Stamp, stamp1: Stamp, adc: seq<nat>, coinc: nat) {
    predicate Valid(firmware: FirmwareVersion) {
      && lostcpu < 0x1_0000 && lostfpga < 0x1_0000
      && stamp0.Valid() && stamp1.Valid()
      && |adc| == CHANNELS && AreWords(adc)
      && if firmware == ICARUS then coinc < WORD_RANGE else coinc == 0
    }
  }

  function Bytes16(v: nat): seq<Byte>
    requires v < 0x1_0000
  {
    [v % 0x100, v / 0x100]
  }

  function Bytes32(v: nat): (bytes: seq<Byte>)
    requires v < WORD_RANGE
    ensures |bytes| == 4
  {
    Bytes16(v % 0x1_0000) + Bytes16(v / 0x1_0000)
  }

  function AdcBytes(adc: seq<nat>): (bytes: seq<Byte>)
    requires AreWords(adc)
    ensures |bytes| == 2 * |adc|
  {
    if adc == [] then [] else AdcBytes(adc[..|adc| - 1]) + Bytes16(adc[|adc| - 1])
  }

  lemma WordFields(s: Stamp)
    requires s.Valid()
    ensures s.Word() < WORD_RANGE
    ensures Time(s.Word()) == s.time && NoTime(s.Word()) == s.missing && IsReference(s.Word()) == s.reference
  {
    PowersOfTwo();
    UngrayGray(s.time / 4);
    UngrayFits(Gray(s.time / 4), 28);
    WordIsPacked(Gray(s.time / 4), s);
  }

  lemma {:induction false} PackedFields(word: nat, g: nat, low: nat, missing: nat, reference: nat)
    requires g < 0x1000_0000 && low < 4 && missing < 2 && reference < 2
    requires word == 4 * g + low + missing * 0x4000_0000 + reference * 0x8000_0000
    ensures word < WORD_RANGE && word % TIME_RANGE / 4 == g && word % 4 == low
    ensures word / TIME_RANGE % 2 == missing && word / (2 * TIME_RANGE) % 2 == reference
  {
    ModUnique(word, 0x4000_0000, missing + 2 * reference, 4 * g + low);
    ModUnique(word, 0x8000_0000, reference, 4 * g + low + missing * 0x4000_0000);
    ModUnique(word, 4, g + (missing + 2 * reference) * 0x1000_0000, low);
    ModUnique(4 * g + low, 4, g, low);
  }

  lemma {:induction false} WordIsPacked(g: nat, s: Stamp)
    requires s.Valid() && g < 0x1000_0000 && g == Gray(s.time / 4)
    ensures s.Word() < WORD_RANGE
    ensures s.Word() % TIME_RANGE / 4 == g && s.Word() % 4 == s.time % 4
    ensures NoTime(s.Word()) == s.missing && IsReference(s.Word()) == s.reference
  {
    PackedFields(s.Word(), g, s.time % 4, if s.missing then 1 else 0, if s.reference then 1 else 0);
  }

  function Header(s: Sample, firmware: FirmwareVersion): (bytes: seq<Byte>)
    requires s.Valid(firmware)
    ensures |bytes| == 12
  {
    WordFields(s.stamp0);
    WordFields(s.stamp1);
    Bytes16(s.lostcpu) + Bytes16(s.lostfpga) + Bytes32(s.stamp0.Word()) + Bytes32(s.stamp1.Word())
  }

  function EncodeHit(s: Sample, firmware: FirmwareVersion): (bytes: seq<Byte>)
    requires s.Valid(firmware)
    ensures |bytes| == HitSize(firmware)
  {
    Header(s, firmware) + AdcBytes(s.adc) + if firmware == ICARUS then Bytes32(s.coinc) else []
  }

  /** What the driver should make of it. */
  function Measured(s: Sample): Hit {
    Hit(s.lostcpu, s.lostfpga, s.stamp0.time + PHASE_CORRECTION, s.stamp1.time + PHASE_CORRECTION,
        (if s.stamp0.missing then 0 else 1) + (if s.stamp1.missing then 0 else 2)
        + (if s.stamp0.reference then 4 else 0) + (if s.stamp1.reference then 8 else 0),
        s.adc, s.coinc)
  }

  lemma {:induction false} AdcBytesAt(adc: seq<nat>, k: nat)
    requires k < |adc| && AreWords(adc)
    ensures Le16(AdcBytes(adc), 2 * k) == adc[k]
  {
    var n := |adc| - 1;
    assert adc == adc[..n] + [adc[n]];
    if k < n {
      AdcBytesAt(adc[..n], k);
    }
  }

  lemma Le32OfBytes(v: nat)
    requires v < WORD_RANGE
    ensures Le32(Bytes32(v), 0) == v
  {
  }

  lemma Le16Inside(data: seq<Byte>, at: nat, part: seq<Byte>, j: nat)
    requires at + |part| <= |data| && data[at..at + |part|] == part && j + 2 <= |part|
    ensures Le16(data, at + j) == Le16(part, j)
  {
    assert data[at + j] == part[j] && data[at + j + 1] == part[j + 1];
  }

  lemma Le32Inside(data: seq<Byte>, at: nat, v: nat)
    requires v < WORD_RANGE && at + 4 <= |data| && data[at..at + 4] == Bytes32(v)
    ensures Le32(data, at) == v
  {
    Le16Inside(data, at, Bytes32(v), 0);
    Le16Inside(data, at, Bytes32(v), 2);
    Le32OfBytes(v);
  }

  lemma HeaderDecodes(s: Sample, firmware: FirmwareVersion)
    requires s.Valid(firmware)
    ensures s.stamp0.Word() < WORD_RANGE && s.stamp1.Word() < WORD_RANGE
    ensures Le16(Header(s, firmware), 0) == s.lostcpu && Le16(Header(s, firmware), 2) == s.lostfpga
    ensures Le32(Header(s, firmware), 4) == s.stamp0.Word() && Le32(Header(s, firmware), 8) == s.stamp1.Word()
  {
    WordFields(s.stamp0);
    WordFields(s.stamp1);
    var header := Header(s, firmware);
    assert header[4..8] == Bytes32(s.stamp0.Word());
    Le32Inside(header, 4, s.stamp0.Word());
    assert header[8..12] == Bytes32(s.stamp1.Word());
    Le32Inside(header, 8, s.stamp1.Word());
  }

  lemma AdcsDecode(data: seq<Byte>, adc: seq<nat>)
    requires |adc| == CHANNELS && AreWords(adc) && 76 <= |data| && data[12..76] == AdcBytes(adc)
    ensures Adcs(data, CHANNELS) == adc
  {
    forall k | 0 <= k < CHANNELS
      ensures Adcs(data, CHANNELS)[k] == adc[k]
    {
      AdcBytesAt(adc, k);
      Le16Inside(data, 12, AdcBytes(adc), 2 * k);
    }
  }

  lemma FlagsDecode(s: Sample)
    requires s.stamp0.Valid() && s.stamp1.Valid()
    ensures Flags(s.stamp0.Word(), s.stamp1.Word()) == Measured(s).flags
  {
    WordFields(s.stamp0);
    WordFields(s.stamp1);
  }

  lemma FieldsDecode(data: seq<Byte>, s: Sample, firmware: FirmwareVersion)
    requires s.Valid(firmware) && data == EncodeHit(s, firmware)
    ensures Le16(data, 0) == s.lostcpu && Le16(data, 2) == s.lostfpga
    ensures Le32(data, 4) == s.stamp0.Word() && Le32(data, 8) == s.stamp1.Word()
    ensures firmware == ICARUS ==> Le32(data, 76) == s.coinc
  {
    var header := Header(s, firmware);
    HeaderDecodes(s, firmware);
    assert data[..12] == header;
    Le16Inside(data, 0, header, 0);
    Le16Inside(data, 0, header, 2);
    assert data[4..8] == header[4..8] && data[8..12] == header[8..12];
    Le32Inside(data, 4, s.stamp0.Word());
    Le32Inside(data, 8, s.stamp1.Word());
    if firmware == ICARUS {
      assert data[76..80] == Bytes32(s.coinc);
      Le32Inside(data, 76, s.coinc);
    }
  }

  /** The driver recovers every measurement a board can send. */
  lemma DecodeEncode(s: Sample, firmware: FirmwareVersion)
    requires s.Valid(firmware)
    ensures DecodeHit(EncodeHit(s, firmware), firmware) == Measured(s)
  {
    var data := EncodeHit(s, firmware);
    FieldsDecode(data, s, firmware);
    WordFields(s.stamp0);
    WordFields(s.stamp1);
    FlagsDecode(s);
    assert data[12..76] == AdcBytes(s.adc);
    AdcsDecode(data, s.adc);
  }

  function EncodeHits(samples: seq<Sample>, firmware: FirmwareVersion): (bytes: seq<Byte>)
    requires forall s | s in samples :: s.Valid(firmware)
    decreases |samples|
  {
    if samples == [] then []
    else EncodeHits(samples[..|samples| - 1], firmware) + EncodeHit(samples[|samples| - 1], firmware)
  }

  function AllMeasured(samples: seq<Sample>): seq<Hit> {
    if samples == [] then [] else AllMeasured(samples[..|samples| - 1]) + [Measured(samples[|samples| - 1])]
  }

  /** And every packet of them, hit by hit. */
  lemma {:induction false} PayloadIsDecoded(samples: seq<Sample>, firmware: FirmwareVersion)
    requires forall s | s in samples :: s.Valid(firmware)
    ensures Whole(|EncodeHits(samples, firmware)|, HitSize(firmware))
    ensures AreDecoded(AllMeasured(samples), Chunks(EncodeHits(samples, firmware), HitSize(firmware)), firmware)
    decreases |samples|
  {
    if samples != [] {
      var n, size := |samples| - 1, HitSize(firmware);
      PayloadIsDecoded(samples[..n], firmware);
      SampleIsDecoded(samples[n], firmware);
      ChunksAppend(EncodeHits(samples[..n], firmware), EncodeHit(samples[n], firmware), size);
      DecodedAppend(AllMeasured(samples[..n]), Chunks(EncodeHits(samples[..n], firmware), size),
                    Measured(samples[n]), EncodeHit(samples[n], firmware), firmware);
    }
  }

  lemma SampleIsDecoded(s: Sample, firmware: FirmwareVersion)
    requires s.Valid(firmware)
    ensures IsDecoded(Measured(s), EncodeHit(s, firmware), firmware)
  {
    DecodeEncode(s, firmware);
  }
}
