/**
 * Conversion between named front-end board parameters and the slow-control register image.
 */
module FebConfiguration {
  import opened Bits
  import opened BitImage
  import opened ParameterLayout

  /** The value of every parameter, by key. */
  datatype Settings = Settings(booleans: map<BoolKey, bool>, numbers: map<NumberKey, nat>) {
    predicate Complete() {
      booleans.Keys == BoolKeys() && numbers.Keys == NumberKeys()
    }

    /** No number is above its maximum. */
    predicate InRange() {
      forall k | k in numbers :: numbers[k] <= MaxValue(k)
    }
  }

  /** The register bit that settings call for at position n, found from the bit side of the map. */
  function EncodedBit(s: Settings, n: nat): bool
    requires s.Complete() && n < SLOW_CONTROL_BITSTREAM_NBITS
  {
    OwnerCovers(n);
    BitFor(s, OwnerOf(n), n)
  }

  /** What a parameter calls for at one of its bits. */
  function BitFor(s: Settings, p: Parameter, n: nat): bool
    requires s.Complete() && p.Exists() && p.Covers(n)
  {
    match p
    case Boolean(k) => s.booleans[k] != Inverted(k)
    case Numerical(k) => FromNat(s.numbers[k], Width(k))[n - FirstBit(k)]
  }

  function Encode(s: Settings): (bits: seq<bool>)
    requires s.Complete()
    ensures |bits| == SLOW_CONTROL_BITSTREAM_NBITS
  {
    seq(SLOW_CONTROL_BITSTREAM_NBITS, n requires 0 <= n < SLOW_CONTROL_BITSTREAM_NBITS => EncodedBit(s, n))
  }

  lemma PlaceOfBool(k: BoolKey)
    requires IsBoolKey(k)
    ensures BitOf(k) < SLOW_CONTROL_BITSTREAM_NBITS && OwnerOf(BitOf(k)) == Boolean(k)
  {
    TableStaysInRegister(Boolean(k), BitOf(k));
    OwnerIsUnique(BitOf(k), Boolean(k));
  }

  lemma PlaceOfNumber(k: NumberKey)
    requires IsNumberKey(k)
    ensures LastBit(k) < SLOW_CONTROL_BITSTREAM_NBITS
    ensures forall n: nat | FirstBit(k) <= n <= LastBit(k) :: OwnerOf(n) == Numerical(k)
  {
    TableStaysInRegister(Numerical(k), LastBit(k));
    forall n: nat | FirstBit(k) <= n <= LastBit(k)
      ensures OwnerOf(n) == Numerical(k)
    {
      OwnerIsUnique(n, Numerical(k));
    }
  }

  /** The bits that are one while their switches are off. */
  predicate OneWhenOff(n: nat) {
    || n == 257 || n == 260 || n == 298 || n == 300 || n == 303 || n == 305 || n == 310 || n == 312 || n == 313
    || n == 318 || n == 323 || n == 324 || n == 326 || n == 1099 || n == 1101 || n == 1104 || n == 1106
    || n == 1128 || n == 1130 || n == 1132 || n == 1135 || n == 1137
    || (633 <= n <= 1098 && n % 15 == 3)
  }

  lemma InvertedIsOne(f: FebFlag)
    requires InvertedFlag(f)
    ensures OneWhenOff(FlagBit(f))
  {
  }

  lemma OneIsInverted(f: FebFlag)
    requires OneWhenOff(FlagBit(f))
    ensures InvertedFlag(f)
  {
  }

  /** Every switch in the register: these are the ones stored inverted. */
  lemma {:induction false} SwitchInRegister(s: Settings, k: BoolKey)
    requires s.Complete() && IsBoolKey(k)
    ensures BitOf(k) < |Encode(s)| && (Encode(s)[BitOf(k)] == s.booleans[k] <==> !OneWhenOff(BitOf(k)))
  {
    PlaceOfBool(k);
    if k.OfFeb? {
      if InvertedFlag(k.flag) {
        InvertedIsOne(k.flag);
      } else if OneWhenOff(BitOf(k)) {
        OneIsInverted(k.flag);
      }
    }
  }

  function DecodeBool(bits: seq<bool>, k: BoolKey): bool
    requires |bits| == SLOW_CONTROL_BITSTREAM_NBITS && IsBoolKey(k)
  {
    PlaceOfBool(k);
    bits[BitOf(k)] != Inverted(k)
  }

  function DecodeNumber(bits: seq<bool>, k: NumberKey): nat
    requires |bits| == SLOW_CONTROL_BITSTREAM_NBITS && IsNumberKey(k)
  {
    PlaceOfNumber(k);
    ToNat(bits[FirstBit(k)..LastBit(k) + 1])
  }

  function Decode(bits: seq<bool>): (s: Settings)
    requires |bits| == SLOW_CONTROL_BITSTREAM_NBITS
    ensures s.Complete()
  {
    Settings(map k | k in BoolKeys() :: DecodeBool(bits, k), map k | k in NumberKeys() :: DecodeNumber(bits, k))
  }

  lemma EncodedNumber(s: Settings, k: NumberKey)
    requires s.Complete() && IsNumberKey(k)
    ensures LastBit(k) < SLOW_CONTROL_BITSTREAM_NBITS
    ensures Encode(s)[FirstBit(k)..LastBit(k) + 1] == FromNat(s.numbers[k], Width(k))
  {
    PlaceOfNumber(k);
    var slice := Encode(s)[FirstBit(k)..LastBit(k) + 1];
    forall i | 0 <= i < Width(k)
      ensures slice[i] == FromNat(s.numbers[k], Width(k))[i]
    {
      assert OwnerOf(FirstBit(k) + i) == Numerical(k);
    }
  }

  /** A number that does not fit loses its high bits on the way through the register. */
  lemma NumberThroughRegister(s: Settings, k: NumberKey)
    requires s.Complete() && IsNumberKey(k)
    ensures DecodeNumber(Encode(s), k) == s.numbers[k] % (MaxValue(k) + 1)
  {
    EncodedNumber(s, k);
    ToNatFromNat(s.numbers[k], Width(k));
    MaxValueFillsWidth(k);
  }

  lemma BoolThroughRegister(s: Settings, k: BoolKey)
    requires s.Complete() && IsBoolKey(k)
    ensures DecodeBool(Encode(s), k) == s.booleans[k]
  {
    PlaceOfBool(k);
  }

  lemma NumberSurvives(s: Settings, k: NumberKey)
    requires s.Complete() && IsNumberKey(k)
    ensures DecodeNumber(Encode(s), k) == s.numbers[k] <==> s.numbers[k] <= MaxValue(k)
  {
    NumberThroughRegister(s, k);
    ModKeeps(s.numbers[k], MaxValue(k));
  }

  lemma BooleansSurvive(s: Settings)
    requires s.Complete()
    ensures Decode(Encode(s)).booleans == s.booleans
  {
    forall k | k in BoolKeys()
      ensures DecodeBool(Encode(s), k) == s.booleans[k]
    {
      BoolThroughRegister(s, k);
    }
  }

  /** Settings survive the register exactly when every number is within its maximum. */
  lemma DecodeEncode(s: Settings)
    requires s.Complete()
    ensures Decode(Encode(s)) == s <==> s.InRange()
  {
    BooleansSurvive(s);
    var numbers := Decode(Encode(s)).numbers;
    forall k | k in NumberKeys()
      ensures numbers[k] == s.numbers[k] <==> s.numbers[k] <= MaxValue(k)
    {
      NumberSurvives(s, k);
    }
    if s.InRange() {
      assert numbers == s.numbers;
    } else {
      var k :| k in s.numbers && s.numbers[k] > MaxValue(k);
      assert numbers[k] != s.numbers[k];
    }
  }

  lemma EncodeDecodeNumber(bits: seq<bool>, k: NumberKey, n: nat)
    requires |bits| == SLOW_CONTROL_BITSTREAM_NBITS && IsNumberKey(k)
    requires FirstBit(k) <= n <= LastBit(k)
    ensures n < |bits| && FromNat(DecodeNumber(bits, k), Width(k))[n - FirstBit(k)] == bits[n]
  {
    PlaceOfNumber(k);
    SliceThroughNumber(bits, FirstBit(k), LastBit(k), n);
  }

  lemma SliceThroughNumber(bits: seq<bool>, first: nat, last: nat, n: nat)
    requires first <= n <= last < |bits|
    ensures FromNat(ToNat(bits[first..last + 1]), last - first + 1)[n - first] == bits[n]
  {
    FromNatToNat(bits[first..last + 1]);
  }

  /** Every register content survives the named parameters: no bit is without a parameter. */
  lemma EncodeDecode(bits: seq<bool>)
    requires |bits| == SLOW_CONTROL_BITSTREAM_NBITS
    ensures Encode(Decode(bits)) == bits
  {
    forall n: nat | n < SLOW_CONTROL_BITSTREAM_NBITS
      ensures EncodedBit(Decode(bits), n) == bits[n]
    {
      EncodeDecodeAt(bits, n);
    }
  }

  lemma EncodeDecodeAt(bits: seq<bool>, n: nat)
    requires |bits| == SLOW_CONTROL_BITSTREAM_NBITS && n < |bits|
    ensures EncodedBit(Decode(bits), n) == bits[n]
  {
    OwnerCovers(n);
    EncodeDecodeFor(bits, OwnerOf(n), n);
  }

  lemma EncodeDecodeFor(bits: seq<bool>, p: Parameter, n: nat)
    requires |bits| == SLOW_CONTROL_BITSTREAM_NBITS && n < |bits| && p.Exists() && p.Covers(n)
    ensures BitFor(Decode(bits), p, n) == bits[n]
  {
    match p
    case Boolean(k) => EncodeDecodeBool(bits, k);
    case Numerical(k) => EncodeDecodeNumber(bits, k, n);
  }

  lemma EncodeDecodeBool(bits: seq<bool>, k: BoolKey)
    requires |bits| == SLOW_CONTROL_BITSTREAM_NBITS && IsBoolKey(k)
    ensures BitOf(k) < |bits| && (DecodeBool(bits, k) != Inverted(k)) == bits[BitOf(k)]
  {
    PlaceOfBool(k);
  }

  /** What parameters read from any image can be. */
  lemma DecodedSettingsAreInRange(bits: seq<bool>)
    requires |bits| == SLOW_CONTROL_BITSTREAM_NBITS
    ensures Decode(bits).InRange()
  {
    EncodeDecode(bits);
    DecodeEncode(Decode(bits));
  }

  // ---------------------------------------------------------------------------------
  // The named form of a configuration file
  // ---------------------------------------------------------------------------------

  /** A column of the channel table: a switch or a number. */
  datatype Column = Switch(flag: ChannelFlag) | Number(number: ChannelNumber)

  const COLUMNS: seq<Column> := [
    Number(TimeThresholdAdjustment), Number(ChargeThresholdAdjustment), Switch(ActivateDiscriminator), Number(HV),
    Switch(HighHighBias), Number(HGGain), Number(LGGain), Switch(TestHG), Switch(TestLG), Switch(EnablePreamp)]

  function ColumnOfFlag(flag: ChannelFlag): (p: nat)
    ensures p < |COLUMNS| && COLUMNS[p] == Switch(flag)
  {
    match flag
    case ActivateDiscriminator => 2
    case HighHighBias => 4
    case TestHG => 7
    case TestLG => 8
    case EnablePreamp => 9
  }

  function ColumnOfNumber(number: ChannelNumber): (p: nat)
    ensures p < |COLUMNS| && COLUMNS[p] == Number(number)
  {
    match number
    case TimeThresholdAdjustment => 0
    case ChargeThresholdAdjustment => 1
    case HV => 3
    case HGGain => 5
    case LGGain => 6
  }

  lemma ColumnsAreUnique(p: nat, q: nat)
    requires p < |COLUMNS| && q < |COLUMNS| && p != q
    ensures COLUMNS[p] != COLUMNS[q]
  {
  }

  /** The board's switches and numbers by name, and a table with a row per channel, if there is one. */
  datatype NamedSettings = NamedSettings(booleans: map<BoolKey, bool>, numbers: map<NumberKey, nat>,
                                         hasChannels: bool, channels: seq<seq<nat>>) {
    /** All names are there: reading one that is not throws. */
    predicate Named() {
      FebBoolKeys() <= booleans.Keys && FebNumberKeys() <= numbers.Keys && hasChannels
    }

    /** The numbers that are there are within their maxima, and the table is well shaped. */
    predicate InRange() {
      && (forall k | k in FebNumberKeys() && k in numbers :: numbers[k] <= MaxValue(k))
      && (hasChannels ==>
            && WellShaped()
            && forall c, p | 0 <= c < |channels| && 0 <= p < |COLUMNS| :: CellFits(c, p, channels[c][p]))
    }

    predicate WellShaped() {
      |channels| == NUMBER_OF_CHANNELS && forall c | 0 <= c < |channels| :: |channels[c]| == |COLUMNS|
    }

    function BoolValue(k: BoolKey): bool
      requires Named() && WellShaped() && IsBoolKey(k)
    {
      match k
      case OfFeb(_) => booleans[k]
      case OfChannel(c, flag) => channels[c][ColumnOfFlag(flag)] != 0
    }

    function NumberValue(k: NumberKey): nat
      requires Named() && WellShaped() && IsNumberKey(k)
    {
      match k
      case OfFebNumber(_) => numbers[k]
      case OfChannelNumber(c, number) => channels[c][ColumnOfNumber(number)]
    }

    function ToSettings(): (s: Settings)
      requires Named() && WellShaped()
      ensures s.Complete()
    {
      Settings(map k | k in BoolKeys() :: BoolValue(k), map k | k in NumberKeys() :: NumberValue(k))
    }
  }

  predicate CellFits(channel: nat, p: nat, value: nat)
    requires p < |COLUMNS|
  {
    COLUMNS[p].Number? ==> value <= MaxValue(OfChannelNumber(channel, COLUMNS[p].number))
  }

  /** A named configuration is in range exactly when the register can hold every one of its numbers. */
  lemma {:induction false} AcceptedSurvives(f: NamedSettings)
    requires f.Named() && f.WellShaped()
    ensures f.InRange() <==> Decode(Encode(f.ToSettings())) == f.ToSettings()
  {
    DecodeEncode(f.ToSettings());
    if f.InRange() {
      forall k | k in NumberKeys()
        ensures f.NumberValue(k) <= MaxValue(k)
      {
        if k.OfChannelNumber? {
          assert CellFits(k.channel, ColumnOfNumber(k.channelNumber), f.NumberValue(k));
        }
      }
    }
    if f.ToSettings().InRange() {
      forall k | k in FebNumberKeys()
        ensures f.numbers[k] <= MaxValue(k)
      {
        assert f.ToSettings().numbers[k] <= MaxValue(k);
      }
      forall c, p | 0 <= c < |f.channels| && 0 <= p < |COLUMNS|
        ensures CellFits(c, p, f.channels[c][p])
      {
        RangeOfCell(f, c, p);
      }
    }
  }

  lemma {:induction false} RangeOfCell(f: NamedSettings, c: nat, p: nat)
    requires f.Named() && f.WellShaped() && f.ToSettings().InRange()
    requires c < |f.channels| && p < |COLUMNS|
    ensures CellFits(c, p, f.channels[c][p])
  {
    if COLUMNS[p].Number? {
      var k := OfChannelNumber(c, COLUMNS[p].number);
      if ColumnOfNumber(COLUMNS[p].number) != p {
        ColumnsAreUnique(ColumnOfNumber(COLUMNS[p].number), p);
      }
      assert f.ToSettings().numbers[k] <= MaxValue(k);
    }
  }

  datatype BooleanParameter = BooleanParameter(value: bool, bitNumber: nat, invertedLogic: bool)
  datatype NumericalParameter = NumericalParameter(value: nat, maxValue: nat, firstBit: nat, lastBit: nat)

  predicate BooleansInPlace(parameters: map<BoolKey, BooleanParameter>) {
    forall k | k in parameters ::
      IsBoolKey(k) && parameters[k].bitNumber == BitOf(k) && parameters[k].invertedLogic == Inverted(k)
  }

  predicate NumbersInPlace(parameters: map<NumberKey, NumericalParameter>) {
    forall k | k in parameters ::
      && IsNumberKey(k)
      && parameters[k].firstBit == FirstBit(k)
      && parameters[k].lastBit == LastBit(k)
      && parameters[k].maxValue == MaxValue(k)
  }

  function BoolValues(parameters: map<BoolKey, BooleanParameter>): (values: map<BoolKey, bool>)
    ensures values.Keys == parameters.Keys
  {
    map k | k in parameters :: parameters[k].value
  }

  function NumberValues(parameters: map<NumberKey, NumericalParameter>): (values: map<NumberKey, nat>)
    ensures values.Keys == parameters.Keys
  {
    map k | k in parameters :: parameters[k].value
  }

  predicate SwitchesRead(parameters: map<BoolKey, BooleanParameter>, values: map<BoolKey, bool>) {
    forall k | k in parameters :: k in values && parameters[k].value == values[k]
  }

  predicate NumbersRead(parameters: map<NumberKey, NumericalParameter>, values: map<NumberKey, nat>) {
    forall k | k in parameters :: k in values && parameters[k].value == values[k]
  }

  /** How reading a configuration ends: taken over, refused, or with an exception. */
  datatype Outcome = Accepted | Refused | Thrown

  /** Register bit n already is what the settings call for. */
  ghost predicate Agrees(bits: seq<bool>, s: Settings, n: nat)
    requires s.Complete()
  {
    |bits| == SLOW_CONTROL_BITSTREAM_NBITS && n < |bits| && bits[n] == Encode(s)[n]
  }

  ghost predicate NumberAgrees(bits: seq<bool>, s: Settings, k: NumberKey)
    requires s.Complete()
  {
    forall n: nat | FirstBit(k) <= n <= LastBit(k) :: Agrees(bits, s, n)
  }

  lemma AgreementIsComplete(bits: seq<bool>, s: Settings)
    requires s.Complete() && |bits| == SLOW_CONTROL_BITSTREAM_NBITS
    requires forall k | k in BoolKeys() :: Agrees(bits, s, BitOf(k))
    requires forall k | k in NumberKeys() :: NumberAgrees(bits, s, k)
    ensures bits == Encode(s)
  {
    forall n: nat | n < SLOW_CONTROL_BITSTREAM_NBITS
      ensures bits[n] == Encode(s)[n]
    {
      OwnerCovers(n);
      match OwnerOf(n)
      case Boolean(k) => assert Agrees(bits, s, BitOf(k));
      case Numerical(k) => assert NumberAgrees(bits, s, k) && Agrees(bits, s, n);
    }
  }

  class BernCRTFEBConfiguration {
    const slowControlBitStream: array<bv8>
    var booleanParameters: map<BoolKey, BooleanParameter>
    var booleanChannelParameters: map<BoolKey, BooleanParameter>
    var numericalParameters: map<NumberKey, NumericalParameter>
    var numericalChannelParameters: map<NumberKey, NumericalParameter>

    ghost predicate Valid()
      reads this
    {
      && 8 * slowControlBitStream.Length == SLOW_CONTROL_BITSTREAM_NBITS
      && booleanParameters.Keys == FebBoolKeys() && booleanChannelParameters.Keys == ChannelBoolKeys()
      && numericalParameters.Keys == FebNumberKeys() && numericalChannelParameters.Keys == ChannelNumberKeys()
      && BooleansInPlace(booleanParameters) && BooleansInPlace(booleanChannelParameters)
      && NumbersInPlace(numericalParameters) && NumbersInPlace(numericalChannelParameters)
    }

    ghost function Values(): (s: Settings)
      requires Valid()
      reads this
      ensures s.Complete()
    {
      Settings(BoolValues(booleanParameters) + BoolValues(booleanChannelParameters),
               NumberValues(numericalParameters) + NumberValues(numericalChannelParameters))
    }

    ghost function Register(): seq<bool>
      reads slowControlBitStream
    {
      RegisterBits(slowControlBitStream[..])
    }

    /** InitializeParameters; the image itself is left as allocated. */
    constructor ()
      ensures Valid() && fresh(slowControlBitStream)
    {
      slowControlBitStream := new bv8[SLOW_CONTROL_BITSTREAM_NBITS / 8];
      booleanParameters := map k | k in FebBoolKeys() :: BooleanParameter(false, BitOf(k), Inverted(k));
      booleanChannelParameters := map k | k in ChannelBoolKeys() :: BooleanParameter(false, BitOf(k), Inverted(k));
      numericalParameters := map k | k in FebNumberKeys() ::
        NumericalParameter(0, MaxValue(k), FirstBit(k), LastBit(k));
      numericalChannelParameters := map k | k in ChannelNumberKeys() ::
        NumericalParameter(0, MaxValue(k), FirstBit(k), LastBit(k));
    }

    method WriteNext(ghost was: seq<bool>, ghost field: seq<bool>, ghost first: nat, n: nat, bit: bool)
      requires 8 * slowControlBitStream.Length == SLOW_CONTROL_BITSTREAM_NBITS == |was|
      requires first <= n < |was| && n - first < |field| && bit == field[n - first]
      requires PartWritten(was, field, first, n - first, Register())
      modifies slowControlBitStream
      ensures PartWritten(was, field, first, n + 1 - first, Register())
    {
      PartGrows(was, field, first, n - first, Register());
      SetBit(n, bit, slowControlBitStream, SLOW_CONTROL_BITSTREAM_NBITS);
    }

    /** The loop of SetBits. */
    method WriteField(firstBit: nat, lastBit: nat, value: nat, ghost was: seq<bool>, ghost field: seq<bool>)
      requires 8 * slowControlBitStream.Length == SLOW_CONTROL_BITSTREAM_NBITS
      requires firstBit <= lastBit < SLOW_CONTROL_BITSTREAM_NBITS
      requires was == Register() && field == FromNat(value, lastBit - firstBit + 1)
      modifies slowControlBitStream
      ensures PartWritten(was, field, firstBit, |field|, Register())
    {
      var n := firstBit;
      while n <= lastBit
        invariant firstBit <= n <= lastBit + 1
        invariant PartWritten(was, field, firstBit, n - firstBit, Register())
      {
        WriteNext(was, field, firstBit, n, BitAt(value, lastBit - n)) by {
          FromNatAt(value, |field|, n - firstBit);
        }
        n := n + 1;
      }
    }

    method SetBits(firstBit: nat, lastBit: nat, value: nat)
      requires 8 * slowControlBitStream.Length == SLOW_CONTROL_BITSTREAM_NBITS
      requires firstBit <= lastBit < SLOW_CONTROL_BITSTREAM_NBITS
      modifies slowControlBitStream
      ensures Register() == old(Register())[..firstBit] + FromNat(value, lastBit - firstBit + 1)
                            + old(Register())[lastBit + 1..]
    {
      ghost var was, field := Register(), FromNat(value, lastBit - firstBit + 1);
      WriteField(firstBit, lastBit, value, was, field);
      PartComplete(was, field, firstBit, lastBit + 1, Register());
    }

    method ReadNext(ghost field: seq<bool>, firstBit: nat, lastBit: nat, n: nat, r: nat) returns (more: nat)
      requires 8 * slowControlBitStream.Length == SLOW_CONTROL_BITSTREAM_NBITS
      requires firstBit <= n <= lastBit < SLOW_CONTROL_BITSTREAM_NBITS
      requires field == Register()[firstBit..lastBit + 1] && Spelled(field, n - firstBit, r)
      ensures Spelled(field, n + 1 - firstBit, more)
    {
      var bit := GetBit(n, slowControlBitStream, SLOW_CONTROL_BITSTREAM_NBITS);
      ShiftIn(field, n - firstBit, bit, r, lastBit - n);
      more := r + bit * Pow2(lastBit - n); // r |= bit << (last_bit - bit_number), the bits below being clear
    }

    method GetBits(firstBit: nat, lastBit: nat) returns (r: nat)
      requires 8 * slowControlBitStream.Length == SLOW_CONTROL_BITSTREAM_NBITS
      requires firstBit <= lastBit < SLOW_CONTROL_BITSTREAM_NBITS
      ensures r == ToNat(Register()[firstBit..lastBit + 1])
    {
      r := 0;
      var n := firstBit;
      ghost var field := Register()[firstBit..lastBit + 1];
      ShiftedIsProduct(0, |field|);
      while n <= lastBit
        invariant firstBit <= n <= lastBit + 1
        invariant Spelled(field, n - firstBit, r)
      {
        r := ReadNext(field, firstBit, lastBit, n, r);
        n := n + 1;
      }
      assert field[..|field|] == field;
    }

    method WriteBooleans(parameters: map<BoolKey, BooleanParameter>, ghost s: Settings)
      requires 8 * slowControlBitStream.Length == SLOW_CONTROL_BITSTREAM_NBITS
      requires BooleansInPlace(parameters) && s.Complete()
      requires forall k | k in parameters :: s.booleans[k] == parameters[k].value
      modifies slowControlBitStream
      ensures forall n | old(Agrees(Register(), s, n)) :: Agrees(Register(), s, n)
      ensures forall k | k in parameters :: Agrees(Register(), s, BitOf(k))
    {
      var todo := parameters.Keys;
      while todo != {}
        invariant todo <= parameters.Keys
        invariant forall n | old(Agrees(Register(), s, n)) :: Agrees(Register(), s, n)
        invariant forall k | k in parameters && k !in todo :: Agrees(Register(), s, BitOf(k))
      {
        var k :| k in todo;
        PlaceOfBool(k);
        ghost var was := Register();
        var p := parameters[k];
        BitWritten(was, s, p.bitNumber);
        SetBit(p.bitNumber, p.value != p.invertedLogic, slowControlBitStream, SLOW_CONTROL_BITSTREAM_NBITS);
        todo := todo - {k};
      }
    }

    method WriteNumbers(parameters: map<NumberKey, NumericalParameter>, ghost s: Settings)
      requires 8 * slowControlBitStream.Length == SLOW_CONTROL_BITSTREAM_NBITS
      requires NumbersInPlace(parameters) && s.Complete()
      requires forall k | k in parameters :: s.numbers[k] == parameters[k].value
      modifies slowControlBitStream
      ensures forall n | old(Agrees(Register(), s, n)) :: Agrees(Register(), s, n)
      ensures forall k | k in parameters :: NumberAgrees(Register(), s, k)
    {
      var todo := parameters.Keys;
      while todo != {}
        invariant todo <= parameters.Keys
        invariant forall n | old(Agrees(Register(), s, n)) :: Agrees(Register(), s, n)
        invariant forall k | k in parameters && k !in todo :: NumberAgrees(Register(), s, k)
      {
        var k :| k in todo;
        WriteNumber(k, parameters[k], s);
        todo := todo - {k};
      }
    }

    method WriteNumber(k: NumberKey, p: NumericalParameter, ghost s: Settings)
      requires 8 * slowControlBitStream.Length == SLOW_CONTROL_BITSTREAM_NBITS
      requires IsNumberKey(k) && s.Complete() && s.numbers[k] == p.value
      requires p.firstBit == FirstBit(k) && p.lastBit == LastBit(k)
      modifies slowControlBitStream
      ensures forall n | old(Agrees(Register(), s, n)) :: Agrees(Register(), s, n)
      ensures NumberAgrees(Register(), s, k)
    {
      EncodedNumber(s, k);
      WriteEncoded(p.firstBit, p.lastBit, p.value, s);
    }

    /** A field takes the bits the register is to have there. */
    method WriteEncoded(firstBit: nat, lastBit: nat, value: nat, ghost s: Settings)
      requires 8 * slowControlBitStream.Length == SLOW_CONTROL_BITSTREAM_NBITS
      requires firstBit <= lastBit < SLOW_CONTROL_BITSTREAM_NBITS
      requires s.Complete() && FromNat(value, lastBit - firstBit + 1) == Encode(s)[firstBit..lastBit + 1]
      modifies slowControlBitStream
      ensures forall n | old(Agrees(Register(), s, n)) :: Agrees(Register(), s, n)
      ensures forall n: nat | firstBit <= n <= lastBit :: Agrees(Register(), s, n)
    {
      ghost var was := Register();
      SetBits(firstBit, lastBit, value);
      FieldWritten(was, Register(), s, FromNat(value, lastBit - firstBit + 1), firstBit, lastBit);
    }

    /** HumanToBitstream: whatever the image held before, it becomes the encoding of the parameters. */
    method HumanToBitstream()
      requires Valid()
      modifies slowControlBitStream
      ensures Register() == Encode(Values())
    {
      ghost var s := Values();
      WriteBooleans(booleanParameters, s);
      WriteBooleans(booleanChannelParameters, s);
      WriteNumbers(numericalParameters, s);
      WriteNumbers(numericalChannelParameters, s);
      AgreementIsComplete(Register(), s);
    }

    method ReadBooleans(parameters: map<BoolKey, BooleanParameter>) returns (r: map<BoolKey, BooleanParameter>)
      requires 8 * slowControlBitStream.Length == SLOW_CONTROL_BITSTREAM_NBITS
      requires BooleansInPlace(parameters)
      ensures r.Keys == parameters.Keys && BooleansInPlace(r)
      ensures forall k | k in r :: r[k].value == DecodeBool(Register(), k)
    {
      r := parameters;
      var todo := parameters.Keys;
      while todo != {}
        invariant todo <= parameters.Keys == r.Keys && BooleansInPlace(r)
        invariant forall k | k in r && k !in todo :: r[k].value == DecodeBool(Register(), k)
      {
        var k :| k in todo;
        PlaceOfBool(k);
        var bit := GetBit(r[k].bitNumber, slowControlBitStream, SLOW_CONTROL_BITSTREAM_NBITS);
        r := r[k := r[k].(value := (bit != 0) != r[k].invertedLogic)];
        todo := todo - {k};
      }
    }

    method ReadNumbers(parameters: map<NumberKey, NumericalParameter>) returns (r: map<NumberKey, NumericalParameter>)
      requires 8 * slowControlBitStream.Length == SLOW_CONTROL_BITSTREAM_NBITS
      requires NumbersInPlace(parameters)
      ensures r.Keys == parameters.Keys && NumbersInPlace(r)
      ensures forall k | k in r :: r[k].value == DecodeNumber(Register(), k)
    {
      r := parameters;
      var todo := parameters.Keys;
      while todo != {}
        invariant todo <= parameters.Keys == r.Keys && NumbersInPlace(r)
        invariant forall k | k in r && k !in todo :: r[k].value == DecodeNumber(Register(), k)
      {
        var k :| k in todo;
        PlaceOfNumber(k);
        var value := GetBits(r[k].firstBit, r[k].lastBit);
        r := r[k := r[k].(value := value)];
        todo := todo - {k};
      }
    }

    /** A cell of the channel table has been read into its parameter. */
    ghost predicate CellRead(channel: nat, p: nat, value: nat)
      requires p < |COLUMNS|
      reads this
    {
      match COLUMNS[p]
      case Switch(flag) =>
        var k := OfChannel(channel, flag);
        k in booleanChannelParameters && booleanChannelParameters[k].value == (value != 0)
      case Number(number) =>
        var k := OfChannelNumber(channel, number);
        k in numericalChannelParameters && numericalChannelParameters[k].value == value
    }

    method ReadCell(channel: nat, p: nat, value: nat) returns (ok: bool)
      requires Valid() && channel < NUMBER_OF_CHANNELS && p < |COLUMNS|
      modifies `booleanChannelParameters, `numericalChannelParameters
      ensures Valid() && (ok <==> CellFits(channel, p, value)) && (ok ==> CellRead(channel, p, value))
      ensures forall c, q, w | 0 <= q < |COLUMNS| && (c != channel || q != p) && old(CellRead(c, q, w)) ::
                CellRead(c, q, w)
    {
      match COLUMNS[p] {
        case Switch(flag) =>
          var k := OfChannel(channel, flag);
          booleanChannelParameters := booleanChannelParameters[k := booleanChannelParameters[k].(value := value != 0)];
        case Number(number) =>
          var k := OfChannelNumber(channel, number);
          if value > numericalChannelParameters[k].maxValue {
            return false;
          }
          numericalChannelParameters := numericalChannelParameters[k := numericalChannelParameters[k].(value := value)];
      }
      ok := true;
      forall q | 0 <= q < |COLUMNS| && q != p
        ensures COLUMNS[q] != COLUMNS[p]
      {
        ColumnsAreUnique(p, q);
      }
    }

    ghost predicate RowRead(channel: nat, row: seq<nat>, n: nat)
      requires n <= |row| && n <= |COLUMNS|
      reads this
    {
      forall q | 0 <= q < n :: CellRead(channel, q, row[q])
    }

    predicate RowFits(channel: nat, row: seq<nat>) {
      |row| == |COLUMNS| && forall q | 0 <= q < |row| :: CellFits(channel, q, row[q])
    }

    method ReadRow(channel: nat, row: seq<nat>) returns (ok: bool)
      requires Valid() && channel < NUMBER_OF_CHANNELS
      modifies `booleanChannelParameters, `numericalChannelParameters
      ensures Valid() && (ok <==> RowFits(channel, row)) && (ok ==> RowRead(channel, row, |row|))
      ensures forall c, q, w | 0 <= q < |COLUMNS| && c != channel && old(CellRead(c, q, w)) :: CellRead(c, q, w)
    {
      if |row| != |COLUMNS| {
        return false;
      }
      for p := 0 to |COLUMNS|
        invariant Valid() && RowRead(channel, row, p)
        invariant forall q | 0 <= q < p :: CellFits(channel, q, row[q])
        invariant forall c, q, w | 0 <= q < |COLUMNS| && c != channel && old(CellRead(c, q, w)) :: CellRead(c, q, w)
      {
        ok := ReadCell(channel, p, row[p]);
        if !ok {
          return;
        }
      }
      ok := true;
    }

    method ReadChannels(channels: seq<seq<nat>>) returns (ok: bool)
      requires Valid()
      modifies `booleanChannelParameters, `numericalChannelParameters
      ensures Valid()
      ensures ok <==> |channels| == NUMBER_OF_CHANNELS && forall c | 0 <= c < |channels| :: RowFits(c, channels[c])
      ensures ok ==> forall c | 0 <= c < |channels| :: RowRead(c, channels[c], |COLUMNS|)
    {
      if |channels| != NUMBER_OF_CHANNELS {
        return false;
      }
      for channel := 0 to NUMBER_OF_CHANNELS
        invariant Valid()
        invariant forall c | 0 <= c < channel :: RowFits(c, channels[c])
        invariant forall c | 0 <= c < channel :: RowRead(c, channels[c], |COLUMNS|)
      {
        ok := ReadRow(channel, channels[channel]);
        if !ok {
          return;
        }
      }
      ok := true;
    }

    /** The switches by name, up to one that is not there. */
    method ReadSwitches(parameters: map<BoolKey, BooleanParameter>, values: map<BoolKey, bool>)
        returns (r: map<BoolKey, BooleanParameter>, found: bool)
      requires BooleansInPlace(parameters)
      ensures BooleansInPlace(r) && r.Keys == parameters.Keys
      ensures found <==> parameters.Keys <= values.Keys
      ensures found ==> SwitchesRead(r, values)
    {
      r := parameters;
      var todo := parameters.Keys;
      while todo != {}
        invariant todo <= parameters.Keys == r.Keys && BooleansInPlace(r)
        invariant forall k | k in r && k !in todo :: k in values && r[k].value == values[k]
      {
        var k :| k in todo;
        if k !in values {
          return r, false;
        }
        r := r[k := r[k].(value := values[k])];
        todo := todo - {k};
      }
      found := true;
    }

    /** The numbers by name, stored before they are checked; the first one missing or too large ends the reading. */
    method ReadNumbersChecked(parameters: map<NumberKey, NumericalParameter>, values: map<NumberKey, nat>)
        returns (r: map<NumberKey, NumericalParameter>, outcome: Outcome)
      requires NumbersInPlace(parameters)
      ensures NumbersInPlace(r) && r.Keys == parameters.Keys
      ensures outcome == Accepted ==> parameters.Keys <= values.Keys && NumbersRead(r, values)
      ensures outcome == Accepted ==> forall k | k in parameters :: values[k] <= MaxValue(k)
      ensures outcome == Thrown ==> !(parameters.Keys <= values.Keys)
      ensures outcome == Refused ==> exists k :: k in parameters && k in values && values[k] > MaxValue(k)
    {
      r := parameters;
      var todo := parameters.Keys;
      while todo != {}
        invariant todo <= parameters.Keys == r.Keys && NumbersInPlace(r)
        invariant forall k | k in r && k !in todo :: k in values && r[k].value == values[k] <= MaxValue(k)
      {
        var k :| k in todo;
        if k !in values {
          return r, Thrown;
        }
        r := r[k := r[k].(value := values[k])];
        if r[k].value > r[k].maxValue {
          return r, Refused;
        }
        todo := todo - {k};
      }
      outcome := Accepted;
    }

    /**
     * read_human_readable_parameters: it throws only when a name is missing and refuses only what is out of
     * range; all else is taken over and comes back from the register unchanged. Otherwise the image is
     * not written.
     */
    method ReadHumanReadableParameters(f: NamedSettings) returns (outcome: Outcome)
      requires Valid()
      modifies this, slowControlBitStream
      ensures Valid() && (outcome == Accepted <==> f.Named() && f.InRange())
      ensures (outcome == Thrown ==> !f.Named()) && (outcome == Refused ==> !f.InRange())
      ensures outcome == Accepted ==> Values() == f.ToSettings() && Decode(Register()) == f.ToSettings()
      ensures outcome != Accepted ==> slowControlBitStream[..] == old(slowControlBitStream[..])
    {
      var found;
      booleanParameters, found := ReadSwitches(booleanParameters, f.booleans);
      if !found {
        return Thrown;
      }
      numericalParameters, outcome := ReadNumbersChecked(numericalParameters, f.numbers);
      if outcome != Accepted {
        return;
      }
      if !f.hasChannels {
        return Thrown;
      }
      var ok := ReadChannels(f.channels);
      if !ok {
        return Refused;
      }
      WriteNamed(f);
      outcome := Accepted;
    }

    method WriteNamed(ghost f: NamedSettings)
      requires Valid() && f.Named() && f.InRange() && TableRead(f.channels)
      requires SwitchesRead(booleanParameters, f.booleans) && NumbersRead(numericalParameters, f.numbers)
      modifies slowControlBitStream
      ensures Values() == f.ToSettings() && Decode(Register()) == f.ToSettings()
    {
      BooleansAreRead(f);
      NumbersAreRead(f);
      HumanToBitstream();
      AcceptedSurvives(f);
    }

    ghost predicate TableRead(channels: seq<seq<nat>>)
      requires forall c | 0 <= c < |channels| :: |channels[c]| == |COLUMNS|
      reads this
    {
      forall c | 0 <= c < |channels| :: RowRead(c, channels[c], |COLUMNS|)
    }

    lemma {:induction false} BooleansAreRead(f: NamedSettings)
      requires Valid() && f.Named() && f.WellShaped() && TableRead(f.channels)
      requires SwitchesRead(booleanParameters, f.booleans)
      ensures Values().booleans == f.ToSettings().booleans
    {
      forall k | k in BoolKeys()
        ensures Values().booleans[k] == f.BoolValue(k)
      {
        BooleanIsRead(f, k);
      }
    }

    lemma {:induction false} BooleanIsRead(f: NamedSettings, k: BoolKey)
      requires Valid() && f.Named() && f.WellShaped() && TableRead(f.channels) && IsBoolKey(k)
      requires SwitchesRead(booleanParameters, f.booleans)
      ensures Values().booleans[k] == f.BoolValue(k)
    {
      if k.OfChannel? {
        var p, row := ColumnOfFlag(k.channelFlag), f.channels[k.channel];
        assert RowRead(k.channel, row, |COLUMNS|) && CellRead(k.channel, p, row[p]);
      } else {
        assert booleanParameters[k].value == f.booleans[k];
      }
    }

    lemma {:induction false} NumbersAreRead(f: NamedSettings)
      requires Valid() && f.Named() && f.WellShaped() && TableRead(f.channels)
      requires NumbersRead(numericalParameters, f.numbers)
      ensures Values().numbers == f.ToSettings().numbers
    {
      forall k | k in NumberKeys()
        ensures Values().numbers[k] == f.NumberValue(k)
      {
        NumberIsRead(f, k);
      }
    }

    lemma {:induction false} NumberIsRead(f: NamedSettings, k: NumberKey)
      requires Valid() && f.Named() && f.WellShaped() && TableRead(f.channels) && IsNumberKey(k)
      requires NumbersRead(numericalParameters, f.numbers)
      ensures Values().numbers[k] == f.NumberValue(k)
    {
      if k.OfChannelNumber? {
        var p, row := ColumnOfNumber(k.channelNumber), f.channels[k.channel];
        assert RowRead(k.channel, row, |COLUMNS|) && CellRead(k.channel, p, row[p]);
      } else {
        assert numericalParameters[k].value == f.numbers[k];
      }
    }

    /** BitstreamToHuman: every parameter takes the value the image spells. */
    method BitstreamToHuman()
      requires Valid()
      modifies this
      ensures Valid() && Values() == Decode(Register())
    {
      booleanParameters := ReadBooleans(booleanParameters);
      booleanChannelParameters := ReadBooleans(booleanChannelParameters);
      numericalParameters := ReadNumbers(numericalParameters);
      numericalChannelParameters := ReadNumbers(numericalChannelParameters);
      ValuesAreDecoded(booleanParameters, booleanChannelParameters, numericalParameters,
                       numericalChannelParameters, Register());
    }
  }

  /** The first i bits of a field are written over a register. */
  ghost predicate PartWritten(was: seq<bool>, field: seq<bool>, first: nat, i: nat, bits: seq<bool>) {
    first + i <= |was| && i <= |field| && bits == was[..first] + field[..i] + was[first + i..]
  }

  lemma {:induction false} PartComplete(was: seq<bool>, field: seq<bool>, first: nat, end: nat, bits: seq<bool>)
    requires PartWritten(was, field, first, |field|, bits) && end == first + |field|
    ensures bits == was[..first] + field + was[end..]
  {
    assert field[..|field|] == field;
  }

  lemma {:induction false} PartGrows(was: seq<bool>, field: seq<bool>, first: nat, i: nat, bits: seq<bool>)
    requires PartWritten(was, field, first, i, bits) && first + i < |was| && i < |field|
    ensures PartWritten(was, field, first, i + 1, bits[first + i := field[i]])
  {
  }

  lemma FieldWritten(was: seq<bool>, bits: seq<bool>, s: Settings, field: seq<bool>, first: nat, last: nat)
    requires s.Complete() && |was| == SLOW_CONTROL_BITSTREAM_NBITS && first <= last < |was|
    requires field == Encode(s)[first..last + 1] && bits == was[..first] + field + was[last + 1..]
    ensures forall n | Agrees(was, s, n) :: Agrees(bits, s, n)
    ensures forall n: nat | first <= n <= last :: Agrees(bits, s, n)
  {
    forall n: nat | n < |was|
      ensures bits[n] == if first <= n <= last then Encode(s)[n] else was[n]
    {
    }
  }

  lemma BitWritten(was: seq<bool>, s: Settings, n: nat)
    requires s.Complete() && |was| == SLOW_CONTROL_BITSTREAM_NBITS && n < |was|
    ensures forall m | Agrees(was, s, m) :: Agrees(was[n := Encode(s)[n]], s, m)
    ensures Agrees(was[n := Encode(s)[n]], s, n)
  {
  }

  lemma ValuesAreDecoded(booleans: map<BoolKey, BooleanParameter>, channelBooleans: map<BoolKey, BooleanParameter>,
                         numbers: map<NumberKey, NumericalParameter>,
                         channelNumbers: map<NumberKey, NumericalParameter>, bits: seq<bool>)
    requires |bits| == SLOW_CONTROL_BITSTREAM_NBITS
    requires booleans.Keys == FebBoolKeys() && channelBooleans.Keys == ChannelBoolKeys()
    requires numbers.Keys == FebNumberKeys() && channelNumbers.Keys == ChannelNumberKeys()
    requires BooleansInPlace(booleans) && BooleansInPlace(channelBooleans)
    requires NumbersInPlace(numbers) && NumbersInPlace(channelNumbers)
    requires forall k | k in booleans :: booleans[k].value == DecodeBool(bits, k)
    requires forall k | k in channelBooleans :: channelBooleans[k].value == DecodeBool(bits, k)
    requires forall k | k in numbers :: numbers[k].value == DecodeNumber(bits, k)
    requires forall k | k in channelNumbers :: channelNumbers[k].value == DecodeNumber(bits, k)
    ensures BoolValues(booleans) + BoolValues(channelBooleans) == Decode(bits).booleans
    ensures NumberValues(numbers) + NumberValues(channelNumbers) == Decode(bits).numbers
  {
  }

  /** v << k. */
  function Shifted(v: nat, k: nat): nat
    decreases k
  {
    if k == 0 then v else Shifted(2 * v, k - 1)
  }

  lemma {:induction false} ShiftedIsProduct(v: nat, k: nat)
    ensures Shifted(v, k) == v * Pow2(k)
    decreases k
  {
    if k > 0 {
      ShiftedIsProduct(2 * v, k - 1);
      assert 2 * v * Pow2(k - 1) == v * (2 * Pow2(k - 1));
    }
  }

  lemma {:induction false} ShiftedSum(a: nat, b: nat, k: nat)
    ensures Shifted(a + b, k) == Shifted(a, k) + Shifted(b, k)
    decreases k
  {
    if k > 0 {
      ShiftedSum(2 * a, 2 * b, k - 1);
    }
  }

  /** The first i bits of a field are read, as the high bits of the number. */
  ghost predicate Spelled(field: seq<bool>, i: nat, r: nat) {
    i <= |field| && r == Shifted(ToNat(field[..i]), |field| - i)
  }

  /** Adding the next bit of a field, shifted into place, to the bits read so far. */
  lemma {:induction false} ShiftIn(field: seq<bool>, i: nat, bit: nat, r: nat, left: nat)
    requires i < |field| && bit == (if field[i] then 1 else 0) && left == |field| - i - 1 && Spelled(field, i, r)
    ensures Spelled(field, i + 1, r + bit * Pow2(left))
  {
    assert field[..i + 1][..i] == field[..i];
    ShiftedSum(2 * ToNat(field[..i]), bit, left);
    ShiftedIsProduct(bit, left);
  }
}
