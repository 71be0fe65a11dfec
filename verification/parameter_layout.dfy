/**
 * The named parameters of the slow-control register: where each one lives, which of them
 * are stored inverted, and what the largest value of each number is.
 */
module ParameterLayout {
  import opened Bits

  const SLOW_CONTROL_BITSTREAM_NBITS: nat := 1144
  const NUMBER_OF_CHANNELS: nat := 32

  /** Switches that appear once per front-end board. */
  datatype FebFlag =
    | EnableChargeDiscriminator | EnableChargeDiscriminatorPP | LatchedOutput | EnableTimeDiscriminator
    | EnableTimeDiscriminatorPP | Enable4bitChargeDAC | Enable4bitChargeDACPP | Enable4bitTimeDAC
    | Enable4bitTimeDACPP | EnableHGSCAPP | EnableHGSCA | EnableLGSCAPP | EnableLGSCA | SCAHighBias
    | HGPeakDetectorPP | EnableHGPeakDetector | LGPeakDetectorPP | EnableLGPeakDetector | SelectHGMode
    | SelectLGMode | BypassPeakSensingCell | PeakSensingCell | EnableFastShaperFollowerPP | EnableFastShaper
    | EnableFastShaperPP | EnableLGSlowShaperPP | EnableLGSlowShaper | EnableHGSlowShaperPP
    | EnableHGSlowShaper | LGPreampBias | EnableHGPreampPP | EnableHGPreamp | EnableLGPreampPP
    | EnableLGPreamp | PreampConnectedToFastShaper | Enable32Input8bitDAC | InputDACVoltageReference
    | EnableTemperatureSensorPP | EnableTemperatureSensor | EnableBandGapSensorPP | EnableBandGapSensor
    | EnableChargeDAC | EnableChargeDACPP | EnableTimeDAC | EnableTimeDACPP | EnableHGOTA | EnableHGOTAPP
    | EnableLGOTA | EnableLGOTAPP | EnableProbeOTA | EnableProbeOTAPP | EnableOTAQTestBit | EnableVALEVTOTA
    | EnableVALEVTOTAPP | EnableRAZCHNOTA | EnableRAZCHNOTAPP | EnableDigitalMultiplexedOutput
    | EnableOR32Output | EnableOR32OpenCollectorOutput | TriggerPolarity
    | EnableDigitalOR32TOpenCollectorOutput | Enable32ChannelsTriggersOutput

  datatype ChannelFlag = ActivateDiscriminator | HighHighBias | TestHG | TestLG | EnablePreamp

  datatype FebNumber = LGShaperTimeConstant | HGShaperTimeConstant | ChargeThreshold | TimeThreshold

  datatype ChannelNumber = TimeThresholdAdjustment | ChargeThresholdAdjustment | HV | HGGain | LGGain

  /** Keys of the two boolean parameter maps and of the two numerical ones. */
  datatype BoolKey = OfFeb(flag: FebFlag) | OfChannel(channel: nat, channelFlag: ChannelFlag)
  datatype NumberKey = OfFebNumber(number: FebNumber) | OfChannelNumber(channel: nat, channelNumber: ChannelNumber)

  predicate IsBoolKey(k: BoolKey) {
    k.OfChannel? ==> k.channel < NUMBER_OF_CHANNELS
  }

  predicate IsNumberKey(k: NumberKey) {
    k.OfChannelNumber? ==> k.channel < NUMBER_OF_CHANNELS
  }

  function FebBoolKeys(): (keys: set<BoolKey>)
    ensures forall k :: k in keys <==> k.OfFeb?
  {
    set flag: FebFlag | true :: OfFeb(flag)
  }

  function ChannelBoolKeys(): (keys: set<BoolKey>)
    ensures forall k :: k in keys <==> k.OfChannel? && IsBoolKey(k)
  {
    set c, flag: ChannelFlag | 0 <= c < NUMBER_OF_CHANNELS :: OfChannel(c, flag)
  }

  function FebNumberKeys(): (keys: set<NumberKey>)
    ensures forall k :: k in keys <==> k.OfFebNumber?
  {
    set number: FebNumber | true :: OfFebNumber(number)
  }

  function ChannelNumberKeys(): (keys: set<NumberKey>)
    ensures forall k :: k in keys <==> k.OfChannelNumber? && IsNumberKey(k)
  {
    set c, number: ChannelNumber | 0 <= c < NUMBER_OF_CHANNELS :: OfChannelNumber(c, number)
  }

  function BoolKeys(): set<BoolKey> {
    FebBoolKeys() + ChannelBoolKeys()
  }

  function NumberKeys(): set<NumberKey> {
    FebNumberKeys() + ChannelNumberKeys()
  }

  function FlagBit(f: FebFlag): nat {
    match f
    case EnableChargeDiscriminator => 256
    case EnableChargeDiscriminatorPP => 257
    case LatchedOutput => 258
    case EnableTimeDiscriminator => 259
    case EnableTimeDiscriminatorPP => 260
    case Enable4bitChargeDAC => 261
    case Enable4bitChargeDACPP => 262
    case Enable4bitTimeDAC => 263
    case Enable4bitTimeDACPP => 264
    case EnableHGSCAPP => 297
    case EnableHGSCA => 298
    case EnableLGSCAPP => 299
    case EnableLGSCA => 300
    case SCAHighBias => 301
    case HGPeakDetectorPP => 302
    case EnableHGPeakDetector => 303
    case LGPeakDetectorPP => 304
    case EnableLGPeakDetector => 305
    case SelectHGMode => 306
    case SelectLGMode => 307
    case BypassPeakSensingCell => 308
    case PeakSensingCell => 309
    case EnableFastShaperFollowerPP => 310
    case EnableFastShaper => 311
    case EnableFastShaperPP => 312
    case EnableLGSlowShaperPP => 313
    case EnableLGSlowShaper => 314
    case EnableHGSlowShaperPP => 318
    case EnableHGSlowShaper => 319
    case LGPreampBias => 323
    case EnableHGPreampPP => 324
    case EnableHGPreamp => 325
    case EnableLGPreampPP => 326
    case EnableLGPreamp => 327
    case PreampConnectedToFastShaper => 328
    case Enable32Input8bitDAC => 329
    case InputDACVoltageReference => 330
    case EnableTemperatureSensorPP => 1099
    case EnableTemperatureSensor => 1100
    case EnableBandGapSensorPP => 1101
    case EnableBandGapSensor => 1102
    case EnableChargeDAC => 1103
    case EnableChargeDACPP => 1104
    case EnableTimeDAC => 1105
    case EnableTimeDACPP => 1106
    case EnableHGOTA => 1127
    case EnableHGOTAPP => 1128
    case EnableLGOTA => 1129
    case EnableLGOTAPP => 1130
    case EnableProbeOTA => 1131
    case EnableProbeOTAPP => 1132
    case EnableOTAQTestBit => 1133
    case EnableVALEVTOTA => 1134
    case EnableVALEVTOTAPP => 1135
    case EnableRAZCHNOTA => 1136
    case EnableRAZCHNOTAPP => 1137
    case EnableDigitalMultiplexedOutput => 1138
    case EnableOR32Output => 1139
    case EnableOR32OpenCollectorOutput => 1140
    case TriggerPolarity => 1141
    case EnableDigitalOR32TOpenCollectorOutput => 1142
    case Enable32ChannelsTriggersOutput => 1143
  }

  function BitOf(k: BoolKey): nat {
    match k
    case OfFeb(flag) => FlagBit(flag)
    case OfChannel(c, ActivateDiscriminator) => 265 + c
    case OfChannel(c, HighHighBias) => 339 + c * 9
    case OfChannel(c, TestHG) => 631 + c * 15
    case OfChannel(c, TestLG) => 632 + c * 15
    case OfChannel(c, EnablePreamp) => 633 + c * 15
  }

  /** Parameters whose `true` is stored as a 0 bit. */
  predicate InvertedFlag(f: FebFlag) {
    f.EnableChargeDiscriminatorPP? ||
    f.EnableTimeDiscriminatorPP? ||
    f.EnableHGSCA? ||
    f.EnableLGSCA? ||
    f.EnableHGPeakDetector? ||
    f.EnableLGPeakDetector? ||
    f.EnableFastShaperFollowerPP? ||
    f.EnableFastShaperPP? ||
    f.EnableLGSlowShaperPP? ||
    f.EnableHGSlowShaperPP? ||
    f.LGPreampBias? ||
    f.EnableHGPreampPP? ||
    f.EnableLGPreampPP? ||
    f.EnableTemperatureSensorPP? ||
    f.EnableBandGapSensorPP? ||
    f.EnableChargeDACPP? ||
    f.EnableTimeDACPP? ||
    f.EnableHGOTAPP? ||
    f.EnableLGOTAPP? ||
    f.EnableProbeOTAPP? ||
    f.EnableVALEVTOTAPP? ||
    f.EnableRAZCHNOTAPP?
  }

  predicate Inverted(k: BoolKey) {
    match k
    case OfFeb(flag) => InvertedFlag(flag)
    case OfChannel(_, flag) => flag.EnablePreamp?
  }

  function FirstBit(k: NumberKey): nat {
    match k
    case OfFebNumber(LGShaperTimeConstant) => 315
    case OfFebNumber(HGShaperTimeConstant) => 320
    case OfFebNumber(ChargeThreshold) => 1107
    case OfFebNumber(TimeThreshold) => 1117
    case OfChannelNumber(c, TimeThresholdAdjustment) => c * 4
    case OfChannelNumber(c, ChargeThresholdAdjustment) => 128 + c * 4
    case OfChannelNumber(c, HV) => 331 + c * 9
    case OfChannelNumber(c, HGGain) => 619 + c * 15
    case OfChannelNumber(c, LGGain) => 625 + c * 15
  }

  function LastBit(k: NumberKey): (n: nat)
    ensures n >= FirstBit(k)
  {
    match k
    case OfFebNumber(LGShaperTimeConstant) => 317
    case OfFebNumber(HGShaperTimeConstant) => 322
    case OfFebNumber(ChargeThreshold) => 1116
    case OfFebNumber(TimeThreshold) => 1126
    case OfChannelNumber(c, TimeThresholdAdjustment) => 3 + c * 4
    case OfChannelNumber(c, ChargeThresholdAdjustment) => 131 + c * 4
    case OfChannelNumber(c, HV) => 338 + c * 9
    case OfChannelNumber(c, HGGain) => 624 + c * 15
    case OfChannelNumber(c, LGGain) => 630 + c * 15
  }

  function MaxValue(k: NumberKey): nat {
    match k
    case OfFebNumber(LGShaperTimeConstant) => 7
    case OfFebNumber(HGShaperTimeConstant) => 7
    case OfFebNumber(ChargeThreshold) => 1023
    case OfFebNumber(TimeThreshold) => 1023
    case OfChannelNumber(_, TimeThresholdAdjustment) => 15
    case OfChannelNumber(_, ChargeThresholdAdjustment) => 15
    case OfChannelNumber(_, HV) => 255
    case OfChannelNumber(_, HGGain) => 63
    case OfChannelNumber(_, LGGain) => 63
  }

  function Width(k: NumberKey): nat {
    LastBit(k) - FirstBit(k) + 1
  }

  /** Each maximum is exactly what the parameter's bits can hold. */
  lemma MaxValueFillsWidth(k: NumberKey)
    ensures MaxValue(k) == Pow2(Width(k)) - 1
  {
    assert Pow2(3) == 8;
    assert Pow2(4) == 16;
    assert Pow2(6) == 64;
    assert Pow2(7) == 128;
    assert Pow2(8) == 256;
    assert Pow2(9) == 512;
    assert Pow2(10) == 1024;
  }

  /** A named parameter of either kind. */
  datatype Parameter = Boolean(boolKey: BoolKey) | Numerical(numberKey: NumberKey) {
    predicate Exists() {
      match this
      case Boolean(k) => IsBoolKey(k)
      case Numerical(k) => IsNumberKey(k)
    }

    predicate Covers(n: nat) {
      match this
      case Boolean(k) => n == BitOf(k)
      case Numerical(k) => FirstBit(k) <= n <= LastBit(k)
    }
  }

  function DiscriminatorFlagAt(n: nat): FebFlag {
    match n
    case 256 => EnableChargeDiscriminator
    case 257 => EnableChargeDiscriminatorPP
    case 258 => LatchedOutput
    case 259 => EnableTimeDiscriminator
    case 260 => EnableTimeDiscriminatorPP
    case 261 => Enable4bitChargeDAC
    case 262 => Enable4bitChargeDACPP
    case 263 => Enable4bitTimeDAC
    case _ => Enable4bitTimeDACPP
  }

  function PeakFlagAt(n: nat): FebFlag {
    match n
    case 297 => EnableHGSCAPP
    case 298 => EnableHGSCA
    case 299 => EnableLGSCAPP
    case 300 => EnableLGSCA
    case 301 => SCAHighBias
    case 302 => HGPeakDetectorPP
    case 303 => EnableHGPeakDetector
    case 304 => LGPeakDetectorPP
    case _ => EnableLGPeakDetector
  }

  function ShaperFlagAt(n: nat): FebFlag {
    match n
    case 306 => SelectHGMode
    case 307 => SelectLGMode
    case 308 => BypassPeakSensingCell
    case 309 => PeakSensingCell
    case 310 => EnableFastShaperFollowerPP
    case 311 => EnableFastShaper
    case 312 => EnableFastShaperPP
    case 313 => EnableLGSlowShaperPP
    case _ => EnableLGSlowShaper
  }

  function PreampFlagAt(n: nat): FebFlag {
    match n
    case 318 => EnableHGSlowShaperPP
    case 319 => EnableHGSlowShaper
    case 323 => LGPreampBias
    case 324 => EnableHGPreampPP
    case 325 => EnableHGPreamp
    case 326 => EnableLGPreampPP
    case 327 => EnableLGPreamp
    case 328 => PreampConnectedToFastShaper
    case 329 => Enable32Input8bitDAC
    case _ => InputDACVoltageReference
  }

  function SensorFlagAt(n: nat): FebFlag {
    match n
    case 1099 => EnableTemperatureSensorPP
    case 1100 => EnableTemperatureSensor
    case 1101 => EnableBandGapSensorPP
    case 1102 => EnableBandGapSensor
    case 1103 => EnableChargeDAC
    case 1104 => EnableChargeDACPP
    case 1105 => EnableTimeDAC
    case _ => EnableTimeDACPP
  }

  function AmplifierFlagAt(n: nat): FebFlag {
    match n
    case 1127 => EnableHGOTA
    case 1128 => EnableHGOTAPP
    case 1129 => EnableLGOTA
    case 1130 => EnableLGOTAPP
    case 1131 => EnableProbeOTA
    case 1132 => EnableProbeOTAPP
    case 1133 => EnableOTAQTestBit
    case 1134 => EnableVALEVTOTA
    case 1135 => EnableVALEVTOTAPP
    case 1136 => EnableRAZCHNOTA
    case _ => EnableRAZCHNOTAPP
  }

  function OutputFlagAt(n: nat): FebFlag {
    match n
    case 1138 => EnableDigitalMultiplexedOutput
    case 1139 => EnableOR32Output
    case 1140 => EnableOR32OpenCollectorOutput
    case 1141 => TriggerPolarity
    case 1142 => EnableDigitalOR32TOpenCollectorOutput
    case _ => Enable32ChannelsTriggersOutput
  }

  /** The switch stored at bit n, for the bits that hold one. */
  function FlagAt(n: nat): FebFlag {
    if n < 265 then DiscriminatorFlagAt(n)
    else if n < 306 then PeakFlagAt(n)
    else if n < 315 then ShaperFlagAt(n)
    else if n < 331 then PreampFlagAt(n)
    else if n < 1107 then SensorFlagAt(n)
    else if n < 1138 then AmplifierFlagAt(n)
    else OutputFlagAt(n)
  }

  /** The parameter found by reading the register map from the bit side. */
  function OwnerOf(n: nat): Parameter
    requires n < SLOW_CONTROL_BITSTREAM_NBITS
  {
    if n < 128 then Numerical(OfChannelNumber(n / 4, TimeThresholdAdjustment))
    else if n < 256 then Numerical(OfChannelNumber((n - 128) / 4, ChargeThresholdAdjustment))
    else if n < 265 then Boolean(OfFeb(FlagAt(n)))
    else if n < 297 then Boolean(OfChannel(n - 265, ActivateDiscriminator))
    else if 315 <= n <= 317 then Numerical(OfFebNumber(LGShaperTimeConstant))
    else if 320 <= n <= 322 then Numerical(OfFebNumber(HGShaperTimeConstant))
    else if n < 331 then Boolean(OfFeb(FlagAt(n)))
    else if n < 619 then
      var c, offset := (n - 331) / 9, (n - 331) % 9;
      if offset < 8 then Numerical(OfChannelNumber(c, HV)) else Boolean(OfChannel(c, HighHighBias))
    else if n < 1099 then
      var c, offset := (n - 619) / 15, (n - 619) % 15;
      if offset < 6 then Numerical(OfChannelNumber(c, HGGain))
      else if offset < 12 then Numerical(OfChannelNumber(c, LGGain))
      else if offset == 12 then Boolean(OfChannel(c, TestHG))
      else if offset == 13 then Boolean(OfChannel(c, TestLG))
      else Boolean(OfChannel(c, EnablePreamp))
    else if 1107 <= n <= 1116 then Numerical(OfFebNumber(ChargeThreshold))
    else if 1117 <= n <= 1126 then Numerical(OfFebNumber(TimeThreshold))
    else Boolean(OfFeb(FlagAt(n)))
  }

  predicate HoldsFlag(n: nat) {
    256 <= n < 265 || 297 <= n < 315 || 318 <= n < 320 || 323 <= n < 331 || 1099 <= n < 1107 || 1127 <= n < 1144
  }

  lemma FlagAtFlagBit(f: FebFlag)
    ensures HoldsFlag(FlagBit(f)) && FlagAt(FlagBit(f)) == f
  {
    HoldsFlagBit(f);
    var n := FlagBit(f);
    if n < 265 {
      DiscriminatorFlags(f);
    } else if n < 306 {
      PeakFlags(f);
    } else if n < 315 {
      ShaperFlags(f);
    } else if n < 331 {
      PreampFlags(f);
    } else if n < 1107 {
      SensorFlags(f);
    } else if n < 1138 {
      AmplifierFlags(f);
    } else {
      OutputFlags(f);
    }
  }

  lemma HoldsFlagBit(f: FebFlag)
    ensures HoldsFlag(FlagBit(f))
  {
  }

  lemma DiscriminatorFlags(f: FebFlag)
    requires FlagBit(f) < 265
    ensures DiscriminatorFlagAt(FlagBit(f)) == f
  {
  }

  lemma PeakFlags(f: FebFlag)
    requires 265 <= FlagBit(f) < 306
    ensures PeakFlagAt(FlagBit(f)) == f
  {
  }

  lemma ShaperFlags(f: FebFlag)
    requires 306 <= FlagBit(f) < 315
    ensures ShaperFlagAt(FlagBit(f)) == f
  {
  }

  lemma PreampFlags(f: FebFlag)
    requires 315 <= FlagBit(f) < 331
    ensures PreampFlagAt(FlagBit(f)) == f
  {
  }

  lemma SensorFlags(f: FebFlag)
    requires 331 <= FlagBit(f) < 1107
    ensures SensorFlagAt(FlagBit(f)) == f
  {
  }

  lemma AmplifierFlags(f: FebFlag)
    requires 1107 <= FlagBit(f) < 1138
    ensures AmplifierFlagAt(FlagBit(f)) == f
  {
  }

  lemma OutputFlags(f: FebFlag)
    requires FlagBit(f) >= 1138
    ensures OutputFlagAt(FlagBit(f)) == f
  {
  }

  lemma FlagBitFlagAt(n: nat)
    requires HoldsFlag(n)
    ensures FlagBit(FlagAt(n)) == n
  {
    if n < 265 {
      DiscriminatorBits(n);
    } else if n < 306 {
      PeakBits(n);
    } else if n < 315 {
      ShaperBits(n);
    } else if n < 331 {
      PreampBits(n);
    } else if n < 1107 {
      SensorBits(n);
    } else if n < 1138 {
      AmplifierBits(n);
    } else {
      OutputBits(n);
    }
  }

  lemma DiscriminatorBits(n: nat)
    requires HoldsFlag(n) && n < 265
    ensures FlagBit(DiscriminatorFlagAt(n)) == n
  {
  }

  lemma PeakBits(n: nat)
    requires HoldsFlag(n) && 265 <= n < 306
    ensures FlagBit(PeakFlagAt(n)) == n
  {
  }

  lemma ShaperBits(n: nat)
    requires HoldsFlag(n) && 306 <= n < 315
    ensures FlagBit(ShaperFlagAt(n)) == n
  {
  }

  lemma PreampBits(n: nat)
    requires HoldsFlag(n) && 315 <= n < 331
    ensures FlagBit(PreampFlagAt(n)) == n
  {
  }

  lemma SensorBits(n: nat)
    requires HoldsFlag(n) && 331 <= n < 1107
    ensures FlagBit(SensorFlagAt(n)) == n
  {
  }

  lemma AmplifierBits(n: nat)
    requires HoldsFlag(n) && 1107 <= n < 1138
    ensures FlagBit(AmplifierFlagAt(n)) == n
  {
  }

  lemma OutputBits(n: nat)
    requires HoldsFlag(n) && n >= 1138
    ensures FlagBit(OutputFlagAt(n)) == n
  {
  }

  /** Bits and parameters match one to one: the table leaves no gap and no overlap in 0..1143. */
  lemma TableTilesRegister(n: nat, p: Parameter)
    requires n < SLOW_CONTROL_BITSTREAM_NBITS
    ensures p.Exists() && p.Covers(n) <==> p == OwnerOf(n)
  {
    if p.Exists() && p.Covers(n) {
      OwnerIsUnique(n, p);
    }
    OwnerCovers(n);
  }

  lemma OwnerIsUnique(n: nat, p: Parameter)
    requires n < SLOW_CONTROL_BITSTREAM_NBITS
    requires p.Exists() && p.Covers(n)
    ensures p == OwnerOf(n)
  {
    match p
    case Boolean(OfFeb(flag)) => FlagAtFlagBit(flag);
    case Boolean(OfChannel(c, flag)) => ChannelFlagOwnsBit(c, flag);
    case Numerical(k) => NumberOwnsBits(k, n);
  }

  lemma ChannelFlagOwnsBit(c: nat, flag: ChannelFlag)
    requires c < NUMBER_OF_CHANNELS
    ensures BitOf(OfChannel(c, flag)) < SLOW_CONTROL_BITSTREAM_NBITS
    ensures OwnerOf(BitOf(OfChannel(c, flag))) == Boolean(OfChannel(c, flag))
  {
  }

  lemma NumberOwnsBits(k: NumberKey, n: nat)
    requires IsNumberKey(k) && FirstBit(k) <= n <= LastBit(k)
    ensures n < SLOW_CONTROL_BITSTREAM_NBITS && OwnerOf(n) == Numerical(k)
  {
    match k
    case OfFebNumber(_) =>
    case OfChannelNumber(c, number) => ChannelNumberOwnsBits(c, number, n);
  }

  lemma ChannelNumberOwnsBits(c: nat, number: ChannelNumber, n: nat)
    requires c < NUMBER_OF_CHANNELS
    requires FirstBit(OfChannelNumber(c, number)) <= n <= LastBit(OfChannelNumber(c, number))
    ensures n < SLOW_CONTROL_BITSTREAM_NBITS && OwnerOf(n) == Numerical(OfChannelNumber(c, number))
  {
    match number
    case TimeThresholdAdjustment => ModUnique(n, 4, c, n - 4 * c);
    case ChargeThresholdAdjustment => ModUnique(n - 128, 4, c, n - 128 - 4 * c);
    case HV => ModUnique(n - 331, 9, c, n - 331 - 9 * c);
    case HGGain => ModUnique(n - 619, 15, c, n - 619 - 15 * c);
    case LGGain => ModUnique(n - 619, 15, c, n - 619 - 15 * c);
  }

  lemma OwnerCovers(n: nat)
    requires n < SLOW_CONTROL_BITSTREAM_NBITS
    ensures OwnerOf(n).Exists() && OwnerOf(n).Covers(n)
  {
    if HoldsFlag(n) {
      FlagBitFlagAt(n);
    }
  }

  /** No parameter reaches past the last bit of the register. */
  lemma TableStaysInRegister(p: Parameter, n: nat)
    requires p.Exists() && p.Covers(n)
    ensures n < SLOW_CONTROL_BITSTREAM_NBITS
  {
    if p.Boolean? && p.boolKey.OfFeb? {
      FlagAtFlagBit(p.boolKey.flag);
    }
  }
}
