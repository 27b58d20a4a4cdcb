/**
 The packed 250-byte configuration record exchanged with the master
 controller: its fields, its defaults, its flag bits, the test-mode codes,
 and a byte-exact codec with round-trip lemmas.
 */
module ConfigRecord {
  import opened Bytes
  import opened Wrappers

  /** Number of panels on a pad. */
  const PanelCount: nat := 9
  /** Sensors per panel. */
  const SensorsPerPanel: nat := 4
  /** Size of the packed record on the wire. */
  const ConfigSize: nat := 250
  /** Size of one packed per-panel sensor block. */
  const PanelBlockSize: nat := 16
  /** Offset of the first per-panel block. */
  const PanelsOffset: nat := 56
  /** Offset of the padding block. */
  const PaddingOffset: nat := 201

  /** One panel's thresholds (`packed_sensor_settings_t`). FSR cells are
      bounded naturals: the configuration tool writes values above 255 into
      them, which the wire format cannot carry (see `WireValid`). */
  datatype PanelSettings = PanelSettings(
    loadCellLow: Byte,
    loadCellHigh: Byte,
    fsrLow: seq<nat>,
    fsrHigh: seq<nat>,
    combinedLow: U16,
    combinedHigh: U16,
    reserved: U16)

  /** The configuration record (`SMXConfig`), field for field. */
  datatype Config = Config(
    masterVersion: Byte,
    configVersion: Byte,
    flags: Byte,
    debounceNodelayMilliseconds: U16,
    debounceDelayMilliseconds: U16,
    panelDebounceMicroseconds: U16,
    autoCalibrationMaxDeviation: Byte,
    badSensorMinimumDelaySeconds: Byte,
    autoCalibrationAveragesPerUpdate: U16,
    autoCalibrationSamplesPerAverage: U16,
    autoCalibrationMaxTare: U16,
    enabledSensors: seq<Byte>,
    autoLightsTimeout: Byte,
    stepColor: seq<Byte>,
    platformStripColor: seq<Byte>,
    autoLightPanelMask: U16,
    panelRotation: Byte,
    panels: seq<PanelSettings>,
    preDetailsDelayMilliseconds: Byte,
    padding: seq<Byte>)

  /** The fixed array sizes of a panel block. */
  predicate PanelShaped(p: PanelSettings)
  {
    |p.fsrLow| == SensorsPerPanel && |p.fsrHigh| == SensorsPerPanel
  }

  /** The fixed array sizes of the record. */
  predicate Shaped(c: Config)
  {
    && |c.enabledSensors| == 5
    && |c.stepColor| == 3 * PanelCount
    && |c.platformStripColor| == 3
    && |c.panels| == PanelCount
    && (forall i :: 0 <= i < |c.panels| ==> PanelShaped(c.panels[i]))
    && |c.padding| == 49
  }

  /** Every FSR cell of a panel fits the 8-bit wire field. */
  predicate PanelWireValid(p: PanelSettings)
  {
    && PanelShaped(p)
    && (forall j :: 0 <= j < |p.fsrLow| ==> p.fsrLow[j] < 0x100)
    && (forall j :: 0 <= j < |p.fsrHigh| ==> p.fsrHigh[j] < 0x100)
  }

  /** A record that can be written to the wire. */
  predicate WireValid(c: Config)
  {
    Shaped(c) && forall i :: 0 <= i < |c.panels| ==> PanelWireValid(c.panels[i])
  }

  /** Flag bit 0: panels use the pressed animation instead of stepColor. */
  predicate UsePressedAnimations(c: Config)
  {
    BitSet(c.flags, 0)
  }

  /** Flag bit 1: the panels carry FSR sensors rather than load cells. */
  predicate FsrFlag(c: Config)
  {
    BitSet(c.flags, 1)
  }

  /** The code of a sensor test mode on the wire (`Off` is 0, the others
      are the ASCII digits '0' to '3'). */
  datatype SensorTestMode = SensorTestOff | UncalibratedValues | CalibratedValues | Noise | Tare

  function SensorTestModeCode(m: SensorTestMode): (code: Byte)
    ensures m == SensorTestOff <==> code == 0
    ensures m != SensorTestOff ==> '0' as int <= code <= '3' as int
  {
    match m
    case SensorTestOff => 0
    case UncalibratedValues => '0' as int
    case CalibratedValues => '1' as int
    case Noise => '2' as int
    case Tare => '3' as int
  }

  /** The inverse of `SensorTestModeCode`; other bytes name no mode. */
  function SensorTestModeOf(code: Byte): (m: Option<SensorTestMode>)
  {
    if code == 0 then Some(SensorTestOff)
    else if code == '0' as int then Some(UncalibratedValues)
    else if code == '1' as int then Some(CalibratedValues)
    else if code == '2' as int then Some(Noise)
    else if code == '3' as int then Some(Tare)
    else None
  }

  lemma SensorTestModeCodeRoundTrip(m: SensorTestMode, code: Byte)
    ensures SensorTestModeOf(SensorTestModeCode(m)) == Some(m)
    ensures SensorTestModeOf(code).Some? ==> SensorTestModeCode(SensorTestModeOf(code).value) == code
  {
  }

  /** Panel-side diagnostics modes, also wire codes. */
  datatype PanelTestMode = PanelTestOff | PressureTest

  function PanelTestModeCode(m: PanelTestMode): (code: Byte)
    ensures code == '0' as int || code == '1' as int
    ensures (code == '1' as int) <==> m == PressureTest
  {
    match m
    case PanelTestOff => '0' as int
    case PressureTest => '1' as int
  }

  /** The record a default-constructed `SMXConfig` holds. The arrays without
      an initializer (enabled sensors, colors, rotation, panel blocks,
      padding) are taken as zero. */
  function DefaultConfig(): (c: Config)
    ensures WireValid(c)
    ensures c.masterVersion == 0xFF && c.configVersion == 0x05 && c.flags == 0
    ensures c.debounceNodelayMilliseconds == 0 && c.debounceDelayMilliseconds == 0
    ensures c.panelDebounceMicroseconds == 4000
    ensures c.autoCalibrationMaxDeviation == 100 && c.badSensorMinimumDelaySeconds == 15
    ensures c.autoCalibrationAveragesPerUpdate == 60 && c.autoCalibrationSamplesPerAverage == 500
    ensures c.autoCalibrationMaxTare == 0xFFFF
    ensures c.autoLightsTimeout == 7
    ensures c.autoLightPanelMask == 0xFFFF
    ensures c.preDetailsDelayMilliseconds == 5
  {
    Config(0xFF, 0x05, 0, 0, 0, 4000, 100, 15, 60, 500, 0xFFFF,
           Repeat(0, 5), 1000 / 128, Repeat(0, 27), Repeat(0, 3), 0xFFFF, 0,
           Repeat(ZeroPanel(), PanelCount), 5, Repeat(0, 49))
  }

  /** A panel block with every field zero. */
  function ZeroPanel(): (p: PanelSettings)
    ensures PanelWireValid(p)
  {
    PanelSettings(0, 0, Repeat(0, 4), Repeat(0, 4), 0, 0, 0)
  }

  /** Narrows a wire-valid FSR array to bytes. */
  function FsrBytes(cells: seq<nat>): (r: seq<Byte>)
    requires forall j :: 0 <= j < |cells| ==> cells[j] < 0x100
    ensures |r| == |cells| && forall j :: 0 <= j < |cells| ==> r[j] == cells[j]
  {
    seq(|cells|, j requires 0 <= j < |cells| => cells[j] as Byte)
  }

  /** The 16 bytes of one panel block: load-cell low/high, four FSR low,
      four FSR high, then combined low, combined high and reserved as
      little-endian 16-bit values. */
  function EncodePanel(p: PanelSettings): (r: seq<Byte>)
    requires PanelWireValid(p)
    ensures |r| == PanelBlockSize
    ensures r[0] == p.loadCellLow && r[1] == p.loadCellHigh
    ensures forall j :: 0 <= j < 4 ==> r[2 + j] == p.fsrLow[j] && r[6 + j] == p.fsrHigh[j]
    ensures Le16(r[10], r[11]) == p.combinedLow && Le16(r[12], r[13]) == p.combinedHigh
    ensures Le16(r[14], r[15]) == p.reserved
  {
    [p.loadCellLow, p.loadCellHigh] + FsrBytes(p.fsrLow) + FsrBytes(p.fsrHigh)
      + U16Bytes(p.combinedLow) + U16Bytes(p.combinedHigh) + U16Bytes(p.reserved)
  }

  /** Reads one 16-byte panel block. */
  function DecodePanel(b: seq<Byte>): (p: PanelSettings)
    requires |b| == PanelBlockSize
    ensures PanelWireValid(p)
  {
    PanelSettings(b[0], b[1], b[2..6], b[6..10], Le16(b[10], b[11]), Le16(b[12], b[13]), Le16(b[14], b[15]))
  }

  lemma DecodeEncodePanel(p: PanelSettings)
    requires PanelWireValid(p)
    ensures DecodePanel(EncodePanel(p)) == p
  {
    var b := EncodePanel(p);
    assert b[2..6] == p.fsrLow;
    assert b[6..10] == p.fsrHigh;
  }

  lemma EncodeDecodePanel(b: seq<Byte>)
    requires |b| == PanelBlockSize
    ensures EncodePanel(DecodePanel(b)) == b
  {
    var r := EncodePanel(DecodePanel(b));
    assert forall k :: 0 <= k < PanelBlockSize ==> r[k] == b[k];
  }

  /** The panel blocks, back to back. */
  function EncodePanels(ps: seq<PanelSettings>): (r: seq<Byte>)
    requires forall i :: 0 <= i < |ps| ==> PanelWireValid(ps[i])
    ensures |r| == PanelBlockSize * |ps|
    ensures forall i :: 0 <= i < |ps| ==> r[PanelBlockSize * i .. PanelBlockSize * (i + 1)] == EncodePanel(ps[i])
  {
    if ps == [] then []
    else
      var rest := EncodePanels(ps[1..]);
      var r := EncodePanel(ps[0]) + rest;
      assert forall i :: 1 <= i < |ps| ==>
        r[PanelBlockSize * i .. PanelBlockSize * (i + 1)] == rest[PanelBlockSize * (i - 1) .. PanelBlockSize * i];
      r
  }

  /** Reads n consecutive panel blocks. */
  function DecodePanels(b: seq<Byte>, n: nat): (ps: seq<PanelSettings>)
    requires |b| == PanelBlockSize * n
    ensures |ps| == n
    ensures forall i :: 0 <= i < n ==> PanelWireValid(ps[i])
  {
    seq(n, i requires 0 <= i < n => DecodePanel(b[PanelBlockSize * i .. PanelBlockSize * (i + 1)]))
  }

  /** The first 17 bytes: versions, flags and the internal tunables. */
  function EncodeHeader(c: Config): (r: seq<Byte>)
    ensures |r| == 17
  {
    [c.masterVersion, c.configVersion, c.flags]
      + U16Bytes(c.debounceNodelayMilliseconds) + U16Bytes(c.debounceDelayMilliseconds)
      + U16Bytes(c.panelDebounceMicroseconds)
      + [c.autoCalibrationMaxDeviation, c.badSensorMinimumDelaySeconds]
      + U16Bytes(c.autoCalibrationAveragesPerUpdate) + U16Bytes(c.autoCalibrationSamplesPerAverage)
      + U16Bytes(c.autoCalibrationMaxTare)
  }

  /** Bytes 17 to 55: enabled sensors, lights timeout, colors, auto-light
      mask and rotation. */
  function EncodeLighting(c: Config): (r: seq<Byte>)
    requires Shaped(c)
    ensures |r| == 39
  {
    c.enabledSensors + [c.autoLightsTimeout] + c.stepColor + c.platformStripColor
      + U16Bytes(c.autoLightPanelMask) + [c.panelRotation]
  }

  /** The packed record as sent to the master controller. */
  function Encode(c: Config): (r: seq<Byte>)
    requires WireValid(c)
    ensures |r| == ConfigSize
  {
    EncodeHeader(c) + EncodeLighting(c) + EncodePanels(c.panels) + [c.preDetailsDelayMilliseconds] + c.padding
  }

  /** Where the fields sit in the packed record. */
  lemma EncodeLayout(c: Config)
    requires WireValid(c)
    ensures var r := Encode(c);
      && r[0] == c.masterVersion && r[1] == c.configVersion && r[2] == c.flags
      && r[17..22] == c.enabledSensors
      && r[23..50] == c.stepColor
      && Le16(r[53], r[54]) == c.autoLightPanelMask
      && r[200] == c.preDetailsDelayMilliseconds
      && r[PaddingOffset..] == c.padding
    ensures forall i :: 0 <= i < PanelCount ==>
      Encode(c)[PanelsOffset + PanelBlockSize * i .. PanelsOffset + PanelBlockSize * (i + 1)] == EncodePanel(c.panels[i])
  {
    EncodeFields(c);
    EncodePanelSlices(c);
  }

  lemma EncodeFields(c: Config)
    requires WireValid(c)
    ensures var r := Encode(c);
      && r[0] == c.masterVersion && r[1] == c.configVersion && r[2] == c.flags
      && r[17..22] == c.enabledSensors
      && r[23..50] == c.stepColor
      && Le16(r[53], r[54]) == c.autoLightPanelMask
      && r[200] == c.preDetailsDelayMilliseconds
      && r[PaddingOffset..] == c.padding
  {
    var r := Encode(c);
    EncodeParts(c);
    var h := EncodeHeader(c);
    var l := EncodeLighting(c);
    hide Encode, EncodePanels;
    assert r[0] == h[0] && r[1] == h[1] && r[2] == h[2];
    SliceOfSlice(r, 17, 56, 0, 5);
    SliceOfSlice(r, 17, 56, 6, 33);
    assert r[53] == l[36] && r[54] == l[37];
  }

  lemma EncodePanelSlices(c: Config)
    requires WireValid(c)
    ensures forall i :: 0 <= i < PanelCount ==>
      Encode(c)[PanelsOffset + PanelBlockSize * i .. PanelsOffset + PanelBlockSize * (i + 1)] == EncodePanel(c.panels[i])
  {
    var r := Encode(c);
    EncodeParts(c);
    hide Encode, EncodeHeader, EncodeLighting;
    forall i | 0 <= i < PanelCount
      ensures r[PanelsOffset + PanelBlockSize * i .. PanelsOffset + PanelBlockSize * (i + 1)] == EncodePanel(c.panels[i])
    {
      SliceOfSlice(r, PanelsOffset, PaddingOffset - 1, PanelBlockSize * i, PanelBlockSize * (i + 1));
    }
  }

  /** The five parts of the packed record and where each one lies. */
  lemma EncodeParts(c: Config)
    requires WireValid(c)
    ensures var r := Encode(c);
      && r[..17] == EncodeHeader(c) && r[17..56] == EncodeLighting(c)
      && r[PanelsOffset .. PaddingOffset - 1] == EncodePanels(c.panels)
      && r[200] == c.preDetailsDelayMilliseconds && r[PaddingOffset..] == c.padding
  {
    var h := EncodeHeader(c);
    var l := EncodeLighting(c);
    var panels := EncodePanels(c.panels);
    assert Encode(c) == h + l + panels + [c.preDetailsDelayMilliseconds] + c.padding;
    hide Encode, EncodeHeader, EncodeLighting, EncodePanels;
    Parts5(h, l, panels, [c.preDetailsDelayMilliseconds], c.padding);
  }

  lemma Parts5(a: seq<Byte>, b: seq<Byte>, c: seq<Byte>, d: seq<Byte>, e: seq<Byte>)
    ensures var r := a + b + c + d + e;
      && r[..|a|] == a && r[|a|..|a| + |b|] == b && r[|a| + |b|..|a| + |b| + |c|] == c
      && r[|a| + |b| + |c|..|a| + |b| + |c| + |d|] == d && r[|a| + |b| + |c| + |d|..] == e
  {
  }

  lemma SliceOfSlice(r: seq<Byte>, lo: nat, hi: nat, i: nat, j: nat)
    requires lo <= hi <= |r| && i <= j <= hi - lo
    ensures r[lo..hi][i..j] == r[lo + i..lo + j]
  {
    assert forall k :: 0 <= k < j - i ==> r[lo..hi][i..j][k] == r[lo + i..lo + j][k];
  }

  /** Reads a packed record. */
  function Decode(b: seq<Byte>): (c: Config)
    requires |b| == ConfigSize
    ensures WireValid(c)
  {
    Config(b[0], b[1], b[2], Le16(b[3], b[4]), Le16(b[5], b[6]), Le16(b[7], b[8]),
           b[9], b[10], Le16(b[11], b[12]), Le16(b[13], b[14]), Le16(b[15], b[16]),
           b[17..22], b[22], b[23..50], b[50..53], Le16(b[53], b[54]), b[55],
           DecodePanels(b[PanelsOffset .. PaddingOffset - 1], PanelCount),
           b[200], b[PaddingOffset..])
  }

  lemma {:induction false} DecodeEncodePanels(ps: seq<PanelSettings>)
    requires forall i :: 0 <= i < |ps| ==> PanelWireValid(ps[i])
    ensures DecodePanels(EncodePanels(ps), |ps|) == ps
  {
    var b := EncodePanels(ps);
    forall i | 0 <= i < |ps|
      ensures DecodePanel(b[PanelBlockSize * i .. PanelBlockSize * (i + 1)]) == ps[i]
    {
      DecodeEncodePanel(ps[i]);
    }
  }

  lemma {:induction false} EncodeDecodePanels(b: seq<Byte>, n: nat)
    requires |b| == PanelBlockSize * n
    ensures EncodePanels(DecodePanels(b, n)) == b
    decreases n
  {
    if n > 0 {
      var ps := DecodePanels(b, n);
      var head := b[..PanelBlockSize];
      var tail := b[PanelBlockSize..];
      DecodePanelsTail(b, n);
      EncodeDecodePanels(tail, n - 1);
      EncodeDecodePanel(head);
      assert ps[0] == DecodePanel(head);
      hide DecodePanels, DecodePanel, EncodePanel;
      assert EncodePanels(ps) == EncodePanel(ps[0]) + EncodePanels(ps[1..]);
      assert b == head + tail;
    }
  }

  /** Dropping the first block drops the first decoded panel. */
  lemma DecodePanelsTail(b: seq<Byte>, n: nat)
    requires |b| == PanelBlockSize * n && n > 0
    ensures DecodePanels(b, n)[1..] == DecodePanels(b[PanelBlockSize..], n - 1)
  {
    hide DecodePanel;
    var tail := b[PanelBlockSize..];
    forall i | 0 <= i < n - 1
      ensures b[PanelBlockSize * (i + 1) .. PanelBlockSize * (i + 2)] == tail[PanelBlockSize * i .. PanelBlockSize * (i + 1)]
    {
      DropSlice(b, PanelBlockSize, PanelBlockSize * i, PanelBlockSize * (i + 1));
    }
  }

  lemma DropSlice(b: seq<Byte>, d: nat, lo: nat, hi: nat)
    requires lo <= hi && d + hi <= |b|
    ensures b[d..][lo..hi] == b[d + lo..d + hi]
  {
    assert forall k :: 0 <= k < hi - lo ==> b[d..][lo..hi][k] == b[d + lo..d + hi][k];
  }

  /** Decoding the encoding of a record returns that record. */
  lemma DecodeEncode(c: Config)
    requires WireValid(c)
    ensures Decode(Encode(c)) == c
  {
    HeaderBack(c);
    LightingBack(c);
    PanelsBack(c);
    hide Decode, Encode;
  }

  lemma HeaderBack(c: Config)
    requires WireValid(c)
    ensures var d := Decode(Encode(c));
      && d.masterVersion == c.masterVersion && d.configVersion == c.configVersion && d.flags == c.flags
      && d.debounceNodelayMilliseconds == c.debounceNodelayMilliseconds
      && d.debounceDelayMilliseconds == c.debounceDelayMilliseconds
      && d.panelDebounceMicroseconds == c.panelDebounceMicroseconds
      && d.autoCalibrationMaxDeviation == c.autoCalibrationMaxDeviation
      && d.badSensorMinimumDelaySeconds == c.badSensorMinimumDelaySeconds
      && d.autoCalibrationAveragesPerUpdate == c.autoCalibrationAveragesPerUpdate
      && d.autoCalibrationSamplesPerAverage == c.autoCalibrationSamplesPerAverage
      && d.autoCalibrationMaxTare == c.autoCalibrationMaxTare
  {
    var b := Encode(c);
    var h := EncodeHeader(c);
    EncodeParts(c);
    hide Encode, EncodeLighting, EncodePanels, DecodePanels;
    assert b[3] == h[3] && b[4] == h[4] && b[5] == h[5] && b[6] == h[6];
    assert b[7] == h[7] && b[8] == h[8] && b[9] == h[9] && b[10] == h[10];
    assert b[11] == h[11] && b[12] == h[12] && b[13] == h[13] && b[14] == h[14];
    assert b[15] == h[15] && b[16] == h[16];
  }

  lemma LightingBack(c: Config)
    requires WireValid(c)
    ensures var d := Decode(Encode(c));
      && d.enabledSensors == c.enabledSensors && d.autoLightsTimeout == c.autoLightsTimeout
      && d.stepColor == c.stepColor && d.platformStripColor == c.platformStripColor
      && d.autoLightPanelMask == c.autoLightPanelMask && d.panelRotation == c.panelRotation
  {
    var b := Encode(c);
    var l := EncodeLighting(c);
    EncodeParts(c);
    hide Encode, EncodeHeader, EncodePanels, DecodePanels;
    assert b[17..22] == l[..5];
    assert b[23..50] == l[6..33];
    assert b[50..53] == l[33..36];
    assert b[22] == l[5] && b[55] == l[38];
    assert b[53] == l[36] && b[54] == l[37];
  }

  lemma PanelsBack(c: Config)
    requires WireValid(c)
    ensures var d := Decode(Encode(c));
      && d.panels == c.panels && d.preDetailsDelayMilliseconds == c.preDetailsDelayMilliseconds
      && d.padding == c.padding
  {
    EncodeParts(c);
    DecodeEncodePanels(c.panels);
    hide Encode, EncodePanels, DecodePanels;
  }

  /** Every 250-byte packet is the encoding of the record it decodes to. */
  lemma EncodeDecode(b: seq<Byte>)
    requires |b| == ConfigSize
    ensures Encode(Decode(b)) == b
  {
    var c := Decode(b);
    EncodeDecodePanels(b[PanelsOffset .. PaddingOffset - 1], PanelCount);
    HeaderRoundTrip(b);
    LightingRoundTrip(b);
    assert c.panels == DecodePanels(b[PanelsOffset .. PaddingOffset - 1], PanelCount);
    assert c.preDetailsDelayMilliseconds == b[200] && c.padding == b[201..];
    assert Encode(c) == EncodeHeader(c) + EncodeLighting(c) + EncodePanels(c.panels) + [b[200]] + b[201..];
    Reassemble(b);
  }

  lemma Reassemble(b: seq<Byte>)
    requires |b| == ConfigSize
    ensures b == b[..17] + b[17..56] + b[PanelsOffset .. PaddingOffset - 1] + [b[200]] + b[201..]
  {
  }

  lemma HeaderRoundTrip(b: seq<Byte>)
    requires |b| == ConfigSize
    ensures EncodeHeader(Decode(b)) == b[..17]
  {
    var h := EncodeHeader(Decode(b));
    assert forall k :: 0 <= k < 17 ==> h[k] == b[k];
  }

  lemma LightingRoundTrip(b: seq<Byte>)
    requires |b| == ConfigSize
    ensures EncodeLighting(Decode(b)) == b[17..56]
  {
    var l := EncodeLighting(Decode(b));
    assert forall k :: 0 <= k < 39 ==> l[k] == b[17 + k];
  }
}
