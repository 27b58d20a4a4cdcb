/**
 The configuration layout used before version 5 of the packet format, and
 the conversions between it and the current record. The legacy record is
 kept as raw bytes; its fields are named by their offsets.
 */
module LegacyConfig {
  import opened Bytes
  import opened ConfigRecord

  /** The legacy record is also 250 bytes; its fields end where its padding
      starts, at offset 86. */
  const LegacySize: nat := 250
  const LegacyPaddingOffset: nat := 86
  /** A buffer shorter than this is extended with 0xFF before writing. */
  const MinimumWriteSize: nat := 128

  const MasterDebounceAt: nat := 6
  const PanelDebounceAt: nat := 14
  const AutoCalibrationPeriodAt: nat := 16
  const MaxDeviationAt: nat := 18
  const BadSensorDelayAt: nat := 19
  const AveragesPerUpdateAt: nat := 20
  const EnabledSensorsAt: nat := 26
  const AutoLightsTimeoutAt: nat := 31
  const StepColorAt: nat := 32
  const PanelRotationAt: nat := 59
  const SamplesPerAverageAt: nat := 60
  const MasterVersionAt: nat := 62
  const ConfigVersionAt: nat := 63
  const DebounceDelayAt: nat := 84

  /** Offset of panel p's load-cell low threshold; the high threshold is the
      next byte. Panels 7, 4, 2 and 1 have their fields in the original
      block, the others in the block added in configVersion 2. */
  function LowThresholdAt(p: nat): (k: nat)
    requires p < PanelCount
    ensures 8 <= k < 83
  {
    [74, 24, 12, 76, 10, 78, 80, 8, 82][p]
  }

  /** Panels whose thresholds exist in every legacy version. */
  predicate OriginalPanel(p: nat)
  {
    p == 1 || p == 2 || p == 4 || p == 7
  }

  /** Offsets of fields that exist only in the legacy layout (the unused
      bytes, the auto-calibration period) or lie past its fields. */
  predicate LegacyOnly(k: nat)
  {
    k < 6 || k == 16 || k == 17 || k == 22 || k == 23 || 64 <= k < 74 || k >= LegacyPaddingOffset
  }

  /** The buffer `ConvertToOldConfig` writes into: extended to 128 bytes
      with 0xFF when shorter. */
  function Extend(legacy: seq<Byte>): (e: seq<Byte>)
    ensures |e| == if |legacy| < MinimumWriteSize then MinimumWriteSize else |legacy|
    ensures e[..|legacy|] == legacy
    ensures forall k :: |legacy| <= k < |e| ==> e[k] == 0xFF
  {
    if |legacy| < MinimumWriteSize then legacy + Repeat(0xFF, MinimumWriteSize - |legacy|) else legacy
  }

  /** Sets panel p's load-cell thresholds. */
  function SetLoadCell(ps: seq<PanelSettings>, p: nat, low: Byte, high: Byte): (r: seq<PanelSettings>)
    requires p < |ps|
    ensures |r| == |ps| && r[p].loadCellLow == low && r[p].loadCellHigh == high
    ensures r[p].fsrLow == ps[p].fsrLow && r[p].fsrHigh == ps[p].fsrHigh
    ensures forall q :: 0 <= q < |ps| && q != p ==> r[q] == ps[q]
  {
    ps[p := ps[p].(loadCellLow := low, loadCellHigh := high)]
  }

  /** Copies the load-cell thresholds of the given panels out of a legacy
      buffer. */
  function CopyThresholds(ps: seq<PanelSettings>, legacy: seq<Byte>, panels: seq<nat>): (r: seq<PanelSettings>)
    requires |ps| == PanelCount && |legacy| >= LegacyPaddingOffset
    requires forall i :: 0 <= i < |panels| ==> panels[i] < PanelCount
    ensures |r| == PanelCount
    ensures forall q :: 0 <= q < PanelCount ==>
      r[q].fsrLow == ps[q].fsrLow && r[q].fsrHigh == ps[q].fsrHigh
      && r[q].combinedLow == ps[q].combinedLow && r[q].combinedHigh == ps[q].combinedHigh
      && r[q].reserved == ps[q].reserved
    ensures forall q :: 0 <= q < PanelCount && q in panels ==>
      r[q].loadCellLow == legacy[LowThresholdAt(q)] && r[q].loadCellHigh == legacy[LowThresholdAt(q) + 1]
    ensures forall q :: 0 <= q < PanelCount && q !in panels ==> r[q] == ps[q]
  {
    if panels == [] then ps
    else
      var p := panels[|panels| - 1];
      var k := LowThresholdAt(p);
      SetLoadCell(CopyThresholds(ps, legacy, panels[..|panels| - 1]), p, legacy[k], legacy[k + 1])
  }

  /** The version-independent fields (`ConvertToNewConfig` before its first
      version check). */
  function CopyCommonFields(legacy: seq<Byte>, c: Config): (r: Config)
    requires |legacy| >= LegacyPaddingOffset && Shaped(c)
    ensures Shaped(r)
  {
    c.(debounceNodelayMilliseconds := Le16(legacy[MasterDebounceAt], legacy[MasterDebounceAt + 1]),
       panels := CopyThresholds(c.panels, legacy, [7, 4, 2, 1]),
       panelDebounceMicroseconds := Le16(legacy[PanelDebounceAt], legacy[PanelDebounceAt + 1]),
       autoCalibrationMaxDeviation := legacy[MaxDeviationAt],
       badSensorMinimumDelaySeconds := legacy[BadSensorDelayAt],
       autoCalibrationAveragesPerUpdate := Le16(legacy[AveragesPerUpdateAt], legacy[AveragesPerUpdateAt + 1]),
       enabledSensors := legacy[EnabledSensorsAt .. EnabledSensorsAt + 5],
       autoLightsTimeout := legacy[AutoLightsTimeoutAt],
       stepColor := legacy[StepColorAt .. StepColorAt + 27],
       panelRotation := legacy[PanelRotationAt],
       autoCalibrationSamplesPerAverage := Le16(legacy[SamplesPerAverageAt], legacy[SamplesPerAverageAt + 1]))
  }

  /** `ConvertToNewConfig`: fills `c` from a legacy buffer, stopping at the
      version cut-offs 0xFF, below 2 and below 3. The source reads the
      buffer as a full legacy record without checking its size, so the
      buffer must hold at least the legacy fields. */
  function ConvertToNew(legacy: seq<Byte>, c: Config): (r: Config)
    requires |legacy| >= LegacyPaddingOffset && Shaped(c)
    ensures Shaped(r)
    // Always copied.
    ensures r.debounceNodelayMilliseconds == Le16(legacy[MasterDebounceAt], legacy[MasterDebounceAt + 1])
    ensures r.panelDebounceMicroseconds == Le16(legacy[PanelDebounceAt], legacy[PanelDebounceAt + 1])
    ensures r.autoCalibrationMaxDeviation == legacy[MaxDeviationAt]
    ensures r.badSensorMinimumDelaySeconds == legacy[BadSensorDelayAt]
    ensures r.autoCalibrationAveragesPerUpdate == Le16(legacy[AveragesPerUpdateAt], legacy[AveragesPerUpdateAt + 1])
    ensures r.enabledSensors == legacy[EnabledSensorsAt .. EnabledSensorsAt + 5]
    ensures r.autoLightsTimeout == legacy[AutoLightsTimeoutAt]
    ensures r.stepColor == legacy[StepColorAt .. StepColorAt + 27]
    ensures r.panelRotation == legacy[PanelRotationAt]
    ensures r.autoCalibrationSamplesPerAverage == Le16(legacy[SamplesPerAverageAt], legacy[SamplesPerAverageAt + 1])
    ensures forall p :: 0 <= p < PanelCount && OriginalPanel(p) ==>
      r.panels[p].loadCellLow == legacy[LowThresholdAt(p)] && r.panels[p].loadCellHigh == legacy[LowThresholdAt(p) + 1]
    // Copied only from versioned packets.
    ensures legacy[ConfigVersionAt] == 0xFF ==>
      r.masterVersion == c.masterVersion && r.configVersion == c.configVersion
    ensures legacy[ConfigVersionAt] != 0xFF ==>
      r.masterVersion == legacy[MasterVersionAt] && r.configVersion == legacy[ConfigVersionAt]
    // The remaining thresholds need version 2, the debounce delay version 3.
    ensures forall p :: 0 <= p < PanelCount && !OriginalPanel(p) ==>
      if legacy[ConfigVersionAt] == 0xFF || legacy[ConfigVersionAt] < 2 then r.panels[p] == c.panels[p]
      else r.panels[p].loadCellLow == legacy[LowThresholdAt(p)] && r.panels[p].loadCellHigh == legacy[LowThresholdAt(p) + 1]
    ensures r.debounceDelayMilliseconds ==
      if legacy[ConfigVersionAt] == 0xFF || legacy[ConfigVersionAt] < 3 then c.debounceDelayMilliseconds
      else Le16(legacy[DebounceDelayAt], legacy[DebounceDelayAt + 1])
    // Fields the legacy layout does not have are never touched.
    ensures r.flags == c.flags && r.autoCalibrationMaxTare == c.autoCalibrationMaxTare
    ensures r.platformStripColor == c.platformStripColor && r.autoLightPanelMask == c.autoLightPanelMask
    ensures r.preDetailsDelayMilliseconds == c.preDetailsDelayMilliseconds && r.padding == c.padding
    ensures forall p :: 0 <= p < PanelCount ==>
      r.panels[p].fsrLow == c.panels[p].fsrLow && r.panels[p].fsrHigh == c.panels[p].fsrHigh
      && r.panels[p].combinedLow == c.panels[p].combinedLow
      && r.panels[p].combinedHigh == c.panels[p].combinedHigh && r.panels[p].reserved == c.panels[p].reserved
  {
    var version := legacy[ConfigVersionAt];
    var common := CopyCommonFields(legacy, c);
    if version == 0xFF then common
    else
      var versioned := common.(masterVersion := legacy[MasterVersionAt], configVersion := version);
      if version < 2 then versioned
      else
        var thresholds := versioned.(panels := CopyThresholds(versioned.panels, legacy, [0, 3, 5, 6, 8]));
        if version < 3 then thresholds
        else thresholds.(debounceDelayMilliseconds := Le16(legacy[DebounceDelayAt], legacy[DebounceDelayAt + 1]))
  }

  /** The legacy bytes 0 to 25, with the legacy-only bytes taken from e. */
  function LegacyHead(c: Config, e: seq<Byte>): (r: seq<Byte>)
    requires Shaped(c) && |e| >= MinimumWriteSize
    ensures |r| == 26
    ensures r[..6] == e[..6] && r[16] == e[16] && r[17] == e[17] && r[22] == e[22] && r[23] == e[23]
    ensures Le16(r[MasterDebounceAt], r[MasterDebounceAt + 1]) == c.debounceNodelayMilliseconds
    ensures Le16(r[PanelDebounceAt], r[PanelDebounceAt + 1]) == c.panelDebounceMicroseconds
    ensures r[MaxDeviationAt] == c.autoCalibrationMaxDeviation
    ensures r[BadSensorDelayAt] == c.badSensorMinimumDelaySeconds
    ensures Le16(r[AveragesPerUpdateAt], r[AveragesPerUpdateAt + 1]) == c.autoCalibrationAveragesPerUpdate
    ensures forall p :: 0 <= p < PanelCount && OriginalPanel(p) ==>
      r[LowThresholdAt(p)] == c.panels[p].loadCellLow && r[LowThresholdAt(p) + 1] == c.panels[p].loadCellHigh
  {
    var ps := c.panels;
    e[..6] + U16Bytes(c.debounceNodelayMilliseconds)
      + [ps[7].loadCellLow, ps[7].loadCellHigh, ps[4].loadCellLow, ps[4].loadCellHigh,
         ps[2].loadCellLow, ps[2].loadCellHigh]
      + U16Bytes(c.panelDebounceMicroseconds) + e[16..18]
      + [c.autoCalibrationMaxDeviation, c.badSensorMinimumDelaySeconds]
      + U16Bytes(c.autoCalibrationAveragesPerUpdate) + e[22..24]
      + [ps[1].loadCellLow, ps[1].loadCellHigh]
  }

  /** The legacy bytes 26 to 85, with the legacy-only bytes taken from e. */
  function LegacyTail(c: Config, e: seq<Byte>): (r: seq<Byte>)
    requires Shaped(c) && |e| >= MinimumWriteSize
    ensures |r| == 60
    ensures r[..5] == c.enabledSensors && r[5] == c.autoLightsTimeout && r[6..33] == c.stepColor
    ensures r[33] == c.panelRotation && Le16(r[34], r[35]) == c.autoCalibrationSamplesPerAverage
    ensures r[36] == c.masterVersion && r[37] == c.configVersion
    ensures r[38..48] == e[64..74]
    ensures forall p :: 0 <= p < PanelCount && !OriginalPanel(p) ==>
      r[LowThresholdAt(p) - 26] == c.panels[p].loadCellLow && r[LowThresholdAt(p) - 25] == c.panels[p].loadCellHigh
    ensures Le16(r[58], r[59]) == c.debounceDelayMilliseconds
  {
    var ps := c.panels;
    c.enabledSensors + [c.autoLightsTimeout] + c.stepColor + [c.panelRotation]
      + U16Bytes(c.autoCalibrationSamplesPerAverage) + [c.masterVersion, c.configVersion]
      + e[64..74]
      + [ps[0].loadCellLow, ps[0].loadCellHigh, ps[3].loadCellLow, ps[3].loadCellHigh,
         ps[5].loadCellLow, ps[5].loadCellHigh, ps[6].loadCellLow, ps[6].loadCellHigh,
         ps[8].loadCellLow, ps[8].loadCellHigh]
      + U16Bytes(c.debounceDelayMilliseconds)
  }

  /** `ConvertToOldConfig`: writes every mapped field of `c` into the legacy
      buffer, extended to 128 bytes first, leaving every other byte as it
      was. */
  function ConvertToOld(c: Config, legacy: seq<Byte>): (r: seq<Byte>)
    requires Shaped(c)
    ensures |r| == |Extend(legacy)| >= MinimumWriteSize
  {
    var e := Extend(legacy);
    LegacyHead(c, e) + LegacyTail(c, e) + e[LegacyPaddingOffset..]
  }

  /** What `ConvertToOld` writes where: the bytes only the legacy layout has
      keep their old values, and every mapped field lands at its offset. */
  lemma ConvertToOldLayout(c: Config, legacy: seq<Byte>)
    requires Shaped(c)
    ensures var r := ConvertToOld(c, legacy);
      && (forall k :: 0 <= k < |r| && LegacyOnly(k) ==> r[k] == Extend(legacy)[k])
      && Le16(r[MasterDebounceAt], r[MasterDebounceAt + 1]) == c.debounceNodelayMilliseconds
      && Le16(r[PanelDebounceAt], r[PanelDebounceAt + 1]) == c.panelDebounceMicroseconds
      && r[MaxDeviationAt] == c.autoCalibrationMaxDeviation
      && r[BadSensorDelayAt] == c.badSensorMinimumDelaySeconds
      && Le16(r[AveragesPerUpdateAt], r[AveragesPerUpdateAt + 1]) == c.autoCalibrationAveragesPerUpdate
      && r[EnabledSensorsAt .. EnabledSensorsAt + 5] == c.enabledSensors
      && r[AutoLightsTimeoutAt] == c.autoLightsTimeout
      && r[StepColorAt .. StepColorAt + 27] == c.stepColor
      && r[PanelRotationAt] == c.panelRotation
      && Le16(r[SamplesPerAverageAt], r[SamplesPerAverageAt + 1]) == c.autoCalibrationSamplesPerAverage
      && r[MasterVersionAt] == c.masterVersion && r[ConfigVersionAt] == c.configVersion
      && (forall p :: 0 <= p < PanelCount ==>
            r[LowThresholdAt(p)] == c.panels[p].loadCellLow && r[LowThresholdAt(p) + 1] == c.panels[p].loadCellHigh)
      && Le16(r[DebounceDelayAt], r[DebounceDelayAt + 1]) == c.debounceDelayMilliseconds
  {
    var e := Extend(legacy);
    var r := ConvertToOld(c, legacy);
    assert r == LegacyHead(c, e) + LegacyTail(c, e) + e[LegacyPaddingOffset..];
    assert r[..26] == LegacyHead(c, e);
    assert r[26..86] == LegacyTail(c, e);
    assert r[86..] == e[86..];
    hide ConvertToOld, Extend;
    HeadFields(c, e, r);
    TailFields(c, e, r);
    forall k | 0 <= k < |r| && LegacyOnly(k) ensures r[k] == e[k] {
      if k >= 86 {
        assert r[86..][k - 86] == e[86..][k - 86];
      } else if k < 26 {
        assert r[..26][k] == LegacyHead(c, e)[k];
      } else {
        assert r[26..86][k - 26] == LegacyTail(c, e)[k - 26];
      }
    }
  }

  lemma HeadFields(c: Config, e: seq<Byte>, r: seq<Byte>)
    requires Shaped(c) && |e| >= MinimumWriteSize && |r| >= 86 && r[..26] == LegacyHead(c, e)
    ensures forall k :: 0 <= k < 26 && LegacyOnly(k) ==> r[k] == e[k]
    ensures Le16(r[MasterDebounceAt], r[MasterDebounceAt + 1]) == c.debounceNodelayMilliseconds
    ensures Le16(r[PanelDebounceAt], r[PanelDebounceAt + 1]) == c.panelDebounceMicroseconds
    ensures r[MaxDeviationAt] == c.autoCalibrationMaxDeviation
    ensures r[BadSensorDelayAt] == c.badSensorMinimumDelaySeconds
    ensures Le16(r[AveragesPerUpdateAt], r[AveragesPerUpdateAt + 1]) == c.autoCalibrationAveragesPerUpdate
    ensures forall p :: 0 <= p < PanelCount && OriginalPanel(p) ==>
      r[LowThresholdAt(p)] == c.panels[p].loadCellLow && r[LowThresholdAt(p) + 1] == c.panels[p].loadCellHigh
  {
    var h := LegacyHead(c, e);
    hide LegacyHead;
    assert forall k :: 0 <= k < 26 ==> r[k] == h[k];
    assert forall k :: 0 <= k < 6 ==> h[k] == h[..6][k];
  }

  lemma TailFields(c: Config, e: seq<Byte>, r: seq<Byte>)
    requires Shaped(c) && |e| >= MinimumWriteSize && |r| >= 86 && r[26..86] == LegacyTail(c, e)
    ensures forall k :: 64 <= k < 74 ==> r[k] == e[k]
    ensures r[EnabledSensorsAt .. EnabledSensorsAt + 5] == c.enabledSensors
    ensures r[AutoLightsTimeoutAt] == c.autoLightsTimeout
    ensures r[StepColorAt .. StepColorAt + 27] == c.stepColor
    ensures r[PanelRotationAt] == c.panelRotation
    ensures Le16(r[SamplesPerAverageAt], r[SamplesPerAverageAt + 1]) == c.autoCalibrationSamplesPerAverage
    ensures r[MasterVersionAt] == c.masterVersion && r[ConfigVersionAt] == c.configVersion
    ensures forall p :: 0 <= p < PanelCount && !OriginalPanel(p) ==>
      r[LowThresholdAt(p)] == c.panels[p].loadCellLow && r[LowThresholdAt(p) + 1] == c.panels[p].loadCellHigh
    ensures Le16(r[DebounceDelayAt], r[DebounceDelayAt + 1]) == c.debounceDelayMilliseconds
  {
    var t := LegacyTail(c, e);
    hide LegacyTail;
    assert forall k :: 26 <= k < 86 ==> r[k] == t[k - 26];
    assert r[EnabledSensorsAt .. EnabledSensorsAt + 5] == t[..5];
    assert r[StepColorAt .. StepColorAt + 27] == t[6..33];
    forall k | 64 <= k < 74 ensures r[k] == e[k] {
      assert t[38..48][k - 64] == e[64..74][k - 64];
    }
  }

  /** Writing a record in the legacy layout and reading it back restores
      every mapped field, provided the record's version says all of them
      are present (not 0xFF, at least 3); fields the legacy layout lacks
      come from the record being filled. */
  lemma LegacyRoundTrip(c: Config, legacy: seq<Byte>, target: Config)
    requires Shaped(c) && Shaped(target)
    requires c.configVersion != 0xFF && c.configVersion >= 3
    ensures var r := ConvertToNew(ConvertToOld(c, legacy), target);
      && r.masterVersion == c.masterVersion && r.configVersion == c.configVersion
      && r.debounceNodelayMilliseconds == c.debounceNodelayMilliseconds
      && r.debounceDelayMilliseconds == c.debounceDelayMilliseconds
      && r.panelDebounceMicroseconds == c.panelDebounceMicroseconds
      && r.autoCalibrationMaxDeviation == c.autoCalibrationMaxDeviation
      && r.badSensorMinimumDelaySeconds == c.badSensorMinimumDelaySeconds
      && r.autoCalibrationAveragesPerUpdate == c.autoCalibrationAveragesPerUpdate
      && r.autoCalibrationSamplesPerAverage == c.autoCalibrationSamplesPerAverage
      && r.enabledSensors == c.enabledSensors && r.autoLightsTimeout == c.autoLightsTimeout
      && r.stepColor == c.stepColor && r.panelRotation == c.panelRotation
      && (forall p :: 0 <= p < PanelCount ==>
            r.panels[p].loadCellLow == c.panels[p].loadCellLow
            && r.panels[p].loadCellHigh == c.panels[p].loadCellHigh)
      && r.flags == target.flags && r.padding == target.padding
  {
    var b := ConvertToOld(c, legacy);
    var r := ConvertToNew(b, target);
    ConvertToOldLayout(c, legacy);
    forall p | 0 <= p < PanelCount
      ensures r.panels[p].loadCellLow == c.panels[p].loadCellLow
      ensures r.panels[p].loadCellHigh == c.panels[p].loadCellHigh
    {
    }
  }

  /** A record converted back onto itself is unchanged. */
  lemma LegacyRoundTripSelf(c: Config, legacy: seq<Byte>)
    requires Shaped(c)
    requires c.configVersion != 0xFF && c.configVersion >= 3
    ensures ConvertToNew(ConvertToOld(c, legacy), c) == c
  {
    LegacyRoundTrip(c, legacy, c);
    var r := ConvertToNew(ConvertToOld(c, legacy), c);
    assert forall p :: 0 <= p < PanelCount ==> r.panels[p] == c.panels[p];
    assert r.panels == c.panels;
  }
}
