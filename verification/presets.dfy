/**
 Threshold presets of the configuration tool ("low", "normal", "high"),
 the preset classifier, and the "unified threshold" mirroring that copies
 the cardinal panel's thresholds to the other cardinals and the corner
 panel's to the other corners.
 */
module Presets {
  import opened Bytes
  import opened ConfigRecord
  import ConfigHelpers

  /** The thresholds of one panel that presets set and compare. */
  datatype PanelThresholds = PanelThresholds(low: Byte, high: Byte, fsrLow: seq<nat>, fsrHigh: seq<nat>)

  function ThresholdsOf(p: PanelSettings): PanelThresholds
  {
    PanelThresholds(p.loadCellLow, p.loadCellHigh, p.fsrLow, p.fsrHigh)
  }

  /** Two records agree on every panel's load-cell and FSR thresholds (what
      `SamePreset` compares; nothing else is looked at). */
  predicate ThresholdsEqual(a: Config, b: Config)
    requires Shaped(a) && Shaped(b)
  {
    forall p :: 0 <= p < PanelCount ==> ThresholdsOf(a.panels[p]) == ThresholdsOf(b.panels[p])
  }

  /** `SamePreset`, scanning panels and sensors in the source's order. */
  method SamePreset(a: Config, b: Config) returns (same: bool)
    requires Shaped(a) && Shaped(b)
    ensures same <==> ThresholdsEqual(a, b)
  {
    var panel := 0;
    while panel < PanelCount
      invariant 0 <= panel <= PanelCount
      invariant forall p :: 0 <= p < panel ==> ThresholdsOf(a.panels[p]) == ThresholdsOf(b.panels[p])
    {
      var pa := a.panels[panel];
      var pb := b.panels[panel];
      if pa.loadCellLow != pb.loadCellLow || pa.loadCellHigh != pb.loadCellHigh {
        return false;
      }
      var sensor := 0;
      while sensor < SensorsPerPanel
        invariant 0 <= sensor <= SensorsPerPanel
        invariant pa.fsrLow[..sensor] == pb.fsrLow[..sensor] && pa.fsrHigh[..sensor] == pb.fsrHigh[..sensor]
      {
        if pa.fsrLow[sensor] != pb.fsrLow[sensor] || pa.fsrHigh[sensor] != pb.fsrHigh[sensor] {
          return false;
        }
        assert pa.fsrLow[..sensor + 1] == pa.fsrLow[..sensor] + [pa.fsrLow[sensor]];
        assert pb.fsrLow[..sensor + 1] == pb.fsrLow[..sensor] + [pb.fsrLow[sensor]];
        assert pa.fsrHigh[..sensor + 1] == pa.fsrHigh[..sensor] + [pa.fsrHigh[sensor]];
        assert pb.fsrHigh[..sensor + 1] == pb.fsrHigh[..sensor] + [pb.fsrHigh[sensor]];
        sensor := sensor + 1;
      }
      assert pa.fsrLow == pa.fsrLow[..SensorsPerPanel] && pb.fsrLow == pb.fsrLow[..SensorsPerPanel];
      assert pa.fsrHigh == pa.fsrHigh[..SensorsPerPanel] && pb.fsrHigh == pb.fsrHigh[..SensorsPerPanel];
      panel := panel + 1;
    }
    return true;
  }

  /** The eight numbers of a preset: load-cell low/high for every panel and
      for the center, then the FSR values likewise. The FSR values are
      16-bit, although the record's FSR cells are bytes on the wire. */
  datatype PresetValues = PresetValues(
    loadCellLow: Byte, loadCellHigh: Byte, loadCellLowCenter: Byte, loadCellHighCenter: Byte,
    fsrLow: U16, fsrHigh: U16, fsrLowCenter: U16, fsrHighCenter: U16)

  const CenterPanel: nat := 4

  const HighPreset := PresetValues(20, 25, 20, 30, 275, 300, 275, 300)
  const NormalPreset := PresetValues(33, 42, 35, 60, 650, 700, 845, 895)
  const LowPreset := PresetValues(70, 80, 100, 120, 800, 875, 845, 895)

  /** The preset names, in the order the classifier tries them. */
  const PresetNames: seq<string> := ["low", "normal", "high"]

  /** The thresholds a preset gives panel p. */
  function PresetPanel(v: PresetValues, p: nat): PanelThresholds
  {
    if p == CenterPanel then
      PanelThresholds(v.loadCellLowCenter, v.loadCellHighCenter,
                      Repeat(v.fsrLowCenter, SensorsPerPanel), Repeat(v.fsrHighCenter, SensorsPerPanel))
    else
      PanelThresholds(v.loadCellLow, v.loadCellHigh, Repeat(v.fsrLow, SensorsPerPanel), Repeat(v.fsrHigh, SensorsPerPanel))
  }

  /** Replaces a panel's thresholds, keeping its other fields. */
  function WithThresholds(p: PanelSettings, t: PanelThresholds): (r: PanelSettings)
    ensures ThresholdsOf(r) == t
    ensures r.combinedLow == p.combinedLow && r.combinedHigh == p.combinedHigh && r.reserved == p.reserved
  {
    p.(loadCellLow := t.low, loadCellHigh := t.high, fsrLow := t.fsrLow, fsrHigh := t.fsrHigh)
  }

  /** The private `SetPreset` overload: every panel gets the preset's values,
      the center panel its own. */
  function ApplyPreset(c: Config, v: PresetValues): (r: Config)
    requires Shaped(c)
    ensures Shaped(r) && r == c.(panels := r.panels)
    ensures forall p :: 0 <= p < PanelCount ==>
      ThresholdsOf(r.panels[p]) == PresetPanel(v, p) && r.panels[p] == WithThresholds(c.panels[p], PresetPanel(v, p))
  {
    c.(panels := seq(PanelCount, p requires 0 <= p < PanelCount => WithThresholds(c.panels[p], PresetPanel(v, p))))
  }

  /** `SetPreset(name, config)`: an unknown name leaves the record alone. */
  function SetPreset(name: string, c: Config): (r: Config)
    requires Shaped(c)
    ensures Shaped(r)
    ensures name !in PresetNames ==> r == c
    ensures name == "low" ==> r == ApplyPreset(c, LowPreset)
    ensures name == "normal" ==> r == ApplyPreset(c, NormalPreset)
    ensures name == "high" ==> r == ApplyPreset(c, HighPreset)
  {
    if name == "low" then ApplyPreset(c, LowPreset)
    else if name == "normal" then ApplyPreset(c, NormalPreset)
    else if name == "high" then ApplyPreset(c, HighPreset)
    else c
  }

  /** The panel whose thresholds panel p mirrors under unified thresholds:
      left and right follow down (7), the corners follow up-right (2). */
  function UnifiedSource(p: nat): (s: nat)
    ensures p < PanelCount ==> s < PanelCount
    ensures s == 2 || s == 7 || s == p
  {
    if p == 3 || p == 5 then 7
    else if p == 0 || p == 6 || p == 8 then 2
    else p
  }

  /** `SyncUnifiedThresholds`. */
  function SyncUnifiedThresholds(c: Config): (r: Config)
    requires Shaped(c)
    ensures Shaped(r) && r == c.(panels := r.panels)
    ensures forall p :: 0 <= p < PanelCount ==>
      ThresholdsOf(r.panels[p]) == ThresholdsOf(c.panels[UnifiedSource(p)])
      && r.panels[p] == WithThresholds(c.panels[p], ThresholdsOf(c.panels[UnifiedSource(p)]))
  {
    c.(panels := seq(PanelCount, p requires 0 <= p < PanelCount =>
         WithThresholds(c.panels[p], ThresholdsOf(c.panels[UnifiedSource(p)]))))
  }

  /** Panels 1, 2, 4 and 7 are never changed by the sync. */
  lemma SyncKeepsSourcePanels(c: Config)
    requires Shaped(c)
    ensures forall p :: p in {1, 2, 4, 7} ==> SyncUnifiedThresholds(c).panels[p] == c.panels[p]
  {
    var r := SyncUnifiedThresholds(c);
    forall p | p in {1, 2, 4, 7}
      ensures r.panels[p] == c.panels[p]
    {
      assert UnifiedSource(p) == p;
    }
  }

  /** Syncing twice is syncing once. */
  lemma SyncIdempotent(c: Config)
    requires Shaped(c)
    ensures SyncUnifiedThresholds(SyncUnifiedThresholds(c)) == SyncUnifiedThresholds(c)
  {
    var once := SyncUnifiedThresholds(c);
    var twice := SyncUnifiedThresholds(once);
    forall p | 0 <= p < PanelCount
      ensures twice.panels[p] == once.panels[p]
    {
      assert UnifiedSource(UnifiedSource(p)) == UnifiedSource(p);
    }
    assert twice.panels == once.panels;
  }

  /** `AreUnifiedThresholdsSynced` as intended: the sync would change no
      threshold. */
  predicate AreUnifiedThresholdsSynced(c: Config)
    requires Shaped(c)
  {
    ThresholdsEqual(c, SyncUnifiedThresholds(c))
  }

  /** Synced records are exactly the fixed points of the sync. */
  lemma SyncedIffFixedPoint(c: Config)
    requires Shaped(c)
    ensures AreUnifiedThresholdsSynced(c) <==> SyncUnifiedThresholds(c) == c
  {
    var r := SyncUnifiedThresholds(c);
    if AreUnifiedThresholdsSynced(c) {
      forall p | 0 <= p < PanelCount
        ensures r.panels[p] == c.panels[p]
      {
        assert ThresholdsOf(c.panels[p]) == ThresholdsOf(r.panels[p]);
      }
      assert r.panels == c.panels;
    }
  }

  /** A synced record has equal thresholds across each mirrored group. */
  lemma SyncedMeansGroupsEqual(c: Config)
    requires Shaped(c)
    ensures AreUnifiedThresholdsSynced(c) <==>
      forall p :: 0 <= p < PanelCount ==> ThresholdsOf(c.panels[p]) == ThresholdsOf(c.panels[UnifiedSource(p)])
  {
    var r := SyncUnifiedThresholds(c);
    assert forall p :: 0 <= p < PanelCount ==> ThresholdsOf(r.panels[p]) == ThresholdsOf(c.panels[UnifiedSource(p)]);
  }

  /** `AreUnifiedThresholdsSynced` as written. The local copy of the record
      shares its panel array with the caller's record (a C# struct copy
      copies array references), so the sync rewrites the caller's
      thresholds and the comparison is of one array with itself. The result
      is the answer and the caller's record as it is left afterwards. */
  function AreUnifiedThresholdsSyncedAsWritten(c: Config): (r: (bool, Config))
    requires Shaped(c)
    ensures r.0
    ensures r.1 == SyncUnifiedThresholds(c)
  {
    var synced := SyncUnifiedThresholds(c);
    (ThresholdsEqual(synced, synced), synced)
  }

  /** The as-written check reports "synced" for a record the sync changes:
      panel 3's thresholds differ from panel 7's in the empty record with
      panel 7 raised. */
  lemma AsWrittenSyncCheckMisreports()
    ensures var c := ConfigHelpers.Create().(panels := ConfigHelpers.Create().panels[7 := WithThresholds(ConfigHelpers.Create().panels[7], PanelThresholds(20, 25, Repeat(0, 4), Repeat(0, 4)))]);
      Shaped(c) && AreUnifiedThresholdsSyncedAsWritten(c).0 && !AreUnifiedThresholdsSynced(c)
  {
    var z := ConfigHelpers.Create();
    var c := z.(panels := z.panels[7 := WithThresholds(z.panels[7], PanelThresholds(20, 25, Repeat(0, 4), Repeat(0, 4)))]);
    assert ThresholdsOf(c.panels[3]) != ThresholdsOf(SyncUnifiedThresholds(c).panels[3]);
  }

  /** The record the classifier compares: version-1 records (configVersion
      0xFF or below 2) are synced first. */
  function Normalized(c: Config): (r: Config)
    requires Shaped(c)
    ensures Shaped(r)
    ensures c.configVersion == 0xFF || c.configVersion < 2 ==> r == SyncUnifiedThresholds(c)
    ensures !(c.configVersion == 0xFF || c.configVersion < 2) ==> r == c
  {
    if c.configVersion == 0xFF || c.configVersion < 2 then SyncUnifiedThresholds(c) else c
  }

  /** The record a preset name produces from the empty record. */
  function PresetConfig(name: string): (r: Config)
    ensures Shaped(r)
  {
    SetPreset(name, ConfigHelpers.Create())
  }

  /** `GetPreset`: the first preset, in the order low, normal, high, whose
      thresholds the (normalized) record matches, or "" if none does. */
  method GetPreset(c: Config) returns (name: string)
    requires Shaped(c)
    ensures name == "" || name in PresetNames
    ensures name != "" ==> ThresholdsEqual(Normalized(c), PresetConfig(name))
    ensures name != "" ==> forall i :: 0 <= i < |PresetNames| && PresetNames[i] == name ==>
      forall j :: 0 <= j < i ==> !ThresholdsEqual(Normalized(c), PresetConfig(PresetNames[j]))
    ensures name == "" ==> forall i :: 0 <= i < |PresetNames| ==> !ThresholdsEqual(Normalized(c), PresetConfig(PresetNames[i]))
  {
    var compared := Normalized(c);
    var i := 0;
    while i < |PresetNames|
      invariant 0 <= i <= |PresetNames|
      invariant forall j :: 0 <= j < i ==> !ThresholdsEqual(compared, PresetConfig(PresetNames[j]))
    {
      var same := SamePreset(compared, PresetConfig(PresetNames[i]));
      if same {
        return PresetNames[i];
      }
      i := i + 1;
    }
    return "";
  }

  /** Applying a preset makes its thresholds uniform across each mirrored
      group, so the record is synced whatever it held before. */
  lemma PresetIsSynced(name: string, c: Config)
    requires Shaped(c) && name in PresetNames
    ensures AreUnifiedThresholdsSynced(SetPreset(name, c))
  {
  }

  /** A record holding preset `name` matches that preset and no earlier
      one: the facts `GetPreset` needs to return `name`. */
  lemma PresetMatchesOnlyItself(name: string, c: Config)
    requires Shaped(c) && name in PresetNames
    ensures ThresholdsEqual(Normalized(SetPreset(name, c)), PresetConfig(name))
    ensures forall i :: 0 <= i < |PresetNames| && PresetNames[i] != name ==>
      !ThresholdsEqual(Normalized(SetPreset(name, c)), PresetConfig(PresetNames[i]))
  {
    var r := SetPreset(name, c);
    PresetIsSynced(name, c);
    SyncedIffFixedPoint(r);
    assert Normalized(r) == r;
    forall i | 0 <= i < |PresetNames| && PresetNames[i] != name
      ensures !ThresholdsEqual(r, PresetConfig(PresetNames[i]))
    {
      assert ThresholdsOf(r.panels[0]).low != ThresholdsOf(PresetConfig(PresetNames[i]).panels[0]).low;
    }
  }

  /** Classifying a record a preset was applied to returns that preset. */
  method ClassifyAppliedPreset(name: string, c: Config) returns (found: string)
    requires Shaped(c) && name in PresetNames
    ensures found == name
  {
    PresetMatchesOnlyItself(name, c);
    found := GetPreset(SetPreset(name, c));
    assert found != "";
  }
}
