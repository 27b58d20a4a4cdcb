/**
 The configuration tool's helpers on the record: the FSR capability test,
 the 9-panel enable mask packed as nibbles, the threshold array accessors,
 the empty record, the auto-light panel mask, the version stamp applied on
 every write, and the sensor test-data predicates.
 */
module ConfigHelpers {
  import opened Bytes
  import opened Wrappers
  import opened ConfigRecord

  /** The pad uses FSR sensors: master firmware 4 or later with the FSR flag. */
  predicate Fsr(c: Config)
  {
    c.masterVersion >= 4 && FsrFlag(c)
  }

  /** The high nibble (0xF0) of a byte is non-zero. */
  predicate HighNibble(b: Byte)
  {
    b / 16 != 0
  }

  /** The low nibble (0x0F) of a byte is non-zero. */
  predicate LowNibble(b: Byte)
  {
    b % 16 != 0
  }

  /** Panel i is enabled: byte i/2 of enabledSensors, high nibble for even
      panels and low nibble for odd ones. */
  predicate PanelEnabled(c: Config, i: nat)
    requires Shaped(c) && i < PanelCount
  {
    if i % 2 == 0 then HighNibble(c.enabledSensors[i / 2]) else LowNibble(c.enabledSensors[i / 2])
  }

  /** `GetEnabledPanels`. */
  function GetEnabledPanels(c: Config): (r: seq<bool>)
    requires Shaped(c)
    ensures |r| == PanelCount
    ensures forall i :: 0 <= i < PanelCount ==> r[i] == PanelEnabled(c, i)
  {
    seq(PanelCount, i requires 0 <= i < PanelCount => PanelEnabled(c, i))
  }

  /** One packed byte: 0xF0 for the first panel, 0x0F for the second. */
  function PackPair(first: bool, second: bool): (b: Byte)
    ensures WholeNibbles(b)
    ensures HighNibble(b) == first && LowNibble(b) == second
  {
    (if first then 0xF0 else 0) + (if second then 0x0F else 0)
  }

  /** `SetEnabledPanels`: rewrites all five bytes from the first nine
      entries. */
  function SetEnabledPanels(c: Config, panels: seq<bool>): (r: Config)
    requires Shaped(c) && |panels| >= PanelCount
    ensures Shaped(r) && r == c.(enabledSensors := r.enabledSensors)
    ensures forall k :: 0 <= k < 5 ==> WholeNibbles(r.enabledSensors[k])
    ensures r.enabledSensors[4] % 16 == 0
  {
    c.(enabledSensors := [PackPair(panels[0], panels[1]), PackPair(panels[2], panels[3]),
                          PackPair(panels[4], panels[5]), PackPair(panels[6], panels[7]),
                          PackPair(panels[8], false)])
  }

  /** Reading back the mask returns the panels that were set. */
  lemma EnabledPanelsRoundTrip(c: Config, panels: seq<bool>)
    requires Shaped(c) && |panels| >= PanelCount
    ensures GetEnabledPanels(SetEnabledPanels(c, panels)) == panels[..PanelCount]
  {
    var r := SetEnabledPanels(c, panels);
    forall i | 0 <= i < PanelCount
      ensures PanelEnabled(r, i) == panels[i]
    {
    }
  }

  /** A byte that holds whole nibbles only. */
  predicate WholeNibbles(b: Byte)
  {
    b == 0x00 || b == 0x0F || b == 0xF0 || b == 0xFF
  }

  /** Writing back the panels read from a record reproduces its mask exactly
      when every byte already holds whole nibbles and byte 4 has no low
      nibble. */
  lemma EnabledPanelsCanonical(c: Config)
    requires Shaped(c)
    ensures SetEnabledPanels(c, GetEnabledPanels(c)) == c <==>
      (forall k :: 0 <= k < 5 ==> WholeNibbles(c.enabledSensors[k])) && c.enabledSensors[4] % 16 == 0
  {
    var e := c.enabledSensors;
    var r := SetEnabledPanels(c, GetEnabledPanels(c)).enabledSensors;
    assert forall k :: 0 <= k < 4 ==> r[k] == PackPair(HighNibble(e[k]), LowNibble(e[k]));
    assert r[4] == PackPair(HighNibble(e[4]), false);
    if (forall k :: 0 <= k < 5 ==> WholeNibbles(e[k])) && e[4] % 16 == 0 {
      assert r == e;
    }
  }

  /** `GetFirstEnabledPanel`: the lowest enabled panel, or 0 when none is
      enabled (the comment beside the source says 1; the code returns 0). */
  method GetFirstEnabledPanel(c: Config) returns (first: nat)
    requires Shaped(c)
    ensures first < PanelCount
    ensures (exists i :: 0 <= i < PanelCount && PanelEnabled(c, i)) ==>
      PanelEnabled(c, first) && forall j :: 0 <= j < first ==> !PanelEnabled(c, j)
    ensures (forall i :: 0 <= i < PanelCount ==> !PanelEnabled(c, i)) ==> first == 0
  {
    var enabled := GetEnabledPanels(c);
    var i := 0;
    while i < PanelCount
      invariant 0 <= i <= PanelCount
      invariant forall j :: 0 <= j < i ==> !enabled[j]
    {
      if enabled[i] {
        return i;
      }
      i := i + 1;
    }
    return 0;
  }

  /** The nine load-cell low thresholds, panel by panel. */
  function GetLowThresholds(c: Config): (r: seq<Byte>)
    requires Shaped(c)
    ensures |r| == PanelCount && forall i :: 0 <= i < PanelCount ==> r[i] == c.panels[i].loadCellLow
  {
    seq(PanelCount, i requires 0 <= i < PanelCount => c.panels[i].loadCellLow)
  }

  /** The nine load-cell high thresholds, panel by panel. */
  function GetHighThresholds(c: Config): (r: seq<Byte>)
    requires Shaped(c)
    ensures |r| == PanelCount && forall i :: 0 <= i < PanelCount ==> r[i] == c.panels[i].loadCellHigh
  {
    seq(PanelCount, i requires 0 <= i < PanelCount => c.panels[i].loadCellHigh)
  }

  /** Sets the nine load-cell low thresholds from the first nine values. */
  function SetLowThresholds(c: Config, values: seq<Byte>): (r: Config)
    requires Shaped(c) && |values| >= PanelCount
    ensures Shaped(r)
  {
    c.(panels := seq(PanelCount, i requires 0 <= i < PanelCount => c.panels[i].(loadCellLow := values[i])))
  }

  /** Sets the nine load-cell high thresholds from the first nine values. */
  function SetHighThresholds(c: Config, values: seq<Byte>): (r: Config)
    requires Shaped(c) && |values| >= PanelCount
    ensures Shaped(r)
  {
    c.(panels := seq(PanelCount, i requires 0 <= i < PanelCount => c.panels[i].(loadCellHigh := values[i])))
  }

  /** Setting then getting the thresholds returns the values set, and
      nothing but those thresholds changes. */
  lemma ThresholdsRoundTrip(c: Config, values: seq<Byte>)
    requires Shaped(c) && |values| >= PanelCount
    ensures GetLowThresholds(SetLowThresholds(c, values)) == values[..PanelCount]
    ensures GetHighThresholds(SetHighThresholds(c, values)) == values[..PanelCount]
    ensures GetHighThresholds(SetLowThresholds(c, values)) == GetHighThresholds(c)
    ensures GetLowThresholds(SetHighThresholds(c, values)) == GetLowThresholds(c)
    ensures forall i :: 0 <= i < PanelCount ==>
      SetLowThresholds(c, values).panels[i] == c.panels[i].(loadCellLow := values[i])
      && SetHighThresholds(c, values).panels[i] == c.panels[i].(loadCellHigh := values[i])
    ensures SetLowThresholds(c, values) == c.(panels := SetLowThresholds(c, values).panels)
    ensures SetHighThresholds(c, values) == c.(panels := SetHighThresholds(c, values).panels)
  {
  }

  /** Setting the thresholds a record already has changes nothing. */
  lemma ThresholdsIdentity(c: Config)
    requires Shaped(c)
    ensures SetLowThresholds(c, GetLowThresholds(c)) == c
    ensures SetHighThresholds(c, GetHighThresholds(c)) == c
  {
    assert SetLowThresholds(c, GetLowThresholds(c)).panels == c.panels;
    assert SetHighThresholds(c, GetHighThresholds(c)).panels == c.panels;
  }

  /** `SMXConfig.Create`: an empty record with every array allocated and
      every value zero. */
  function Create(): (c: Config)
    ensures WireValid(c)
    ensures c.masterVersion == 0 && c.configVersion == 0 && c.flags == 0
    ensures forall i :: 0 <= i < PanelCount ==> !PanelEnabled(c, i)
    ensures forall i :: 0 <= i < PanelCount ==>
      c.panels[i].loadCellLow == 0 && c.panels[i].loadCellHigh == 0
      && (forall j :: 0 <= j < SensorsPerPanel ==> c.panels[i].fsrLow[j] == 0 && c.panels[i].fsrHigh[j] == 0)
    ensures c.autoLightPanelMask == 0
  {
    Config(0, 0, 0, 0, 0, 0, 0, 0, 0, 0, 0, Repeat(0, 5), 0, Repeat(0, 27), Repeat(0, 3), 0, 0,
           Repeat(ZeroPanel(), PanelCount), 0, Repeat(0, 49))
  }

  /** The mask value 0xFFFF marks "light all panels". */
  const LightAllMask: U16 := 0xFFFF

  predicate LightAllPanelsMode(c: Config)
  {
    c.autoLightPanelMask == LightAllMask
  }

  /** `refreshAutoLightPanelMask`: unless `onlyIfEnabled` is set and the
      record is in light-all mode, the mask becomes exactly the enabled
      panels. */
  function RefreshAutoLightPanelMask(c: Config, onlyIfEnabled: bool): (r: Config)
    requires Shaped(c)
    ensures Shaped(r) && r == c.(autoLightPanelMask := r.autoLightPanelMask)
    ensures onlyIfEnabled && LightAllPanelsMode(c) ==> r == c
    ensures !(onlyIfEnabled && LightAllPanelsMode(c)) ==>
      r.autoLightPanelMask < Pow2(PanelCount)
      && forall i: nat :: BitSet(r.autoLightPanelMask, i) <==> i < PanelCount && PanelEnabled(c, i)
  {
    if onlyIfEnabled && LightAllPanelsMode(c) then c
    else
      var enabled := GetEnabledPanels(c);
      var mask := MaskOf(enabled);
      assert Pow2(PanelCount) == 512;
      forall i: nat ensures BitSet(mask, i) <==> i < PanelCount && PanelEnabled(c, i) {
        MaskOfBits(enabled, i);
      }
      c.(autoLightPanelMask := mask)
  }

  /** `setLightAllPanelsMode`: enabling sets the mask to 0xFFFF; disabling
      recomputes it from the enabled panels. */
  function SetLightAllPanelsMode(c: Config, enable: bool): (r: Config)
    requires Shaped(c)
    ensures Shaped(r) && r == c.(autoLightPanelMask := r.autoLightPanelMask)
    ensures LightAllPanelsMode(r) <==> enable
    ensures !enable ==> forall i: nat :: BitSet(r.autoLightPanelMask, i) <==> i < PanelCount && PanelEnabled(c, i)
  {
    if enable then c.(autoLightPanelMask := LightAllMask)
    else RefreshAutoLightPanelMask(c, false)
  }

  /** The version the tool stamps on every record it writes. */
  const WrittenConfigVersion: Byte := 2

  /** `SMX.SetConfig`: what reaches the SDK. Without the native library the
      call does nothing; otherwise the record goes out with configVersion 2,
      whatever it held. */
  function SetConfig(libraryAvailable: bool, c: Config): (sent: Option<Config>)
    ensures sent.Some? <==> libraryAvailable
    ensures sent.Some? ==> sent.value.configVersion == WrittenConfigVersion
    ensures sent.Some? ==> sent.value == c.(configVersion := WrittenConfigVersion)
  {
    if libraryAvailable then Some(c.(configVersion := WrittenConfigVersion)) else None
  }

  /** `SMXSensorTestModeData`: per-panel flags, levels and DIP switches,
      with per-sensor arrays indexed panel * 4 + sensor. */
  datatype TestModeData = TestModeData(
    haveDataFromPanel: seq<bool>,
    sensorLevel: seq<int>,
    badSensorInput: seq<bool>,
    dipSwitchPerPanel: seq<int>,
    wrongSensorJumper: seq<bool>)

  predicate TestDataShaped(d: TestModeData)
  {
    && |d.haveDataFromPanel| == PanelCount
    && |d.sensorLevel| == PanelCount * SensorsPerPanel
    && |d.badSensorInput| == PanelCount * SensorsPerPanel
    && |d.dipSwitchPerPanel| == PanelCount
    && |d.wrongSensorJumper| == PanelCount * SensorsPerPanel
  }

  /** The flag of one sensor of one panel in a per-sensor array. */
  predicate SensorFlag(flags: seq<bool>, panel: nat, sensor: nat)
    requires panel < PanelCount && sensor < SensorsPerPanel && |flags| == PanelCount * SensorsPerPanel
  {
    flags[panel * SensorsPerPanel + sensor]
  }

  /** Some sensor of the panel has its flag set in the per-sensor array. */
  predicate AnyFlagOnPanel(flags: seq<bool>, panel: nat)
    requires panel < PanelCount && |flags| == PanelCount * SensorsPerPanel
  {
    exists s: nat :: s < SensorsPerPanel && SensorFlag(flags, panel, s)
  }

  /** Scans the four flags of a panel, as both test-data predicates do. */
  method ScanPanelFlags(d: TestModeData, flags: seq<bool>, panel: nat) returns (any: bool)
    requires TestDataShaped(d) && panel < PanelCount && |flags| == PanelCount * SensorsPerPanel
    ensures any <==> d.haveDataFromPanel[panel] && AnyFlagOnPanel(flags, panel)
  {
    if !d.haveDataFromPanel[panel] {
      return false;
    }
    var sensor := 0;
    while sensor < SensorsPerPanel
      invariant 0 <= sensor <= SensorsPerPanel
      invariant forall s: nat :: s < sensor ==> !SensorFlag(flags, panel, s)
    {
      if SensorFlag(flags, panel, sensor) {
        return true;
      }
      sensor := sensor + 1;
    }
    return false;
  }

  /** `AnySensorsOnPanelNotResponding`: false without data from the panel,
      otherwise true iff one of its four bad-sensor flags is set. */
  method AnySensorsOnPanelNotResponding(d: TestModeData, panel: nat) returns (r: bool)
    requires TestDataShaped(d) && panel < PanelCount
    ensures r <==> d.haveDataFromPanel[panel] && AnyFlagOnPanel(d.badSensorInput, panel)
  {
    r := ScanPanelFlags(d, d.badSensorInput, panel);
  }

  /** `AnyBadJumpersOnPanel`: the same test on the wrong-jumper flags. */
  method AnyBadJumpersOnPanel(d: TestModeData, panel: nat) returns (r: bool)
    requires TestDataShaped(d) && panel < PanelCount
    ensures r <==> d.haveDataFromPanel[panel] && AnyFlagOnPanel(d.wrongSensorJumper, panel)
  {
    r := ScanPanelFlags(d, d.wrongSensorJumper, panel);
  }
}
