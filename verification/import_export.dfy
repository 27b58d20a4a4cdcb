/**
 Saving and loading the configuration tool's settings as JSON: the list of
 custom-threshold sensors kept in the application settings, and the export
 and import of a pad's thresholds, enabled panels and colours together with
 the tool's threshold options. Colour conversion goes through floating
 point and the UI colour type, so it is a parameter here.
 */
module ImportExport {
  import opened Wrappers
  import opened Bytes
  import opened Json
  import opened JsonWriter
  import opened ConfigRecord
  import opened ConfigHelpers
  import Thresholds

  /** What reading the settings can raise: an exception of the reader or of
      a typed lookup, or the cast of a value that is not a list to a list. */
  datatype Fault = Raised(e: JsonError) | InvalidCast

  /** The application settings an export carries. customSensors is the JSON
      text stored in the settings, not the parsed list. */
  datatype AppSettings = AppSettings(
    advancedMode: bool,
    useOuterSensorThresholds: bool,
    useInnerSensorThresholds: bool,
    customSensors: string)

  /** An integer as the writer stores it; it reads back as itself. */
  function IntValue(n: int): (v: Value)
    ensures v.Num? && v.n.exponent == 0 && TruncateToInt(v.n) == n
  {
    Num(Number(n < 0, if n < 0 then -n else n, 0))
  }

  // ----- the custom-sensor list -----

  /** One sensor as a two-element list [panel, sensor]. */
  function SensorPair(s: Thresholds.PanelAndSensor): Value
  {
    Array([IntValue(s.panel), IntValue(s.sensor)])
  }

  function SensorsValue(list: seq<Thresholds.PanelAndSensor>): (v: Value)
    ensures v.Array? && |v.items| == |list|
    ensures forall i :: 0 <= i < |list| ==> v.items[i] == SensorPair(list[i])
    ensures WellFormed(v)
  {
    var v := Array(seq(|list|, i requires 0 <= i < |list| => SensorPair(list[i])));
    assert forall i :: 0 <= i < |list| ==> WellFormed(v.items[i]) by {
      forall i | 0 <= i < |list| ensures WellFormed(v.items[i]) {
        var p := v.items[i];
        assert p.items == [IntValue(list[i].panel), IntValue(list[i].sensor)];
        assert forall k :: 0 <= k < |p.items| ==> WellFormed(p.items[k]);
      }
    }
    v
  }

  /** `SetCustomSensors`: the text stored in the settings for a sensor list. */
  function SetCustomSensors(list: seq<Thresholds.PanelAndSensor>): string
  {
    Serialize(SensorsValue(list))
  }

  /** `GetCustomSensorsJSON`: the stored text parsed as a list. Text that
      does not parse gives the empty list; a null document and a repeated
      key still raise. */
  function CustomSensorsJson(setting: string): (r: Result<seq<Value>, JsonError>)
    ensures ParseDocument(setting) == Err(ParseError) ==> r == Ok([])
    ensures ParseDocument(setting) == Err(DuplicateKey) ==> r == Err(DuplicateKey)
    ensures ParseDocument(setting) == Ok(Null) ==> r == Err(NullReference)
    ensures ParseDocument(setting).Ok? && ParseDocument(setting).value.Array? ==> r == Ok(ParseDocument(setting).value.items)
    ensures ParseDocument(setting).Ok? && !ParseDocument(setting).value.Array? && ParseDocument(setting).value != Null ==> r == Ok([])
  {
    match ParseArrayDocument(setting)
    case Err(ParseError) => Ok([])
    case Err(e) => Err(e)
    case Ok(items) => Ok(items)
  }

  /** An item the sensor reader accepts: a list whose first two elements, where
      present, are not null. */
  predicate SensorItemOk(v: Value)
  {
    v.Array? && (|v.items| > 0 ==> v.items[0] != Null) && (|v.items| > 1 ==> v.items[1] != Null)
  }

  /** The loop of `GetCustomSensors` over the parsed items: each item is cast
      to a list, its elements 0 and 1 are read as integers with -1 for
      missing, and an item with a -1 is skipped. */
  function DecodeSensors(items: seq<Value>): (r: Result<seq<Thresholds.PanelAndSensor>, Fault>)
    ensures r.Ok? <==> forall i :: 0 <= i < |items| ==> SensorItemOk(items[i])
    ensures r.Ok? ==> |r.value| <= |items|
    ensures r.Ok? ==> forall k :: 0 <= k < |r.value| ==> r.value[k].panel != -1 && r.value[k].sensor != -1
    ensures items != [] && items[0] == Null ==> r == Err(Raised(NullReference))
    ensures items != [] && items[0] != Null && !items[0].Array? ==> r == Err(InvalidCast)
  {
    if items == [] then Ok([])
    else
      var head := items[0];
      assert forall i :: 1 <= i < |items| ==> items[i] == items[1..][i - 1];
      if head == Null then Err(Raised(NullReference))
      else if !head.Array? then Err(InvalidCast)
      else
        match GetIntAt(head.items, 0, -1)
        case Err(e) => Err(Raised(e))
        case Ok(panel) =>
          match GetIntAt(head.items, 1, -1)
          case Err(e) => Err(Raised(e))
          case Ok(sensor) =>
            match DecodeSensors(items[1..])
            case Err(f) => Err(f)
            case Ok(rest) =>
              if panel == -1 || sensor == -1 then Ok(rest)
              else Ok([Thresholds.PanelAndSensor(panel, sensor)] + rest)
  }

  /** `GetCustomSensors`: the sensor list held in the settings text. */
  function GetCustomSensors(setting: string): (r: Result<seq<Thresholds.PanelAndSensor>, Fault>)
    ensures setting == "" ==> r == Ok([])
    ensures ParseDocument(setting) == Err(ParseError) ==> r == Ok([])
    ensures ParseDocument(setting) == Ok(Null) && setting != "" ==> r == Err(Raised(NullReference))
  {
    if setting == "" then Ok([])
    else
      match CustomSensorsJson(setting)
      case Err(e) => Err(Raised(e))
      case Ok(items) => DecodeSensors(items)
  }

  /** The sensors of a list that survive a save and load: those without -1 in
      either coordinate, in order. */
  function Kept(list: seq<Thresholds.PanelAndSensor>): (r: seq<Thresholds.PanelAndSensor>)
    ensures forall x :: x in r <==> x in list && x.panel != -1 && x.sensor != -1
  {
    if list == [] then []
    else
      var rest := Kept(list[1..]);
      assert forall x :: x in list <==> x == list[0] || x in list[1..];
      if list[0].panel == -1 || list[0].sensor == -1 then rest else [list[0]] + rest
  }

  lemma {:induction false} DecodeSensorPairs(list: seq<Thresholds.PanelAndSensor>)
    ensures DecodeSensors(SensorsValue(list).items) == Ok(Kept(list))
    decreases |list|
  {
    var items := SensorsValue(list).items;
    if list != [] {
      assert items[1..] == SensorsValue(list[1..]).items;
      DecodeSensorPairs(list[1..]);
      var head := items[0];
      assert head.items == [IntValue(list[0].panel), IntValue(list[0].sensor)];
    }
  }

  /** Saving a sensor list and loading it back gives the list without the
      entries that carry -1, which the loader takes for missing. */
  lemma CustomSensorsRoundTrip(list: seq<Thresholds.PanelAndSensor>)
    ensures CustomSensorsJson(SetCustomSensors(list)) == Ok(SensorsValue(list).items)
    ensures GetCustomSensors(SetCustomSensors(list)) == Ok(Kept(list))
  {
    SerializeRoundTrip(SensorsValue(list));
    DecodeSensorPairs(list);
  }

  // ----- export -----

  /** The threshold exported for a panel: sensor 0's FSR threshold on an FSR
      pad, the load-cell threshold otherwise. */
  function ExportedThreshold(c: Config, p: nat, low: bool): int
    requires Shaped(c) && p < PanelCount
  {
    if Fsr(c) then (if low then c.panels[p].fsrLow[0] else c.panels[p].fsrHigh[0])
    else (if low then c.panels[p].loadCellLow else c.panels[p].loadCellHigh)
  }

  function LowKey(fsr: bool): (k: string)
    ensures k == "fsrLowThresholds" || k == "panelLowThresholds"
  {
    if fsr then "fsrLowThresholds" else "panelLowThresholds"
  }

  function HighKey(fsr: bool): (k: string)
    ensures k == "fsrHighThresholds" || k == "panelHighThresholds"
  {
    if fsr then "fsrHighThresholds" else "panelHighThresholds"
  }

  function ThresholdList(c: Config, low: bool): (r: seq<Value>)
    requires Shaped(c)
    ensures |r| == PanelCount
    ensures forall p :: 0 <= p < PanelCount ==> r[p] == IntValue(ExportedThreshold(c, p, low))
  {
    seq(PanelCount, p requires 0 <= p < PanelCount => IntValue(ExportedThreshold(c, p, low)))
  }

  /** The positions from `from` on whose flag is set, in increasing order. */
  function SetIndexes(flags: seq<bool>, from: nat): (r: seq<int>)
    requires from <= |flags|
    ensures forall i :: 0 <= i < |r| ==> from <= r[i] < |flags| && flags[r[i]]
    ensures forall p :: from <= p < |flags| && flags[p] ==> p in r
    decreases |flags| - from
  {
    if from == |flags| then []
    else if flags[from] then [from] + SetIndexes(flags, from + 1)
    else SetIndexes(flags, from + 1)
  }

  function IntValues(xs: seq<int>): (r: seq<Value>)
    ensures |r| == |xs| && forall i :: 0 <= i < |xs| ==> r[i] == IntValue(xs[i])
  {
    seq(|xs|, i requires 0 <= i < |xs| => IntValue(xs[i]))
  }

  /** A colour as the pad stores it. */
  datatype Rgb = Rgb(r: Byte, g: Byte, b: Byte)

  /** Byte k of a panel's three colour bytes. */
  function Component(t: Rgb, k: nat): Byte
  {
    if k == 0 then t.r else if k == 1 then t.g else t.b
  }

  function PanelColor(c: Config, p: nat): Rgb
    requires Shaped(c) && p < PanelCount
  {
    Rgb(c.stepColor[3 * p], c.stepColor[3 * p + 1], c.stepColor[3 * p + 2])
  }

  /** Each panel's colour by name; colorName stands for the conversion back to
      the UI's colour scale followed by the "#RRGGBB" formatting. */
  function ColorList(c: Config, colorName: Rgb -> string): (r: seq<Value>)
    requires Shaped(c)
    ensures |r| == PanelCount && forall p :: 0 <= p < PanelCount ==> r[p] == Str(colorName(PanelColor(c, p)))
  {
    seq(PanelCount, p requires 0 <= p < PanelCount => Str(colorName(PanelColor(c, p))))
  }

  /** The exported dictionary, in the order its members are added. */
  function ExportEntries(c: Config, st: AppSettings, colorName: Rgb -> string, custom: seq<Value>): seq<(string, Value)>
    requires Shaped(c)
  {
    [ (LowKey(Fsr(c)), Array(ThresholdList(c, true))),
      (HighKey(Fsr(c)), Array(ThresholdList(c, false))),
      ("enabledPanels", Array(IntValues(SetIndexes(GetEnabledPanels(c), 0)))),
      ("panelColors", Array(ColorList(c, colorName))),
      ("advancedMode", Bool(st.advancedMode)),
      ("useOuterSensorThresholds", Bool(st.useOuterSensorThresholds)),
      ("useInnerSensorThresholds", Bool(st.useInnerSensorThresholds)),
      ("customSensors", Array(custom)) ]
  }

  /** The members of the exported dictionary, one by one. */
  lemma ExportMembers(c: Config, st: AppSettings, colorName: Rgb -> string, custom: seq<Value>)
    requires Shaped(c)
    ensures var e := ExportEntries(c, st, colorName, custom);
      && |e| == 8
      && e[0] == (LowKey(Fsr(c)), Array(ThresholdList(c, true)))
      && e[1] == (HighKey(Fsr(c)), Array(ThresholdList(c, false)))
      && e[2] == ("enabledPanels", Array(IntValues(SetIndexes(GetEnabledPanels(c), 0))))
      && e[3] == ("panelColors", Array(ColorList(c, colorName)))
      && e[4] == ("advancedMode", Bool(st.advancedMode))
      && e[5] == ("useOuterSensorThresholds", Bool(st.useOuterSensorThresholds))
      && e[6] == ("useInnerSensorThresholds", Bool(st.useInnerSensorThresholds))
      && e[7] == ("customSensors", Array(custom))
  {
  }

  /** The option members of an export are found by their keys: no earlier
      member has the same key. */
  lemma ExportOptionLookups(c: Config, st: AppSettings, colorName: Rgb -> string, custom: seq<Value>)
    requires Shaped(c)
    ensures var e := ExportEntries(c, st, colorName, custom);
      && Lookup(e, "advancedMode") == Some(e[4].1)
      && Lookup(e, "useOuterSensorThresholds") == Some(e[5].1)
      && Lookup(e, "useInnerSensorThresholds") == Some(e[6].1)
      && Lookup(e, "customSensors") == Some(e[7].1)
  {
    ExportMembers(c, st, colorName, custom);
    hide *;
    var e := ExportEntries(c, st, colorName, custom);
    forall k | 0 <= k < 7
      ensures e[k].0 != "customSensors"
      ensures k < 4 ==> e[k].0 != "advancedMode"
      ensures k < 6 ==> e[k].0 != "useInnerSensorThresholds"
      ensures k < 5 ==> e[k].0 != "useOuterSensorThresholds"
    {
      assert k == 0 || k == 1 || k == 2 || k == 3 || k == 4 || k == 5 || k == 6;
    }
    LookupAt(e, 4, "advancedMode");
    LookupAt(e, 5, "useOuterSensorThresholds");
    LookupAt(e, 6, "useInnerSensorThresholds");
    LookupAt(e, 7, "customSensors");
  }

  /** `ExportSettingsToJSON`: fails only where reading the stored sensor list
      raises. */
  function ExportSettingsToJson(c: Config, st: AppSettings, colorName: Rgb -> string): (r: Result<string, JsonError>)
    requires Shaped(c)
    ensures r.Err? <==> CustomSensorsJson(st.customSensors).Err?
    ensures r.Ok? ==> r.value == Serialize(Object(ExportEntries(c, st, colorName, CustomSensorsJson(st.customSensors).value)))
  {
    match CustomSensorsJson(st.customSensors)
    case Err(e) => Err(e)
    case Ok(custom) => Ok(Serialize(Object(ExportEntries(c, st, colorName, custom))))
  }

  // ----- import -----

  /** A null element at index p. */
  predicate NullAt(items: seq<Value>, p: nat)
  {
    p < |items| && items[p] == Null
  }

  /** The four cells of an FSR panel after import: the number at index p of
      the list rounded toward zero and cut to 8 bits, each cell its own value
      (cut to 8 bits) when there is none. */
  function ReadCells(items: seq<Value>, p: nat, cells: seq<nat>): (r: seq<nat>)
    requires !NullAt(items, p)
    ensures |r| == |cells| && forall j :: 0 <= j < |cells| ==> r[j] < 0x100
    ensures p < |items| && items[p].Num? ==>
      forall j :: 0 <= j < |cells| ==> r[j] == Truncate8(TruncateToInt(items[p].n))
    ensures !(p < |items| && items[p].Num?) ==> forall j :: 0 <= j < |cells| ==> r[j] == Truncate8(cells[j])
  {
    seq(|cells|, j requires 0 <= j < |cells| => Truncate8(GetIntAt(items, p, cells[j]).value) as nat)
  }

  function ImportPanel(fsr: bool, lows: seq<Value>, highs: seq<Value>, p: nat, panel: PanelSettings): (r: PanelSettings)
    requires !NullAt(lows, p) && !NullAt(highs, p)
    ensures r == panel.(loadCellLow := r.loadCellLow, loadCellHigh := r.loadCellHigh, fsrLow := r.fsrLow, fsrHigh := r.fsrHigh)
    ensures |r.fsrLow| == |panel.fsrLow| && |r.fsrHigh| == |panel.fsrHigh|
  {
    if fsr then panel.(fsrLow := ReadCells(lows, p, panel.fsrLow), fsrHigh := ReadCells(highs, p, panel.fsrHigh))
    else panel.(loadCellLow := GetByteAt(lows, p, panel.loadCellLow).value,
                loadCellHigh := GetByteAt(highs, p, panel.loadCellHigh).value)
  }

  /** The threshold part of the import: the lists under the FSR or the
      load-cell keys, as the receiving pad has FSRs or not; a missing list
      leaves the thresholds as they are. */
  function ImportThresholds(dict: seq<(string, Value)>, c: Config): (r: Result<Config, JsonError>)
    requires Shaped(c)
    ensures r.Err? ==> r.error == NullReference
    ensures r.Ok? ==> Shaped(r.value) && r.value == c.(panels := r.value.panels)
  {
    var fsr := Fsr(c);
    match GetList(dict, LowKey(fsr), Some([]))
    case Err(e) => Err(e)
    case Ok(lowList) =>
      match GetList(dict, HighKey(fsr), Some([]))
      case Err(e) => Err(e)
      case Ok(highList) =>
        var lows := lowList.value;
        var highs := highList.value;
        if exists p :: 0 <= p < PanelCount && (NullAt(lows, p) || NullAt(highs, p)) then Err(NullReference)
        else
          Ok(c.(panels := seq(PanelCount, p requires 0 <= p < PanelCount => ImportPanel(fsr, lows, highs, p, c.panels[p]))))
  }

  /** The panel a list element names: its number rounded toward zero, or 0
      for an element that is not a number. */
  function ItemPanel(v: Value): int
  {
    if v.Num? then TruncateToInt(v.n) else 0
  }

  /** The enabled-panel flags an imported list gives: a panel is enabled iff
      some element names it; names outside 0..8 are ignored. */
  function EnabledFlags(items: seq<Value>): (r: Result<seq<bool>, JsonError>)
    ensures r.Err? <==> exists i :: 0 <= i < |items| && items[i] == Null
    ensures r.Err? ==> r.error == NullReference
    ensures r.Ok? ==> |r.value| == PanelCount
    ensures r.Ok? ==> forall p :: 0 <= p < PanelCount ==> (r.value[p] <==> exists i :: 0 <= i < |items| && ItemPanel(items[i]) == p)
  {
    if items == [] then Ok(Repeat(false, PanelCount))
    else if items[0] == Null then Err(NullReference)
    else
      assert forall i :: 1 <= i < |items| ==> items[i] == items[1..][i - 1];
      match EnabledFlags(items[1..])
      case Err(e) => Err(e)
      case Ok(rest) =>
        var p := ItemPanel(items[0]);
        if 0 <= p < PanelCount then Ok(rest[p := true]) else Ok(rest)
  }

  function ImportEnabled(dict: seq<(string, Value)>, c: Config): (r: Result<Config, JsonError>)
    requires Shaped(c)
    ensures r.Err? ==> r.error == NullReference
    ensures r.Ok? ==> Shaped(r.value) && r.value == c.(enabledSensors := r.value.enabledSensors)
  {
    match GetList(dict, "enabledPanels", None)
    case Err(e) => Err(e)
    case Ok(None) => Ok(c)
    case Ok(Some(items)) =>
      match EnabledFlags(items)
      case Err(e) => Err(e)
      case Ok(flags) => Ok(SetEnabledPanels(c, flags))
  }

  /** The colour bytes after import: the first min(9, |items|) panels take the
      colour named by their element ("#FFFFFF" for an element that is not a
      string); colorOf stands for parsing the name and scaling it to the
      hardware's range. */
  function ImportColors(items: seq<Value>, stepColor: seq<Byte>, colorOf: string -> Rgb): (r: seq<Byte>)
    requires |stepColor| == 3 * PanelCount
    requires forall p :: 0 <= p < PanelCount ==> !NullAt(items, p)
    ensures |r| == 3 * PanelCount
  {
    seq(3 * PanelCount, k requires 0 <= k < 3 * PanelCount => ImportedColorByte(items, stepColor, colorOf, k))
  }

  function ImportedColorByte(items: seq<Value>, stepColor: seq<Byte>, colorOf: string -> Rgb, k: nat): Byte
    requires k < |stepColor| == 3 * PanelCount
    requires forall p :: 0 <= p < PanelCount ==> !NullAt(items, p)
  {
    var p := k / 3;
    assert !NullAt(items, p);
    if p < |items| then Component(colorOf(GetStringAt(items, p, "#FFFFFF").value), k % 3) else stepColor[k]
  }

  function ImportPanelColors(dict: seq<(string, Value)>, c: Config, colorOf: string -> Rgb): (r: Result<Config, JsonError>)
    requires Shaped(c)
    ensures r.Err? ==> r.error == NullReference
    ensures r.Ok? ==> Shaped(r.value) && r.value == c.(stepColor := r.value.stepColor)
  {
    match GetList(dict, "panelColors", None)
    case Err(e) => Err(e)
    case Ok(None) => Ok(c)
    case Ok(Some(items)) =>
      if exists p :: 0 <= p < PanelCount && NullAt(items, p) then Err(NullReference)
      else Ok(c.(stepColor := ImportColors(items, c.stepColor, colorOf)))
  }

  /** The record after import differs from the one before only in the
      thresholds, the enabled-panel mask and the colours. */
  predicate ImportFrame(c: Config, r: Config)
    requires Shaped(c) && Shaped(r)
  {
    && r == c.(enabledSensors := r.enabledSensors, stepColor := r.stepColor, panels := r.panels)
    && forall p :: 0 <= p < PanelCount ==>
         r.panels[p] == c.panels[p].(loadCellLow := r.panels[p].loadCellLow, loadCellHigh := r.panels[p].loadCellHigh,
                                     fsrLow := r.panels[p].fsrLow, fsrHigh := r.panels[p].fsrHigh)
  }

  /** The settings part of the import: advanced mode (default on), the two
      threshold options (default off) and the stored sensor list, kept when
      the member is missing. */
  function ImportOptions(dict: seq<(string, Value)>, st: AppSettings): (r: Result<AppSettings, JsonError>)
    ensures r.Err? ==> r.error == NullReference
  {
    match GetBool(dict, "advancedMode", true)
    case Err(e) => Err(e)
    case Ok(advanced) =>
      match GetBool(dict, "useOuterSensorThresholds", false)
      case Err(e) => Err(e)
      case Ok(outer) =>
        match GetBool(dict, "useInnerSensorThresholds", false)
        case Err(e) => Err(e)
        case Ok(inner) =>
          match GetList(dict, "customSensors", None)
          case Err(e) => Err(e)
          case Ok(custom) =>
            var sensors := if custom.Some? then Serialize(Array(custom.value)) else st.customSensors;
            Ok(AppSettings(advanced, outer, inner, sensors))
  }

  /** The import from a parsed dictionary, in the original order: thresholds,
      enabled panels, colours, the three options (advanced mode defaults to
      true, the others to false), and the sensor list when present. */
  function ImportFrom(dict: seq<(string, Value)>, c: Config, st: AppSettings, colorOf: string -> Rgb)
    : (r: Result<(Config, AppSettings), JsonError>)
    requires Shaped(c)
    ensures r.Err? ==> r.error == NullReference
    ensures r.Ok? ==> Shaped(r.value.0) && ImportFrame(c, r.value.0)
  {
    match ImportThresholds(dict, c)
    case Err(e) => Err(e)
    case Ok(c1) =>
      match ImportEnabled(dict, c1)
      case Err(e) => Err(e)
      case Ok(c2) =>
        match ImportPanelColors(dict, c2, colorOf)
        case Err(e) => Err(e)
        case Ok(c3) =>
          assert ImportFrame(c, c3) by {
            forall p | 0 <= p < PanelCount
              ensures c3.panels[p] == c.panels[p].(loadCellLow := c3.panels[p].loadCellLow, loadCellHigh := c3.panels[p].loadCellHigh,
                                                   fsrLow := c3.panels[p].fsrLow, fsrHigh := c3.panels[p].fsrHigh)
            {
              var fsr := Fsr(c);
              var lows := GetList(dict, LowKey(fsr), Some([])).value.value;
              var highs := GetList(dict, HighKey(fsr), Some([])).value.value;
              assert c1.panels[p] == ImportPanel(fsr, lows, highs, p, c.panels[p]);
            }
          }
          match ImportOptions(dict, st)
          case Err(e) => Err(e)
          case Ok(st1) => Ok((c3, st1))
  }

  /** `ImportSettingsFromJSON`: text that does not parse changes nothing (the
      tool shows a warning); any other exception propagates and nothing is
      stored. */
  function ImportSettingsFromJson(json: string, c: Config, st: AppSettings, colorOf: string -> Rgb)
    : (r: Result<(Config, AppSettings), JsonError>)
    requires Shaped(c)
    ensures ParseDocument(json) == Err(ParseError) ==> r == Ok((c, st))
    ensures ParseDocument(json) == Ok(Null) ==> r == Err(NullReference)
    ensures r.Err? ==> r.error != ParseError
    ensures r.Ok? ==> Shaped(r.value.0) && ImportFrame(c, r.value.0)
  {
    match ParseObjectDocument(json)
    case Err(ParseError) => Ok((c, st))
    case Err(e) => Err(e)
    case Ok(dict) => ImportFrom(dict, c, st, colorOf)
  }

  // ----- export, then import -----

  /** The exported dictionary is one the writer and reader agree on, when
      the three options are set. */
  lemma ExportWellFormed(c: Config, st: AppSettings, colorName: Rgb -> string, list: seq<Thresholds.PanelAndSensor>)
    requires Shaped(c)
    requires st.advancedMode && st.useOuterSensorThresholds && st.useInnerSensorThresholds
    ensures WellFormed(Object(ExportEntries(c, st, colorName, SensorsValue(list).items)))
  {
    var e := ExportEntries(c, st, colorName, SensorsValue(list).items);
    assert WellKeyed(e, {});
    forall x | x in e ensures WellFormed(x.1) {
      var indexes := SetIndexes(GetEnabledPanels(c), 0);
      assert WellFormed(Array(ThresholdList(c, true)));
      assert WellFormed(Array(ThresholdList(c, false)));
      assert WellFormed(Array(IntValues(indexes)));
      assert WellFormed(Array(ColorList(c, colorName)));
      assert WellFormed(SensorsValue(list));
    }
  }

  /** Reading an export back gives the exported dictionary. */
  lemma ExportParses(c: Config, st: AppSettings, colorName: Rgb -> string, list: seq<Thresholds.PanelAndSensor>)
    requires Shaped(c) && st.customSensors == SetCustomSensors(list)
    requires st.advancedMode && st.useOuterSensorThresholds && st.useInnerSensorThresholds
    ensures ExportSettingsToJson(c, st, colorName).Ok?
    ensures ParseObjectDocument(ExportSettingsToJson(c, st, colorName).value) == Ok(ExportEntries(c, st, colorName, SensorsValue(list).items))
  {
    CustomSensorsRoundTrip(list);
    ExportWellFormed(c, st, colorName, list);
    SerializeRoundTrip(Object(ExportEntries(c, st, colorName, SensorsValue(list).items)));
  }

  /** The record a pad keeps from an imported export: each panel's thresholds
      as exported, an FSR panel's four cells all taking sensor 0's value. */
  predicate ThresholdsFrom(c: Config, r: Config)
    requires Shaped(c) && Shaped(r)
  {
    forall p :: 0 <= p < PanelCount ==>
      if Fsr(c) then
        forall j :: 0 <= j < SensorsPerPanel ==> r.panels[p].fsrLow[j] == c.panels[p].fsrLow[0] && r.panels[p].fsrHigh[j] == c.panels[p].fsrHigh[0]
      else
        r.panels[p].loadCellLow == c.panels[p].loadCellLow && r.panels[p].loadCellHigh == c.panels[p].loadCellHigh
  }

  /** The colours a pad keeps from an imported export: each panel's colour
      named and parsed back. */
  predicate ColorsFrom(c: Config, r: Config, colorName: Rgb -> string, colorOf: string -> Rgb)
    requires Shaped(c) && Shaped(r)
  {
    forall k :: 0 <= k < 3 * PanelCount ==> r.stepColor[k] == Component(colorOf(colorName(PanelColor(c, k / 3))), k % 3)
  }

  lemma ImportThresholdsOfExport(e: seq<(string, Value)>, c: Config, st: AppSettings, colorName: Rgb -> string, custom: seq<Value>, target: Config)
    requires WireValid(c) && Shaped(target) && Fsr(target) == Fsr(c)
    requires e == ExportEntries(c, st, colorName, custom)
    ensures ImportThresholds(e, target).Ok?
    ensures ThresholdsFrom(c, ImportThresholds(e, target).value)
  {
    hide ExportEntries, ThresholdList, IntValue, ImportPanel, Lookup;
    ExportMembers(c, st, colorName, custom);
    LookupAt(e, 0, LowKey(Fsr(c)));
    LookupAt(e, 1, HighKey(Fsr(c)));
    var lows := ThresholdList(c, true);
    var highs := ThresholdList(c, false);
    var r := ImportThresholds(e, target).value;
    forall p | 0 <= p < PanelCount
      ensures if Fsr(c) then
          forall j :: 0 <= j < SensorsPerPanel ==> r.panels[p].fsrLow[j] == c.panels[p].fsrLow[0] && r.panels[p].fsrHigh[j] == c.panels[p].fsrHigh[0]
        else
          r.panels[p].loadCellLow == c.panels[p].loadCellLow && r.panels[p].loadCellHigh == c.panels[p].loadCellHigh
    {
      assert r.panels[p] == ImportPanel(Fsr(c), lows, highs, p, target.panels[p]);
      ImportPanelOfExport(c, p, target.panels[p]);
    }
  }

  /** One panel of the threshold import, reading an export. */
  lemma ImportPanelOfExport(c: Config, p: nat, panel: PanelSettings)
    requires WireValid(c) && p < PanelCount && PanelShaped(panel)
    ensures !NullAt(ThresholdList(c, true), p) && !NullAt(ThresholdList(c, false), p)
    ensures var q := ImportPanel(Fsr(c), ThresholdList(c, true), ThresholdList(c, false), p, panel);
      if Fsr(c) then
        forall j :: 0 <= j < SensorsPerPanel ==> q.fsrLow[j] == c.panels[p].fsrLow[0] && q.fsrHigh[j] == c.panels[p].fsrHigh[0]
      else
        q.loadCellLow == c.panels[p].loadCellLow && q.loadCellHigh == c.panels[p].loadCellHigh
  {
    assert PanelWireValid(c.panels[p]);
  }

  /** The enabled-panel list of an export names exactly the enabled panels. */
  lemma EnabledFlagsOfIndexes(flags: seq<bool>)
    requires |flags| == PanelCount
    ensures EnabledFlags(IntValues(SetIndexes(flags, 0))) == Ok(flags)
  {
    hide EnabledFlags, SetIndexes, IntValues;
    var indexes := SetIndexes(flags, 0);
    var items := IntValues(indexes);
    assert forall i :: 0 <= i < |items| ==> items[i].Num?;
    var r := EnabledFlags(items);
    assert r.Ok?;
    forall p | 0 <= p < PanelCount ensures r.value[p] == flags[p] {
      if flags[p] {
        var i :| 0 <= i < |indexes| && indexes[i] == p;
        assert ItemPanel(items[i]) == p;
      }
      if r.value[p] {
        var i :| 0 <= i < |items| && ItemPanel(items[i]) == p;
        assert ItemPanel(items[i]) == indexes[i];
      }
    }
    assert r.value == flags;
  }

  lemma ImportEnabledOfExport(e: seq<(string, Value)>, c: Config, st: AppSettings, colorName: Rgb -> string, custom: seq<Value>, target: Config)
    requires Shaped(c) && Shaped(target)
    requires e == ExportEntries(c, st, colorName, custom)
    ensures ImportEnabled(e, target).Ok?
    ensures GetEnabledPanels(ImportEnabled(e, target).value) == GetEnabledPanels(c)
  {
    LookupAt(e, 2, "enabledPanels");
    EnabledFlagsOfIndexes(GetEnabledPanels(c));
    EnabledPanelsRoundTrip(target, GetEnabledPanels(c));
  }

  lemma ImportColorsOfExport(e: seq<(string, Value)>, c: Config, st: AppSettings, colorName: Rgb -> string, custom: seq<Value>,
                             target: Config, colorOf: string -> Rgb)
    requires Shaped(c) && Shaped(target)
    requires e == ExportEntries(c, st, colorName, custom)
    ensures ImportPanelColors(e, target, colorOf).Ok?
    ensures ColorsFrom(c, ImportPanelColors(e, target, colorOf).value, colorName, colorOf)
  {
    LookupAt(e, 3, "panelColors");
    var items := ColorList(c, colorName);
    var r := ImportPanelColors(e, target, colorOf).value;
    forall k | 0 <= k < 3 * PanelCount
      ensures r.stepColor[k] == Component(colorOf(colorName(PanelColor(c, k / 3))), k % 3)
    {
      assert r.stepColor[k] == ImportedColorByte(items, target.stepColor, colorOf, k);
      assert items[k / 3] == Str(colorName(PanelColor(c, k / 3)));
    }
  }

  /** The options of an exported document read back as they were exported. */
  lemma ImportOptionsOfExport(c: Config, st: AppSettings, colorName: Rgb -> string, list: seq<Thresholds.PanelAndSensor>,
                              e: seq<(string, Value)>, other: AppSettings)
    requires Shaped(c)
    requires st.customSensors == SetCustomSensors(list)
    requires st.advancedMode && st.useOuterSensorThresholds && st.useInnerSensorThresholds
    requires e == ExportEntries(c, st, colorName, SensorsValue(list).items)
    ensures ImportOptions(e, other) == Ok(st)
  {
    var custom := SensorsValue(list).items;
    assert Serialize(Array(custom)) == st.customSensors;
    hide ExportEntries, Lookup, Serialize, SetCustomSensors, SensorsValue, GetBool, GetList;
    ExportMembers(c, st, colorName, custom);
    ExportOptionLookups(c, st, colorName, custom);
  }

  /** Exporting a pad and importing the text into a pad of the same kind
      carries the thresholds (sensor 0's FSR value to all four cells), the
      enabled panels, the colours as named and parsed back, the three options
      and the custom-sensor list; nothing else in the receiving record
      changes. The options must be set: a written `false` reads back as true. */
  lemma ExportImportRoundTrip(c: Config, st: AppSettings, colorName: Rgb -> string, list: seq<Thresholds.PanelAndSensor>,
                              target: Config, other: AppSettings, colorOf: string -> Rgb)
    requires WireValid(c) && Shaped(target) && Fsr(target) == Fsr(c)
    requires st.customSensors == SetCustomSensors(list)
    requires st.advancedMode && st.useOuterSensorThresholds && st.useInnerSensorThresholds
    ensures ExportSettingsToJson(c, st, colorName).Ok?
    ensures var r := ImportSettingsFromJson(ExportSettingsToJson(c, st, colorName).value, target, other, colorOf);
      && r.Ok? && r.value.1 == st && ImportFrame(target, r.value.0)
      && ThresholdsFrom(c, r.value.0)
      && GetEnabledPanels(r.value.0) == GetEnabledPanels(c)
      && ColorsFrom(c, r.value.0, colorName, colorOf)
  {
    hide ImportFrom, ExportEntries, Serialize, ParseObjectDocument, SetCustomSensors;
    ExportParses(c, st, colorName, list);
    var e := ExportEntries(c, st, colorName, SensorsValue(list).items);
    ImportFromExport(c, st, colorName, list, e, target, other, colorOf);
  }

  lemma ImportFromExport(c: Config, st: AppSettings, colorName: Rgb -> string, list: seq<Thresholds.PanelAndSensor>,
                         e: seq<(string, Value)>, target: Config, other: AppSettings, colorOf: string -> Rgb)
    requires WireValid(c) && Shaped(target) && Fsr(target) == Fsr(c)
    requires st.customSensors == SetCustomSensors(list)
    requires st.advancedMode && st.useOuterSensorThresholds && st.useInnerSensorThresholds
    requires e == ExportEntries(c, st, colorName, SensorsValue(list).items)
    ensures var r := ImportFrom(e, target, other, colorOf);
      && r.Ok? && r.value.1 == st && ImportFrame(target, r.value.0)
      && ThresholdsFrom(c, r.value.0)
      && GetEnabledPanels(r.value.0) == GetEnabledPanels(c)
      && ColorsFrom(c, r.value.0, colorName, colorOf)
  {
    hide Serialize, ExportEntries, ImportThresholds, ImportEnabled, ImportPanelColors, ImportOptions;
    var custom := SensorsValue(list).items;
    ExportMembers(c, st, colorName, custom);
    ImportThresholdsOfExport(e, c, st, colorName, custom, target);
    var c1 := ImportThresholds(e, target).value;
    ImportEnabledOfExport(e, c, st, colorName, custom, c1);
    var c2 := ImportEnabled(e, c1).value;
    ImportColorsOfExport(e, c, st, colorName, custom, c2, colorOf);
    ImportOptionsOfExport(c, st, colorName, list, e, other);
  }

  /** The members the import reads. */
  const ImportKeys: set<string> := {
    "fsrLowThresholds", "fsrHighThresholds", "panelLowThresholds", "panelHighThresholds",
    "enabledPanels", "panelColors", "advancedMode", "useOuterSensorThresholds",
    "useInnerSensorThresholds", "customSensors" }

  /** A document without any member the import reads (an object of other
      members, or a value of another kind) leaves a writable record as it is
      but still sets advanced mode and clears the two other options. */
  lemma ImportWithoutKnownKeys(json: string, c: Config, st: AppSettings, colorOf: string -> Rgb)
    requires WireValid(c)
    requires ParseObjectDocument(json).Ok?
    requires forall i :: 0 <= i < |ParseObjectDocument(json).value| ==> ParseObjectDocument(json).value[i].0 !in ImportKeys
    ensures ImportSettingsFromJson(json, c, st, colorOf)
      == Ok((c, st.(advancedMode := true, useOuterSensorThresholds := false, useInnerSensorThresholds := false)))
  {
    hide ParseObjectDocument, ParseDocument, Serialize, ReadCells, GetByteAt;
    var dict := ParseObjectDocument(json).value;
    var r := ImportThresholds(dict, c).value;
    forall p | 0 <= p < PanelCount ensures r.panels[p] == c.panels[p] {
      assert PanelWireValid(c.panels[p]);
    }
    assert r.panels == c.panels;
  }
}
