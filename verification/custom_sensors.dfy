/**
 The custom-sensors dialog: one toggle button per sensor of a panel, which
 adds the sensor to the custom-threshold list or takes it out, saves the
 list to the application settings, re-syncs the thresholds of the active
 pads and announces the change.
 */
module CustomSensors {
  import opened Wrappers
  import opened ConfigRecord
  import opened ConfigHelpers
  import opened Notifier
  import opened ActivePad
  import opened Thresholds
  import opened ImportExport

  /** `IsSensorEnabled`: a scan of the list for the panel and sensor. */
  method IsSensorEnabled(list: seq<PanelAndSensor>, panel: int, sensor: int) returns (enabled: bool)
    ensures enabled <==> PanelAndSensor(panel, sensor) in list
  {
    var k := 0;
    while k < |list|
      invariant 0 <= k <= |list|
      invariant PanelAndSensor(panel, sensor) !in list[..k]
    {
      if list[k].panel == panel && list[k].sensor == sensor {
        return true;
      }
      assert list[..k + 1] == list[..k] + [list[k]];
      k := k + 1;
    }
    assert list[..k] == list;
    return false;
  }

  /** `LoadUIFromConfig`: the checked state of the four buttons of a panel. */
  function ButtonStates(list: seq<PanelAndSensor>, panel: int): (r: seq<bool>)
    ensures |r| == SensorsPerPanel
    ensures forall s :: 0 <= s < SensorsPerPanel ==> (r[s] <==> PanelAndSensor(panel, s) in list)
  {
    seq(SensorsPerPanel, s requires 0 <= s < SensorsPerPanel => PanelAndSensor(panel, s) in list)
  }

  /** The list edit of a click: a sensor not in the list is appended, one in
      the list loses its first occurrence. */
  function Toggle(list: seq<PanelAndSensor>, x: PanelAndSensor): (r: seq<PanelAndSensor>)
    ensures x !in list ==> r == list + [x]
    ensures x in list ==>
              && |r| == |list| - 1 && list[IndexOf(list, x)] == x
              && r == list[..IndexOf(list, x)] + list[IndexOf(list, x) + 1..]
  {
    if x in list then RemoveFirst(list, x) else list + [x]
  }

  /** On a list without duplicates a click flips the clicked sensor's
      membership, keeps every other entry, and leaves no duplicates. */
  lemma ToggleFlips(list: seq<PanelAndSensor>, x: PanelAndSensor)
    requires NoDuplicates(list)
    ensures NoDuplicates(Toggle(list, x))
    ensures forall y :: y in Toggle(list, x) <==> (if y == x then x !in list else y in list)
  {
    if x in list {
      RemoveFirstMembers(list, x);
    } else {
      var r := list + [x];
      forall i, j | 0 <= i < j < |r| ensures r[i] != r[j] {
        if j == |list| {
          assert r[i] in list;
        }
      }
    }
  }

  /** Clicking a button twice restores the list when the sensor was not in
      it; when it was, the sensor moves to the end of the list. */
  lemma {:induction false} ToggleTwice(list: seq<PanelAndSensor>, x: PanelAndSensor)
    ensures x !in list ==> Toggle(Toggle(list, x), x) == list
    ensures x in list && NoDuplicates(list) ==> Toggle(Toggle(list, x), x) == RemoveFirst(list, x) + [x]
  {
    if x !in list {
      var once := list + [x];
      assert x in once;
      assert forall k :: 0 <= k < |list| ==> once[k] == list[k] && once[k] != x;
      assert IndexOf(once, x) == |list|;
      assert once[..|list|] == list;
    } else if NoDuplicates(list) {
      RemoveFirstMembers(list, x);
    }
  }

  /** The button row after a click on a list without duplicates: the clicked
      button flips and the other three keep their state. */
  lemma ClickFlipsOneButton(list: seq<PanelAndSensor>, panel: int, sensor: int)
    requires NoDuplicates(list) && 0 <= sensor < SensorsPerPanel
    ensures forall s :: 0 <= s < SensorsPerPanel ==>
      ButtonStates(Toggle(list, PanelAndSensor(panel, sensor)), panel)[s] ==
        (if s == sensor then !ButtonStates(list, panel)[s] else ButtonStates(list, panel)[s])
  {
    ToggleFlips(list, PanelAndSensor(panel, sensor));
  }

  /** The slider options of the settings with a decoded custom list. */
  function SettingsOf(app: AppSettings, custom: seq<PanelAndSensor>): (st: Settings)
    ensures st.advancedMode == app.advancedMode && st.customSensors == custom
    ensures st.useInnerSensorThresholds == app.useInnerSensorThresholds
    ensures st.useOuterSensorThresholds == app.useOuterSensorThresholds
  {
    Settings(app.advancedMode, app.useInnerSensorThresholds, app.useOuterSensorThresholds, custom)
  }

  /** Both pads carry records of the fixed sizes. */
  predicate PadsShaped(a: Args)
  {
    |a.controller| == PadCount && Shaped(a.controller[0].config) && Shaped(a.controller[1].config)
  }

  /** The loop of `SyncSliderThresholds`: each pad in turn is re-synced by
      `resync` and written, until one raises (None). Returns the records
      written, in order, and whether every pad went through. */
  function SyncPads<T>(pads: seq<(nat, T)>, resync: T --> Option<T>): (r: (seq<(nat, T)>, bool))
    requires forall i :: 0 <= i < |pads| ==> resync.requires(pads[i].1)
    ensures |r.0| <= |pads|
    ensures forall i :: 0 <= i < |r.0| ==> r.0[i].0 == pads[i].0 && resync(pads[i].1) == Some(r.0[i].1)
    ensures r.1 <==> forall i :: 0 <= i < |pads| ==> resync(pads[i].1).Some?
    ensures r.1 ==> |r.0| == |pads|
    ensures !r.1 ==> |r.0| < |pads| && resync(pads[|r.0|].1).None?
    decreases |pads|
  {
    if pads == [] then ([], true)
    else
      match resync(pads[0].1)
      case None => ([], false)
      case Some(c) =>
        var rest := SyncPads(pads[1..], resync);
        assert forall i :: 1 <= i < |pads| ==> pads[i] == pads[1..][i - 1];
        ([(pads[0].0, c)] + rest.0, rest.1)
  }

  /** What a re-sync did: the records written to the pads, in order, and the
      sources of the configuration changes fired. */
  datatype SyncOutcome = SyncOutcome(written: seq<(nat, Config)>, fired: seq<Option<nat>>)

  /** `SyncSliderThresholds`: every active pad's record is re-synced and
      written back through `SetConfig`, which stamps configVersion 2; a change without a source is fired once all are
      written. A failure on a later pad leaves the earlier writes in place
      and fires nothing. */
  function SyncSliderThresholds(selected: SelectedPad, a: Args, st: Settings): (r: SyncOutcome)
    requires PadsShaped(a)
    ensures var pads := ActivePads(selected, a);
      && |r.written| <= |pads|
      && (forall i :: 0 <= i < |r.written| ==>
            && r.written[i].0 == pads[i].0
            && SyncSliderThresholdsForConfig(pads[i].1, st).Some?
            && r.written[i].1 == SyncSliderThresholdsForConfig(pads[i].1, st).value.(configVersion := WrittenConfigVersion))
      && (r.fired == [None] <==> forall i :: 0 <= i < |pads| ==> SyncSliderThresholdsForConfig(pads[i].1, st).Some?)
      && (r.fired != [None] ==> r.fired == [])
  {
    var pads := ActivePads(selected, a);
    var s := SyncPads(pads, c requires Shaped(c) =>
      match SyncSliderThresholdsForConfig(c, st)
      case None => None
      case Some(synced) => SetConfig(true, synced));
    SyncOutcome(s.0, if s.1 then [None] else [])
  }

  /** Every entry of a loaded list is kept by a later save and load. */
  lemma {:induction false} KeptOfLoaded(list: seq<PanelAndSensor>)
    requires forall i :: 0 <= i < |list| ==> list[i].panel != -1 && list[i].sensor != -1
    ensures Kept(list) == list
    decreases |list|
  {
    if list != [] {
      KeptOfLoaded(list[1..]);
    }
  }

  /** A list loaded from the settings, with one sensor toggled, survives a
      save and load unchanged: a loaded list has no -1 entries, and neither
      has the clicked sensor. */
  lemma SavedListReloads(setting: string, x: PanelAndSensor)
    requires GetCustomSensors(setting).Ok? && x.panel >= 0 && x.sensor >= 0
    ensures var toggled := Toggle(GetCustomSensors(setting).value, x);
      GetCustomSensors(SetCustomSensors(toggled)) == Ok(toggled)
  {
    var list := GetCustomSensors(setting).value;
    var toggled := Toggle(list, x);
    assert forall i :: 0 <= i < |toggled| ==> toggled[i].panel != -1 && toggled[i].sensor != -1 by {
      forall i | 0 <= i < |toggled| ensures toggled[i].panel != -1 && toggled[i].sensor != -1 {
        if x in list {
          var k := IndexOf(list, x);
          if i < k { assert toggled[i] == list[i]; } else { assert toggled[i] == list[i + 1]; }
          assert toggled[i] in list;
        } else if i < |list| {
          assert toggled[i] == list[i];
          assert toggled[i] in list;
        }
      }
    }
    KeptOfLoaded(toggled);
    CustomSensorsRoundTrip(toggled);
  }

  /** What a click did: the new settings text, the re-sync, and every change
      fired, in order. */
  datatype ClickOutcome = ClickOutcome(setting: string, sync: SyncOutcome, fired: seq<Option<nat>>)

  /** `ClickedSensorButton`: the stored list is loaded, the sensor toggled,
      the list saved, the thresholds re-synced with the list reloaded from
      the settings, and a change fired with the selector as its source. A
      stored list that does not load raises before anything changes; a
      failing re-sync raises after the list is saved and fires nothing. */
  function ClickedSensorButton(app: AppSettings, panel: nat, sensor: nat, selected: SelectedPad, a: Args, selector: nat): (r: Result<ClickOutcome, Fault>)
    requires PadsShaped(a)
    ensures GetCustomSensors(app.customSensors).Err? <==> r.Err?
    ensures r.Err? ==> r.error == GetCustomSensors(app.customSensors).error
    ensures r.Ok? ==>
              var toggled := Toggle(GetCustomSensors(app.customSensors).value, PanelAndSensor(panel, sensor));
              && r.value.setting == SetCustomSensors(toggled)
              && r.value.sync == SyncSliderThresholds(selected, a, SettingsOf(app, toggled))
              && r.value.fired == (if r.value.sync.fired == [] then [] else [None, Some(selector)])
  {
    match GetCustomSensors(app.customSensors)
    case Err(e) => Err(e)
    case Ok(list) =>
      var saved := SetCustomSensors(Toggle(list, PanelAndSensor(panel, sensor)));
      SavedListReloads(app.customSensors, PanelAndSensor(panel, sensor));
      var reloaded := GetCustomSensors(saved).value;
      var sync := SyncSliderThresholds(selected, a, SettingsOf(app, reloaded));
      var fired := if sync.fired == [] then [] else sync.fired + [Some(selector)];
      Ok(ClickOutcome(saved, sync, fired))
  }
}
