/**
 The main window's two-pad logic: whether the pads' configurations agree,
 copying P1's thresholds and enabled panels to P2, the check run when both
 pads are to be configured together, and the pad-selection handler. The
 user's answer to the sync question is a parameter.
 */
module MainWindow {
  import opened Wrappers
  import opened Bytes
  import opened ConfigRecord
  import opened ConfigHelpers
  import opened Notifier
  import opened ActivePad

  /** `ConfigurationsSynced`: the load-cell thresholds and the enabled-sensor
      bytes agree; colours and every other field are not compared. */
  predicate ConfigurationsSynced(c1: Config, c2: Config)
    requires Shaped(c1) && Shaped(c2)
  {
    && GetLowThresholds(c1) == GetLowThresholds(c2)
    && GetHighThresholds(c1) == GetHighThresholds(c2)
    && c1.enabledSensors == c2.enabledSensors
  }

  /** `SyncP2FromP1`: the record written to P2, which takes P1's enabled-sensor
      bytes and load-cell thresholds, goes out through `SetConfig` with
      configVersion 2, and keeps everything else. */
  function SyncP2FromP1(c1: Config, c2: Config): (r: Config)
    requires Shaped(c1) && Shaped(c2)
    ensures Shaped(r) && r.configVersion == WrittenConfigVersion
  {
    var copied := c2.(enabledSensors := c1.enabledSensors);
    var synced := SetHighThresholds(SetLowThresholds(copied, GetLowThresholds(c1)), GetHighThresholds(c1));
    SetConfig(true, synced).value
  }

  /** After the copy the two records are synced, and P2 keeps its own
      colours, FSR thresholds and every field outside the compared ones. */
  lemma SyncP2FromP1Syncs(c1: Config, c2: Config)
    requires Shaped(c1) && Shaped(c2)
    ensures ConfigurationsSynced(c1, SyncP2FromP1(c1, c2))
    ensures var r := SyncP2FromP1(c1, c2);
      && r == c2.(enabledSensors := c1.enabledSensors, panels := r.panels, configVersion := WrittenConfigVersion)
      && forall i :: 0 <= i < PanelCount ==>
           r.panels[i] == c2.panels[i].(loadCellLow := c1.panels[i].loadCellLow, loadCellHigh := c1.panels[i].loadCellHigh)
  {
    var copied := c2.(enabledSensors := c1.enabledSensors);
    var low := SetLowThresholds(copied, GetLowThresholds(c1));
    ThresholdsRoundTrip(copied, GetLowThresholds(c1));
    ThresholdsRoundTrip(low, GetHighThresholds(c1));
    assert GetLowThresholds(c1)[..PanelCount] == GetLowThresholds(c1);
    assert GetHighThresholds(c1)[..PanelCount] == GetHighThresholds(c1);
  }

  /** Syncing records that are already synced writes P2's record back as it
      is, but for the version stamp. */
  lemma SyncOfSyncedIsIdentity(c1: Config, c2: Config)
    requires Shaped(c1) && Shaped(c2) && ConfigurationsSynced(c1, c2)
    ensures SyncP2FromP1(c1, c2) == c2.(configVersion := WrittenConfigVersion)
  {
    SyncP2FromP1Syncs(c1, c2);
    var r := SyncP2FromP1(c1, c2);
    forall i | 0 <= i < PanelCount ensures r.panels[i] == c2.panels[i] {
      assert GetLowThresholds(c1)[i] == GetLowThresholds(c2)[i];
      assert GetHighThresholds(c1)[i] == GetHighThresholds(c2)[i];
    }
  }

  /** What the both-pads check does. */
  datatype BothPadsOutcome =
    | NothingToDo
    /** The user agreed: P2's synced record is written and a change fired. */
    | SyncedP2(written: Config)
    /** The user declined: the selection becomes P1. */
    | SwitchedToP1

  /** `CheckConfiguringBothPads`: only with Both selected, both pads connected
      and the records out of sync is the user asked; yes copies P1 to P2, no
      switches the selection to P1. */
  function CheckConfiguringBothPads(selected: SelectedPad, a: Args, userAgrees: bool): (o: BothPadsOutcome)
    requires |a.controller| == PadCount
    requires Shaped(a.controller[0].config) && Shaped(a.controller[1].config)
    ensures o == NothingToDo <==>
      selected != Both || !a.controller[0].connected || !a.controller[1].connected
      || ConfigurationsSynced(a.controller[0].config, a.controller[1].config)
    ensures o.SyncedP2? ==>
              && userAgrees && Shaped(o.written)
              && ConfigurationsSynced(a.controller[0].config, o.written)
              && o.written.stepColor == a.controller[1].config.stepColor
    ensures o == SwitchedToP1 <==> o != NothingToDo && !userAgrees
  {
    if selected != Both || !a.controller[0].connected || !a.controller[1].connected then NothingToDo
    else
      var c1 := a.controller[0].config;
      var c2 := a.controller[1].config;
      if ConfigurationsSynced(c1, c2) then NothingToDo
      else if userAgrees then
        SyncP2FromP1Syncs(c1, c2);
        SyncedP2(SyncP2FromP1(c1, c2))
      else SwitchedToP1
  }

  /** The selection after the check. */
  function SelectionAfter(selected: SelectedPad, o: BothPadsOutcome): SelectedPad
  {
    if o == SwitchedToP1 then P1 else selected
  }

  /** The outcome of a selection change: the new selection, what the check
      did, and the sources of the configuration changes fired, in order
      (None for a change fired without a source). */
  datatype SelectionOutcome = SelectionOutcome(selected: SelectedPad, check: BothPadsOutcome, fired: seq<Option<nat>>)

  /** `ConnectedPadList_SelectionChanged`: choosing the current selection
      again does nothing; otherwise the selection is stored, the both-pads
      check runs on the current state, and a change is fired. */
  function SelectionChanged(current: SelectedPad, chosen: SelectedPad, a: Args, userAgrees: bool): (r: SelectionOutcome)
    requires |a.controller| == PadCount
    requires Shaped(a.controller[0].config) && Shaped(a.controller[1].config)
    ensures chosen == current ==> r == SelectionOutcome(current, NothingToDo, [])
    ensures chosen != current ==> |r.fired| >= 1 && r.fired[|r.fired| - 1] == None
    ensures chosen != current && chosen != Both ==> r.selected == chosen && r.check == NothingToDo && r.fired == [None]
  {
    if chosen == current then SelectionOutcome(current, NothingToDo, [])
    else
      var o := CheckConfiguringBothPads(chosen, a, userAgrees);
      var fromSync := if o.SyncedP2? then [None] else [];
      SelectionOutcome(SelectionAfter(chosen, o), o, fromSync + [None])
  }

  /** Switching to Both with two connected, unsynced pads ends on Both with P2
      synced when the user agrees, and on P1 when the user declines. */
  lemma SwitchToBoth(current: SelectedPad, a: Args, userAgrees: bool)
    requires |a.controller| == PadCount
    requires Shaped(a.controller[0].config) && Shaped(a.controller[1].config)
    requires current != Both && a.controller[0].connected && a.controller[1].connected
    requires !ConfigurationsSynced(a.controller[0].config, a.controller[1].config)
    ensures var r := SelectionChanged(current, Both, a, userAgrees);
      && (userAgrees ==> r.selected == Both && r.check.SyncedP2? && r.fired == [None, None])
      && (!userAgrees ==> r.selected == P1 && r.check == SwitchedToP1 && r.fired == [None])
  {
  }

  /** The window's configuration-change handler runs the both-pads check only
      for a change flagged as a configuration change. */
  function OnConfigurationChange(selected: SelectedPad, a: Args, userAgrees: bool): (o: BothPadsOutcome)
    requires |a.controller| == PadCount
    requires Shaped(a.controller[0].config) && Shaped(a.controller[1].config)
    ensures !a.configurationChanged ==> o == NothingToDo
    ensures a.configurationChanged ==> o == CheckConfiguringBothPads(selected, a, userAgrees)
  {
    if a.configurationChanged then CheckConfiguringBothPads(selected, a, userAgrees) else NothingToDo
  }
}
