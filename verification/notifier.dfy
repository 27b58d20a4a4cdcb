/**
 The configuration tool's change notifier. A snapshot of both pads is
 compared with the one remembered from the previous update; the parts that
 differ are flagged, and the snapshot goes to the subscribers only when a
 flag is set. Each subscriber then decides from the flags whether to run.
 The hand-off to the UI thread is left out: updates arrive one at a time.
 */
module Notifier {
  import opened Wrappers
  import opened Bytes
  import opened ConfigRecord
  import opened ConfigHelpers

  /** Number of pads the tool tracks. */
  const PadCount: nat := 2

  /** Number of panels whose input bit is expanded. */
  const InputCount: nat := 9

  /** What the SDK reports for one pad: its connected flag, record, test
      data and 16-bit input mask. */
  datatype Reading = Reading(connected: bool, config: Config, testData: TestModeData, inputState: U16)

  /** One pad as subscribers see it (`LoadFromConfigDelegateArgsPerController`). */
  datatype Controller = Controller(connected: bool, config: Config, testData: TestModeData, inputs: seq<bool>)

  /** `LoadFromConfigDelegateArgs`: which parts changed, both pads, and the
      control that fired the change (None for null). */
  datatype Args = Args(
    configurationChanged: bool,
    inputChanged: bool,
    testDataChanged: bool,
    controller: seq<Controller>,
    source: Option<nat>)

  /** What is remembered from the previous update. A missing entry stands
      for the array that was never assigned, which equals nothing. */
  datatype Watch = Watch(
    wasConnected: seq<bool>,
    lastInputs: seq<Option<seq<bool>>>,
    lastTestData: seq<Option<TestModeData>>)

  predicate WatchShaped(w: Watch)
  {
    |w.wasConnected| == PadCount && |w.lastInputs| == PadCount && |w.lastTestData| == PadCount
  }

  /** The state before the first update: nothing connected, nothing seen. */
  function InitialWatch(): (w: Watch)
    ensures WatchShaped(w)
  {
    Watch([false, false], [None, None], [None, None])
  }

  /** Expands the input mask into one flag per panel. */
  function ExpandInputs(inputState: U16): (inputs: seq<bool>)
    ensures |inputs| == InputCount
    ensures forall i :: 0 <= i < InputCount ==> (inputs[i] <==> BitSet(inputState, i))
  {
    Bits(inputState, InputCount)
  }

  /** The expanded flags pack back into the low nine bits of the mask. */
  lemma ExpandInputsPacks(inputState: U16)
    ensures MaskOf(ExpandInputs(inputState)) == inputState % Pow2(InputCount)
  {
    MaskOfBitsOf(inputState, InputCount);
  }

  function ControllerOf(r: Reading): (c: Controller)
    ensures c.connected == r.connected && c.config == r.config && c.testData == r.testData
    ensures |c.inputs| == InputCount
  {
    Controller(r.connected, r.config, r.testData, ExpandInputs(r.inputState))
  }

  /** `GetState`: both pads, no change flag set, no source. */
  function GetState(readings: seq<Reading>): (a: Args)
    requires |readings| == PadCount
    ensures |a.controller| == PadCount && a.source.None?
    ensures !a.configurationChanged && !a.inputChanged && !a.testDataChanged
    ensures forall pad :: 0 <= pad < PadCount ==> a.controller[pad] == ControllerOf(readings[pad])
  {
    Args(false, false, false, [ControllerOf(readings[0]), ControllerOf(readings[1])], None)
  }

  /** The outcome of comparing one pad with what was remembered for it. */
  datatype PadDiff = PadDiff(
    configurationChanged: bool, inputChanged: bool, testDataChanged: bool,
    wasConnected: bool, lastInputs: Option<seq<bool>>, lastTestData: Option<TestModeData>)

  function DiffPad(wasConnected: bool, lastInputs: Option<seq<bool>>, lastTestData: Option<TestModeData>, c: Controller): (d: PadDiff)
    ensures d.configurationChanged <==> wasConnected != c.connected
    ensures d.inputChanged <==> lastInputs != Some(c.inputs)
    ensures d.testDataChanged <==> lastTestData != Some(c.testData)
    ensures d.wasConnected == c.connected && d.lastInputs == Some(c.inputs) && d.lastTestData == Some(c.testData)
  {
    var configChanged := wasConnected != c.connected;
    var inputChanged := lastInputs.None? || lastInputs.value != c.inputs;
    var testChanged := lastTestData != Some(c.testData);
    PadDiff(configChanged, inputChanged, testChanged,
      c.connected,
      if inputChanged then Some(c.inputs) else lastInputs,
      if testChanged then Some(c.testData) else lastTestData)
  }

  /** `CheckForChanges`: flags what differs from the remembered state,
      remembers the new state, and dispatches the snapshot (Some) only when
      a flag is set. */
  function CheckForChanges(w: Watch, state: Args): (r: (Watch, Option<Args>))
    requires WatchShaped(w) && |state.controller| == PadCount
    ensures WatchShaped(r.0)
  {
    var d0 := DiffPad(w.wasConnected[0], w.lastInputs[0], w.lastTestData[0], state.controller[0]);
    var d1 := DiffPad(w.wasConnected[1], w.lastInputs[1], w.lastTestData[1], state.controller[1]);
    var args := state.(
      configurationChanged := state.configurationChanged || d0.configurationChanged || d1.configurationChanged,
      inputChanged := state.inputChanged || d0.inputChanged || d1.inputChanged,
      testDataChanged := state.testDataChanged || d0.testDataChanged || d1.testDataChanged);
    var w' := Watch([d0.wasConnected, d1.wasConnected], [d0.lastInputs, d1.lastInputs], [d0.lastTestData, d1.lastTestData]);
    (w', if args.configurationChanged || args.inputChanged || args.testDataChanged then Some(args) else None)
  }

  /** Some pad's connected flag differs from the remembered one. */
  predicate ConnectionMoved(w: Watch, state: Args)
    requires WatchShaped(w) && |state.controller| == PadCount
  {
    exists pad :: 0 <= pad < PadCount && w.wasConnected[pad] != state.controller[pad].connected
  }

  predicate InputsMoved(w: Watch, state: Args)
    requires WatchShaped(w) && |state.controller| == PadCount
  {
    exists pad :: 0 <= pad < PadCount && w.lastInputs[pad] != Some(state.controller[pad].inputs)
  }

  predicate TestDataMoved(w: Watch, state: Args)
    requires WatchShaped(w) && |state.controller| == PadCount
  {
    exists pad :: 0 <= pad < PadCount && w.lastTestData[pad] != Some(state.controller[pad].testData)
  }

  /** What `CheckForChanges` flags and remembers, for a fresh snapshot:
      a flag is set iff that part of some pad moved, the snapshot is
      dispatched iff some flag is set, and afterwards the remembered state is
      the snapshot. */
  lemma CheckForChangesFlags(w: Watch, state: Args)
    requires WatchShaped(w) && |state.controller| == PadCount
    requires !state.configurationChanged && !state.inputChanged && !state.testDataChanged
    ensures var (w', sent) := CheckForChanges(w, state);
      && (sent.Some? <==> ConnectionMoved(w, state) || InputsMoved(w, state) || TestDataMoved(w, state))
      && (sent.Some? ==> sent.value == state.(
            configurationChanged := ConnectionMoved(w, state),
            inputChanged := InputsMoved(w, state),
            testDataChanged := TestDataMoved(w, state)))
      && (forall pad :: 0 <= pad < PadCount ==>
            w'.wasConnected[pad] == state.controller[pad].connected
            && w'.lastInputs[pad] == Some(state.controller[pad].inputs)
            && w'.lastTestData[pad] == Some(state.controller[pad].testData))
  {
  }

  /** Feeding the same snapshot twice dispatches nothing the second time. */
  lemma SecondCheckIsQuiet(w: Watch, state: Args)
    requires WatchShaped(w) && |state.controller| == PadCount
    requires !state.configurationChanged && !state.inputChanged && !state.testDataChanged
    ensures CheckForChanges(CheckForChanges(w, state).0, state).1 == None
  {
    CheckForChangesFlags(w, state);
    var w' := CheckForChanges(w, state).0;
    CheckForChangesFlags(w', state);
  }

  /** `FireConfigurationChanged`: always dispatched, with the configuration
      flag set and the caller's source; the remembered state is untouched. */
  function FireConfigurationChanged(state: Args, source: Option<nat>): (a: Args)
    ensures a.configurationChanged && a.source == source
    ensures a.controller == state.controller
    ensures a.inputChanged == state.inputChanged && a.testDataChanged == state.testDataChanged
  {
    state.(configurationChanged := true, source := source)
  }

  /** Why the SDK called back. */
  datatype UpdateReason = Updated | FactoryResetCommandComplete

  /** The SDK callback: an update runs the change check; a finished factory
      reset dispatches unconditionally with no source. */
  function OnUpdate(w: Watch, state: Args, reason: UpdateReason): (r: (Watch, Option<Args>))
    requires WatchShaped(w) && |state.controller| == PadCount
    ensures WatchShaped(r.0)
    ensures reason == FactoryResetCommandComplete ==>
      r.0 == w && r.1 == Some(FireConfigurationChanged(state, None))
    ensures reason == Updated ==> r == CheckForChanges(w, state)
  {
    match reason
    case Updated => CheckForChanges(w, state)
    case FactoryResetCommandComplete => (w, Some(FireConfigurationChanged(state, None)))
  }

  /** A subscriber (`OnConfigChange`) and what it asked to be woken for. */
  datatype Subscriber = Subscriber(refreshOnInputChange: bool, refreshOnTestDataChange: bool)

  /** Whether a dispatched snapshot reaches the subscriber's callback. */
  predicate Runs(sub: Subscriber, a: Args)
  {
    a.configurationChanged
    || (sub.refreshOnInputChange && a.inputChanged)
    || (sub.refreshOnTestDataChange && a.testDataChanged)
  }

  /** The filter never looks at who fired the change, although the class's
      comment says listeners are not called for their own changes. */
  lemma SourceIgnored(sub: Subscriber, a: Args, other: Option<nat>)
    ensures Runs(sub, a) <==> Runs(sub, a.(source := other))
  {
  }

  /** A change fired by a control reaches every subscriber, the firing one too. */
  lemma FiredChangeReachesAll(sub: Subscriber, state: Args, source: Option<nat>)
    ensures Runs(sub, FireConfigurationChanged(state, source))
  {
  }
}
