/**
 The SDK's manager of the two pad slots (`SMXManager`): which pad sits in
 which slot, the lights data split into per-pad top and bottom commands, the
 small queue that paces those commands, and handing newly found device
 handles to free slots. Times are abstract integers; the I/O thread and its
 waits are not modelled.
 */
module Manager {
  import opened Wrappers
  import opened Bytes
  import opened DeviceConnection
  import Device

  const SlotCount: nat := 2

  // ----- pad order -----

  /** `IsPlayer2Locked`: false for a pad that is not connected. */
  predicate IsPlayer2(d: Device.Device)
  {
    Device.IsConnected(d) && d.conn.info.p2
  }

  /** Both slots hold connected pads claiming the same player. */
  predicate Misconfigured(slots: seq<Device.Device>)
    requires |slots| == SlotCount
  {
    Device.IsConnected(slots[0]) && Device.IsConnected(slots[1]) && IsPlayer2(slots[0]) == IsPlayer2(slots[1])
  }

  /** Slot 0 holds no connected P2 and slot 1 no connected P1. */
  predicate InOrder(slots: seq<Device.Device>)
    requires |slots| == SlotCount
  {
    (Device.IsConnected(slots[0]) ==> !IsPlayer2(slots[0])) && (Device.IsConnected(slots[1]) ==> IsPlayer2(slots[1]))
  }

  /** `CorrectDeviceOrder`: a connected P2 in slot 0 or a connected P1 in
      slot 1 swaps the slots, unless both pads claim the same player. */
  function CorrectDeviceOrder(slots: seq<Device.Device>): (r: seq<Device.Device>)
    requires |slots| == SlotCount
    ensures |r| == SlotCount
    ensures r == slots || r == [slots[1], slots[0]]
    ensures Misconfigured(slots) || InOrder(slots) ==> r == slots
    ensures !Misconfigured(slots) ==> InOrder(r)
  {
    if Misconfigured(slots) then slots
    else
      var p1NeedsSwap := Device.IsConnected(slots[0]) && IsPlayer2(slots[0]);
      var p2NeedsSwap := Device.IsConnected(slots[1]) && !IsPlayer2(slots[1]);
      if p1NeedsSwap || p2NeedsSwap then [slots[1], slots[0]] else slots
  }

  /** The slots are swapped exactly when they are out of order and the
      pads do not both claim the same player. */
  lemma CorrectDeviceOrderSwaps(slots: seq<Device.Device>)
    requires |slots| == SlotCount
    ensures CorrectDeviceOrder(slots) == [slots[1], slots[0]] && slots[0] != slots[1]
      <==> !Misconfigured(slots) && !InOrder(slots) && slots[0] != slots[1]
  {
  }

  /** Correcting the order twice is correcting it once. */
  lemma CorrectDeviceOrderIdempotent(slots: seq<Device.Device>)
    requires |slots| == SlotCount
    ensures CorrectDeviceOrder(CorrectDeviceOrder(slots)) == CorrectDeviceOrder(slots)
  {
    var r := CorrectDeviceOrder(slots);
    assert Misconfigured(r) <==> Misconfigured(slots);
  }

  // ----- splitting the lights data -----

  /** 18 panels of 4x4 RGB lights. */
  const LightsSize: nat := 864
  const PanelLightBytes: nat := 48
  /** The top two rows of a panel: the first 24 of its 48 bytes. */
  const HalfPanelBytes: nat := 24
  const PanelsPerPad: nat := 9
  /** The colour bytes of one command: 9 panels of half a panel each. */
  const CommandDataSize: nat := 216

  /** The pad that byte k of the lights data goes to: panels 0-8 are pad 0. */
  function LightsPad(k: nat): nat
  {
    if k / PanelLightBytes < PanelsPerPad then 0 else 1
  }

  /** The command that byte k goes to: the top half of a panel is command 0. */
  function LightsCommand(k: nat): nat
  {
    if k % PanelLightBytes < HalfPanelBytes then 0 else 1
  }

  /** Where byte k lands within its command's colour data. */
  function LightsPosition(k: nat): nat
  {
    HalfPanelBytes * (k / PanelLightBytes - PanelsPerPad * LightsPad(k)) + k % HalfPanelBytes
  }

  /** The input byte at position i of command `command` of pad `pad`. */
  function LightsSource(pad: nat, command: nat, i: nat): (k: nat)
  {
    PanelLightBytes * (PanelsPerPad * pad + i / HalfPanelBytes) + HalfPanelBytes * command + i % HalfPanelBytes
  }

  /** The colour data of one command, in input order. */
  function CommandData(data: seq<Byte>, pad: nat, command: nat): (r: seq<Byte>)
    requires |data| == LightsSize && pad < SlotCount && command < 2
    ensures |r| == CommandDataSize
  {
    assert forall i :: 0 <= i < CommandDataSize ==> LightsSource(pad, command, i) < LightsSize by {
      forall i | 0 <= i < CommandDataSize ensures LightsSource(pad, command, i) < LightsSize {
        SourceInRange(pad, command, i);
      }
    }
    seq(CommandDataSize, i requires 0 <= i < CommandDataSize => data[LightsSource(pad, command, i)])
  }

  lemma SourceInRange(pad: nat, command: nat, i: nat)
    requires pad < SlotCount && command < 2 && i < CommandDataSize
    ensures LightsSource(pad, command, i) < LightsSize
  {
    assert i / HalfPanelBytes < PanelsPerPad;
    assert i % HalfPanelBytes < HalfPanelBytes;
  }

  /** Every input byte has a place: byte k is at `LightsPosition(k)` of the
      command chosen by its panel and its half. */
  lemma LightsRouteEveryByte(k: nat)
    requires k < LightsSize
    ensures LightsPosition(k) < CommandDataSize
    ensures LightsSource(LightsPad(k), LightsCommand(k), LightsPosition(k)) == k
  {
    var panel := k / PanelLightBytes;
    var b := k % PanelLightBytes;
    assert k == PanelLightBytes * panel + b;
    var i := LightsPosition(k);
    var q := panel - PanelsPerPad * LightsPad(k);
    assert 0 <= q < PanelsPerPad;
    assert k % HalfPanelBytes == b % HalfPanelBytes;
    assert i == HalfPanelBytes * q + b % HalfPanelBytes;
    assert i / HalfPanelBytes == q && i % HalfPanelBytes == b % HalfPanelBytes;
    assert b == HalfPanelBytes * LightsCommand(k) + b % HalfPanelBytes;
  }

  /** Every place is filled from the byte the routing sends there, and from
      no other: position i of a command holds the input byte whose pad,
      command and position are those. */
  lemma LightsEveryPlaceFilled(pad: nat, command: nat, i: nat)
    requires pad < SlotCount && command < 2 && i < CommandDataSize
    ensures var k := LightsSource(pad, command, i);
      k < LightsSize && LightsPad(k) == pad && LightsCommand(k) == command && LightsPosition(k) == i
  {
    var q := i / HalfPanelBytes;
    var b := i % HalfPanelBytes;
    var k := LightsSource(pad, command, i);
    SourceInRange(pad, command, i);
    var panel := PanelsPerPad * pad + q;
    var inPanel := HalfPanelBytes * command + b;
    assert k == PanelLightBytes * panel + inPanel && inPanel < PanelLightBytes;
    assert k / PanelLightBytes == panel && k % PanelLightBytes == inPanel;
    assert k % HalfPanelBytes == b;
  }

  /** Within a command the input order is kept. */
  lemma LightsOrderKept(pad: nat, command: nat, i: nat, j: nat)
    requires i < j
    ensures LightsSource(pad, command, i) < LightsSource(pad, command, j)
  {
    var qi, bi := i / HalfPanelBytes, i % HalfPanelBytes;
    var qj, bj := j / HalfPanelBytes, j % HalfPanelBytes;
    assert qi < qj || (qi == qj && bi < bj);
    if qi < qj {
      assert PanelLightBytes * (PanelsPerPad * pad + qi) + PanelLightBytes <= PanelLightBytes * (PanelsPerPad * pad + qj);
    }
  }

  /** A lights command: '2' for the top halves, '3' for the bottom halves,
      the colour bytes passed through the brightness scaling, then '\n'. */
  function LightsCommandBytes(data: seq<Byte>, pad: nat, command: nat, scale: Byte -> Byte): (r: seq<Byte>)
    requires |data| == LightsSize && pad < SlotCount && command < 2
    ensures |r| == CommandDataSize + 2
    ensures r[0] == (if command == 0 then '2' as int else '3' as int) && r[CommandDataSize + 1] == '\n' as int
    ensures forall i :: 0 <= i < CommandDataSize ==> r[1 + i] == scale(data[LightsSource(pad, command, i)])
  {
    var colours := CommandData(data, pad, command);
    [if command == 0 then '2' as int else '3' as int]
      + seq(CommandDataSize, i requires 0 <= i < CommandDataSize => scale(colours[i]))
      + ['\n' as int]
  }

  // ----- the lights queue -----

  /** One scheduled lights command: when to send it, and the command for
      each pad. */
  datatype LightsUpdate = LightsUpdate(timeToSend: int, padCommand: seq<seq<Byte>>)

  /** The manager's state: the two device slots, the scheduled lights
      commands, and the earliest time the next update may start. */
  datatype Manager = Manager(slots: seq<Device.Device>, lights: seq<LightsUpdate>, delayLightsUntil: int)

  predicate ManagerShaped(m: Manager)
  {
    && |m.slots| == SlotCount
    && forall k :: 0 <= k < |m.lights| ==> |m.lights[k].padCommand| == SlotCount
  }

  /** What the pacing keeps: at most three entries, sent in time order, none
      scheduled after the next update may start. */
  predicate QueueInvariant(m: Manager)
  {
    && |m.lights| <= 3
    && (forall k :: 0 <= k < |m.lights| ==> m.lights[k].timeToSend <= m.delayLightsUntil)
    && (forall k :: 0 < k < |m.lights| ==> m.lights[k - 1].timeToSend <= m.lights[k].timeToSend)
  }

  /** `SetLights`. Data of any size but 864 is dropped. With at most one
      command waiting (the second half of an update already started), two
      entries are scheduled behind it, one gap apart and no earlier than the
      last update allows; otherwise the last two entries, an update not yet
      started, get the new commands in place. */
  function SetLights(m: Manager, data: seq<Byte>, now: int, gap: nat, scale: Byte -> Byte): (r: Manager)
    requires ManagerShaped(m)
    ensures ManagerShaped(r) && r.slots == m.slots
    ensures |data| != LightsSize ==> r == m
    ensures |data| == LightsSize ==>
      && |r.lights| >= 2
      && (|m.lights| <= 1 ==> |r.lights| == |m.lights| + 2 && r.lights[..|m.lights|] == m.lights)
      && (|m.lights| >= 2 ==>
            && |r.lights| == |m.lights| && r.lights[..|m.lights| - 2] == m.lights[..|m.lights| - 2]
            && r.delayLightsUntil == m.delayLightsUntil
            && r.lights[|r.lights| - 2].timeToSend == m.lights[|m.lights| - 2].timeToSend
            && r.lights[|r.lights| - 1].timeToSend == m.lights[|m.lights| - 1].timeToSend)
      && r.lights[|r.lights| - 2].padCommand == [LightsCommandBytes(data, 0, 0, scale), LightsCommandBytes(data, 1, 0, scale)]
      && r.lights[|r.lights| - 1].padCommand == [LightsCommandBytes(data, 0, 1, scale), LightsCommandBytes(data, 1, 1, scale)]
    ensures QueueInvariant(m) ==> QueueInvariant(r)
  {
    if |data| != LightsSize then m
    else
      var scheduled :=
        if |m.lights| <= 1 then
          var first := if now > m.delayLightsUntil then now else m.delayLightsUntil;
          var second := first + gap;
          m.(lights := m.lights + [LightsUpdate(first, [[], []]), LightsUpdate(second, [[], []])],
             delayLightsUntil := second + gap)
        else m;
      var n := |scheduled.lights|;
      var top := [LightsCommandBytes(data, 0, 0, scale), LightsCommandBytes(data, 1, 0, scale)];
      var bottom := [LightsCommandBytes(data, 0, 1, scale), LightsCommandBytes(data, 1, 1, scale)];
      scheduled.(lights := scheduled.lights[n - 2 := scheduled.lights[n - 2].(padCommand := top)]
                                           [n - 1 := scheduled.lights[n - 1].(padCommand := bottom)])
  }

  /** Updates arriving faster than they are sent replace one another: a
      second update before anything is sent leaves the queue as if only the
      second had come, up to the first's schedule. */
  lemma LatestLightsWin(m: Manager, data1: seq<Byte>, data2: seq<Byte>, now1: int, now2: int, gap: nat, scale: Byte -> Byte)
    requires ManagerShaped(m) && |data1| == LightsSize && |data2| == LightsSize
    ensures var once := SetLights(m, data1, now1, gap, scale);
      SetLights(once, data2, now2, gap, scale) == SetLights(m, data2, now1, gap, scale)
  {
    var once := SetLights(m, data1, now1, gap, scale);
    var twice := SetLights(once, data2, now2, gap, scale);
    var direct := SetLights(m, data2, now1, gap, scale);
    assert |twice.lights| == |direct.lights|;
    assert forall k :: 0 <= k < |twice.lights| ==> twice.lights[k] == direct.lights[k];
  }

  /** Sends a command to both slots in order, gathering their events. */
  function SendToSlots(slots: seq<Device.Device>, commands: seq<seq<Byte>>): (r: (seq<Device.Device>, seq<Device.Event>))
    requires |slots| == SlotCount && |commands| == SlotCount
    ensures |r.0| == SlotCount
    ensures forall i :: 0 <= i < SlotCount ==> r.0[i] == Device.SendCommandLocked(slots[i], commands[i], NoCompletion).0
  {
    var a := Device.SendCommandLocked(slots[0], commands[0], NoCompletion);
    var b := Device.SendCommandLocked(slots[1], commands[1], NoCompletion);
    ([a.0, b.0], a.1 + b.1)
  }

  /** `ReenableAutoLights`: drops every scheduled lights command, so no
      second half can turn the automatic lights off again, and sends
      "S 1\n" to both pads. */
  function ReenableAutoLights(m: Manager): (r: (Manager, seq<Device.Event>))
    requires ManagerShaped(m)
    ensures ManagerShaped(r.0) && r.0.lights == [] && QueueInvariant(r.0)
    ensures r.0.delayLightsUntil == m.delayLightsUntil
    ensures forall i :: 0 <= i < SlotCount ==>
      r.0.slots[i] == Device.SendCommandLocked(m.slots[i], ['S' as int, ' ' as int, '1' as int, '\n' as int], NoCompletion).0
  {
    var command := ['S' as int, ' ' as int, '1' as int, '\n' as int];
    var sent := SendToSlots(m.slots, [command, command]);
    (m.(lights := [], slots := sent.0), sent.1)
  }

  /** `SendLightUpdates`: once the head entry's time has come, its command
      goes to each pad and the entry is removed; nothing else is sent. */
  function SendLightUpdates(m: Manager, now: int): (r: (Manager, seq<Device.Event>))
    requires ManagerShaped(m)
    ensures ManagerShaped(r.0) && r.0.delayLightsUntil == m.delayLightsUntil
    ensures m.lights == [] || m.lights[0].timeToSend > now ==> r == (m, [])
    ensures m.lights != [] && m.lights[0].timeToSend <= now ==>
      && r.0.lights == m.lights[1..]
      && forall i :: 0 <= i < SlotCount ==>
           r.0.slots[i] == Device.SendCommandLocked(m.slots[i], m.lights[0].padCommand[i], NoCompletion).0
    ensures QueueInvariant(m) ==> QueueInvariant(r.0)
  {
    if m.lights == [] || m.lights[0].timeToSend > now then (m, [])
    else
      var sent := SendToSlots(m.slots, m.lights[0].padCommand);
      (m.(slots := sent.0, lights := m.lights[1..]), sent.1)
  }

  /** An update is sent whole: after its first half goes out, the next
      `SetLights` keeps the second half at the head of the queue. */
  lemma HalfSentUpdateFinishes(m: Manager, data: seq<Byte>, now: int, later: int, gap: nat, scale: Byte -> Byte)
    requires ManagerShaped(m) && |m.lights| == 2 && m.lights[0].timeToSend <= now
    requires |data| == LightsSize
    ensures var sent := SendLightUpdates(m, now).0;
      SetLights(sent, data, later, gap, scale).lights[0] == m.lights[1]
  {
    var sent := SendLightUpdates(m, now).0;
    assert sent.lights == [m.lights[1]];
    var r := SetLights(sent, data, later, gap, scale);
    assert r.lights[..1] == sent.lights;
  }

  // ----- taking new devices -----

  /** Some slot already holds this handle. */
  predicate HoldsHandle(slots: seq<Device.Device>, h: nat)
  {
    exists i :: 0 <= i < |slots| && slots[i].conn.handle == Some(h)
  }

  /** The first slot without a handle, if any. */
  function FirstFreeSlot(slots: seq<Device.Device>): (r: Option<nat>)
    ensures r.Some? ==> r.value < |slots| && slots[r.value].conn.handle.None?
    ensures r.Some? ==> forall i :: 0 <= i < r.value ==> slots[i].conn.handle.Some?
    ensures r.None? <==> forall i :: 0 <= i < |slots| ==> slots[i].conn.handle.Some?
    decreases |slots|
  {
    if slots == [] then None
    else if slots[0].conn.handle.None? then Some(0)
    else
      match FirstFreeSlot(slots[1..])
      case None => None
      case Some(i) => Some(i + 1)
  }

  /** No two slots hold the same handle. */
  predicate DistinctHandles(slots: seq<Device.Device>)
  {
    forall i, j :: 0 <= i < j < |slots| && slots[i].conn.handle.Some? ==> slots[i].conn.handle != slots[j].conn.handle
  }

  /** Opening handle h in free slot i changes that slot only, and keeps the
      handles distinct when no slot held h. */
  function OpenInSlot(slots: seq<Device.Device>, i: nat, h: nat): (r: seq<Device.Device>)
    requires i < |slots| && slots[i].conn.handle.None?
    ensures |r| == |slots| && r[i] == Device.OpenDeviceHandle(slots[i], h) && r[i].conn.handle == Some(h)
    ensures forall j :: 0 <= j < |slots| && j != i ==> r[j] == slots[j]
    ensures HoldsHandle(r, h)
    ensures DistinctHandles(slots) && !HoldsHandle(slots, h) ==> DistinctHandles(r)
  {
    var r := slots[i := Device.OpenDeviceHandle(slots[i], h)];
    assert r[i].conn.handle == Some(h);
    r
  }

  /** `AttemptConnections`: each device found that no slot holds yet is
      opened in the first free slot; once no slot is free the rest are left
      for later. Opening errors are not modelled. */
  function AttemptConnections(slots: seq<Device.Device>, found: seq<nat>): (r: seq<Device.Device>)
    ensures |r| == |slots|
    ensures forall i :: 0 <= i < |slots| && slots[i].conn.handle.Some? ==> r[i] == slots[i]
    ensures forall i :: 0 <= i < |slots| && slots[i].conn.handle.None? ==>
      r[i] == slots[i] || (r[i].conn.handle.Some? && r[i].conn.handle.value in found
                           && r[i] == Device.OpenDeviceHandle(slots[i], r[i].conn.handle.value))
    ensures forall k :: 0 <= k < |found| ==>
      HoldsHandle(r, found[k]) || forall i :: 0 <= i < |r| ==> r[i].conn.handle.Some?
    ensures DistinctHandles(slots) ==> DistinctHandles(r)
    decreases |found|
  {
    if found == [] then slots
    else if HoldsHandle(slots, found[0]) then AttemptConnections(slots, found[1..])
    else
      match FirstFreeSlot(slots)
      case None => slots
      case Some(i) =>
        var withNew := OpenInSlot(slots, i, found[0]);
        hide Device.OpenDeviceHandle, OpenInSlot;
        var r := AttemptConnections(withNew, found[1..]);
        assert r[i] == withNew[i];
        r
  }
}
