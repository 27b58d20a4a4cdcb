/**
 One pad as the SDK drives it (`SMXDevice`): the configuration read back
 from the pad and the one waiting to be written, the write and read-back
 handshake, the sensor test-mode request and the bit-sliced reply, and the
 packets the connection hands up. The update callback is reported as a list
 of events; the lock, the wake-up event and the clock are not modelled
 (a timed-out test-mode request is a parameter).
 */
module Device {
  import opened Wrappers
  import opened Bytes
  import opened ConfigRecord
  import opened ConfigHelpers
  import opened Notifier
  import opened DeviceConnection

  // ----- the bit-sliced test data -----

  /** Bit k of the panel's stream: bit `panel` of word k, or 0 past the end. */
  predicate StreamBit(data: seq<U16>, panel: nat, k: nat)
  {
    k < |data| && BitSet(data[k], panel)
  }

  /** The eight stream bits that make output byte i, bit 0 first. */
  function ByteBits(data: seq<U16>, panel: nat, i: nat): (r: seq<bool>)
    ensures |r| == 8 && forall j :: 0 <= j < 8 ==> (r[j] <==> StreamBit(data, panel, 8 * i + j))
  {
    seq(8, j requires 0 <= j < 8 => StreamBit(data, panel, 8 * i + j))
  }

  /** The bytes `ReadDataForPanel` produces, as a reference definition. */
  function PanelBytes(data: seq<U16>, panel: nat, n: nat): (r: seq<Byte>)
    ensures |r| == n
  {
    seq(n, i requires 0 <= i < n => MaskOf(ByteBits(data, panel, i)))
  }

  /** Bit j of output byte i is bit `panel` of word 8i+j, or 0 past the end. */
  lemma PanelBytesBits(data: seq<U16>, panel: nat, n: nat, i: nat, j: nat)
    requires i < n && j < 8
    ensures BitSet(PanelBytes(data, panel, n)[i], j) <==> StreamBit(data, panel, 8 * i + j)
  {
    MaskOfBits(ByteBits(data, panel, i), j);
  }

  /** Appending a bit adds it at the next position. */
  lemma {:induction false} MaskOfSnoc(bits: seq<bool>, x: bool)
    ensures MaskOf(bits + [x]) == MaskOf(bits) + (if x then Pow2(|bits|) else 0)
    decreases |bits|
  {
    if bits != [] {
      assert (bits + [x])[1..] == bits[1..] + [x];
      MaskOfSnoc(bits[1..], x);
    }
  }

  /** `ReadDataForPanel`: walks the words once, eight to a byte, taking bit
      `panel` of each, and pads with zeros once the words run out. */
  method ReadDataForPanel(data: seq<U16>, panel: nat, outSize: nat) returns (out: seq<Byte>)
    ensures out == PanelBytes(data, panel, outSize)
  {
    var bit := 0;
    out := [];
    var i := 0;
    while i < outSize
      invariant 0 <= i <= outSize && |out| == i
      invariant bit == if 8 * i < |data| then 8 * i else |data|
      invariant forall k :: 0 <= k < i ==> out[k] == MaskOf(ByteBits(data, panel, k))
    {
      var result := 0;
      var j := 0;
      while j < 8
        invariant 0 <= j <= 8
        invariant bit == if 8 * i + j < |data| then 8 * i + j else |data|
        invariant result == MaskOf(ByteBits(data, panel, i)[..j])
      {
        var b := false;
        if bit < |data| {
          b := BitSet(data[bit], panel);
          bit := bit + 1;
        }
        assert ByteBits(data, panel, i)[..j + 1] == ByteBits(data, panel, i)[..j] + [b];
        MaskOfSnoc(ByteBits(data, panel, i)[..j], b);
        result := result + (if b then Pow2(j) else 0);
        j := j + 1;
      }
      assert ByteBits(data, panel, i)[..8] == ByteBits(data, panel, i);
      out := out + [result];
      i := i + 1;
    }
  }

  /** What one panel reports in test mode (`detail_data`). */
  datatype PanelReading = PanelReading(
    haveData: bool,
    levels: seq<int>,
    badSensor: seq<bool>,
    dip: nat,
    badJumper: seq<bool>)

  /** The size of `detail_data`: a flag byte, four 16-bit levels, a DIP byte. */
  const DetailSize: nat := 10

  /** An `int16_t` from its little-endian bytes. */
  function Int16(lo: Byte, hi: Byte): (v: int)
    ensures -0x8000 <= v < 0x8000
  {
    var u := Le16(lo, hi);
    if u < 0x8000 then u else u - 0x1_0000
  }

  /** The four sensor levels of a panel's bytes: `int16_t`s from byte 1 on. */
  function Levels(b: seq<Byte>): (r: seq<int>)
    requires |b| == DetailSize
    ensures |r| == SensorsPerPanel
    ensures forall s :: 0 <= s < SensorsPerPanel ==> r[s] == Int16(b[1 + 2 * s], b[2 + 2 * s])
  {
    seq(SensorsPerPanel, s requires 0 <= s < SensorsPerPanel => Int16(b[1 + 2 * s], b[2 + 2 * s]))
  }

  /** Four flag bits of a byte, starting at bit `from`. */
  function Flags(x: Byte, from: nat): (r: seq<bool>)
    ensures |r| == SensorsPerPanel
    ensures forall s :: 0 <= s < SensorsPerPanel ==> (r[s] <==> BitSet(x, from + s))
  {
    seq(SensorsPerPanel, s requires 0 <= s < SensorsPerPanel => BitSet(x, from + s))
  }

  /** A panel's reading from its ten bytes: the header bits must be 0,1,0;
      otherwise the panel has no data and everything else stays zero. The
      first byte then holds the bad-sensor flags in bits 3-6, bytes 1-8 the
      levels, and the last byte the DIP switch in its low nibble and the
      wrong-jumper flags in bits 4-7. */
  function DecodeReading(b: seq<Byte>): (r: PanelReading)
    requires |b| == DetailSize
    ensures |r.levels| == SensorsPerPanel && |r.badSensor| == SensorsPerPanel && |r.badJumper| == SensorsPerPanel
    ensures r.haveData <==> !BitSet(b[0], 0) && BitSet(b[0], 1) && !BitSet(b[0], 2)
    ensures !r.haveData ==> r == PanelReading(false, [0, 0, 0, 0], [false, false, false, false], 0, [false, false, false, false])
    ensures r.haveData ==> forall s :: 0 <= s < SensorsPerPanel ==>
      && r.levels[s] == Int16(b[1 + 2 * s], b[2 + 2 * s])
      && (r.badSensor[s] <==> BitSet(b[0], 3 + s))
      && (r.badJumper[s] <==> BitSet(b[9], 4 + s))
    ensures r.haveData ==> r.dip == b[9] % 16
  {
    if BitSet(b[0], 0) || !BitSet(b[0], 1) || BitSet(b[0], 2) then
      PanelReading(false, [0, 0, 0, 0], [false, false, false, false], 0, [false, false, false, false])
    else
      PanelReading(true, Levels(b), Flags(b[0], 3), b[9] % 16, Flags(b[9], 4))
  }

  /** Four entries per panel, panel after panel. */
  function PerSensor<T>(rows: seq<seq<T>>): (r: seq<T>)
    requires forall p :: 0 <= p < |rows| ==> |rows[p]| == SensorsPerPanel
    ensures |r| == |rows| * SensorsPerPanel
    ensures forall p, s :: 0 <= p < |rows| && 0 <= s < SensorsPerPanel ==> r[p * SensorsPerPanel + s] == rows[p][s]
  {
    var r := seq(|rows| * SensorsPerPanel, k requires 0 <= k < |rows| * SensorsPerPanel => rows[k / SensorsPerPanel][k % SensorsPerPanel]);
    assert forall p, s :: 0 <= p < |rows| && 0 <= s < SensorsPerPanel ==> r[p * SensorsPerPanel + s] == rows[p][s] by {
      forall p, s | 0 <= p < |rows| && 0 <= s < SensorsPerPanel
        ensures r[p * SensorsPerPanel + s] == rows[p][s]
      {
        assert (p * SensorsPerPanel + s) / SensorsPerPanel == p && (p * SensorsPerPanel + s) % SensorsPerPanel == s;
      }
    }
    r
  }

  /** A reading with four entries per sensor list. */
  predicate ReadingShaped(r: PanelReading)
  {
    |r.levels| == SensorsPerPanel && |r.badSensor| == SensorsPerPanel && |r.badJumper| == SensorsPerPanel
  }

  /** One shaped reading per panel. */
  predicate ReadingsShaped(rs: seq<PanelReading>)
  {
    && |rs| == PanelCount
    && (forall p :: 0 <= p < PanelCount ==> |rs[p].levels| == SensorsPerPanel)
    && (forall p :: 0 <= p < PanelCount ==> |rs[p].badSensor| == SensorsPerPanel)
    && (forall p :: 0 <= p < PanelCount ==> |rs[p].badJumper| == SensorsPerPanel)
  }

  /** The sensor levels of all panels, four per panel. */
  function LevelColumn(rs: seq<PanelReading>): (r: seq<int>)
    requires ReadingsShaped(rs)
    ensures |r| == PanelCount * SensorsPerPanel
    ensures forall p, s :: 0 <= p < PanelCount && 0 <= s < SensorsPerPanel ==> r[p * SensorsPerPanel + s] == rs[p].levels[s]
  {
    PerSensor(seq(PanelCount, p requires 0 <= p < PanelCount => rs[p].levels))
  }

  /** The bad-sensor flags of all panels, four per panel. */
  function BadSensorColumn(rs: seq<PanelReading>): (r: seq<bool>)
    requires ReadingsShaped(rs)
    ensures |r| == PanelCount * SensorsPerPanel
    ensures forall p, s :: 0 <= p < PanelCount && 0 <= s < SensorsPerPanel ==> r[p * SensorsPerPanel + s] == rs[p].badSensor[s]
  {
    PerSensor(seq(PanelCount, p requires 0 <= p < PanelCount => rs[p].badSensor))
  }

  /** The wrong-jumper flags of all panels, four per panel. */
  function JumperColumn(rs: seq<PanelReading>): (r: seq<bool>)
    requires ReadingsShaped(rs)
    ensures |r| == PanelCount * SensorsPerPanel
    ensures forall p, s :: 0 <= p < PanelCount && 0 <= s < SensorsPerPanel ==> r[p * SensorsPerPanel + s] == rs[p].badJumper[s]
  {
    PerSensor(seq(PanelCount, p requires 0 <= p < PanelCount => rs[p].badJumper))
  }

  /** The test-data record from the panels' readings, panel by panel. */
  function FromReadings(rs: seq<PanelReading>): (d: TestModeData)
    requires ReadingsShaped(rs)
    ensures TestDataShaped(d)
    ensures forall p :: 0 <= p < PanelCount ==> d.haveDataFromPanel[p] == rs[p].haveData && d.dipSwitchPerPanel[p] == rs[p].dip
    ensures forall p, s :: 0 <= p < PanelCount && 0 <= s < SensorsPerPanel ==>
      && d.sensorLevel[p * SensorsPerPanel + s] == rs[p].levels[s]
      && d.badSensorInput[p * SensorsPerPanel + s] == rs[p].badSensor[s]
      && d.wrongSensorJumper[p * SensorsPerPanel + s] == rs[p].badJumper[s]
  {
    TestModeData(
      seq(PanelCount, p requires 0 <= p < PanelCount => rs[p].haveData),
      LevelColumn(rs), BadSensorColumn(rs),
      seq(PanelCount, p requires 0 <= p < PanelCount => rs[p].dip),
      JumperColumn(rs))
  }

  /** The whole test-data record from the words of a reply. */
  function DecodeTestData(data: seq<U16>): (d: TestModeData)
    ensures TestDataShaped(d)
    ensures forall p :: 0 <= p < PanelCount ==> d.haveDataFromPanel[p] == Reading(data, p).haveData
    ensures forall p :: 0 <= p < PanelCount ==> d.dipSwitchPerPanel[p] == Reading(data, p).dip
    ensures forall p, s :: 0 <= p < PanelCount && 0 <= s < SensorsPerPanel ==>
      && d.sensorLevel[p * SensorsPerPanel + s] == Reading(data, p).levels[s]
      && d.badSensorInput[p * SensorsPerPanel + s] == Reading(data, p).badSensor[s]
      && d.wrongSensorJumper[p * SensorsPerPanel + s] == Reading(data, p).badJumper[s]
  {
    hide Reading;
    FromReadings(seq(PanelCount, p requires 0 <= p < PanelCount => Reading(data, p)))
  }

  /** One panel's reading out of the words of a reply. */
  function Reading(data: seq<U16>, panel: nat): (r: PanelReading)
    ensures ReadingShaped(r)
  {
    DecodeReading(PanelBytes(data, panel, DetailSize))
  }

  /** A panel has data exactly when its first three stream bits are 0, 1, 0. */
  lemma ReadingHeader(data: seq<U16>, panel: nat)
    ensures Reading(data, panel).haveData <==>
      !StreamBit(data, panel, 0) && StreamBit(data, panel, 1) && !StreamBit(data, panel, 2)
  {
    PanelBytesBits(data, panel, DetailSize, 0, 0);
    PanelBytesBits(data, panel, DetailSize, 0, 1);
    PanelBytesBits(data, panel, DetailSize, 0, 2);
  }

  /** With fewer than two words no panel has data: its second header bit
      reads as 0. */
  lemma ShortReplyHasNoData(data: seq<U16>, panel: nat)
    requires |data| < 2
    ensures !Reading(data, panel).haveData
  {
    ReadingHeader(data, panel);
  }

  // ----- the device -----

  /** The tags of the device's own completion callbacks. */
  const SendingConfigDone: nat := 0
  const ConfigReadBack: nat := 1
  const FactoryResetDone: nat := 2

  /** A call of the update callback: pad number and reason. */
  datatype Event = Event(pad: nat, reason: UpdateReason)

  /** `SMXDevice`. Configurations are kept as the packed 250-byte records. */
  datatype Device = Device(
    conn: Connection,
    config: seq<Byte>,
    haveConfig: bool,
    wanted: seq<Byte>,
    sendConfig: bool,
    sendingConfig: bool,
    waitingForConfigResponse: bool,
    waitingForTestMode: SensorTestMode,
    testMode: SensorTestMode,
    haveTestData: bool,
    testData: TestModeData)

  predicate DeviceShaped(d: Device)
  {
    |d.config| == ConfigSize && |d.wanted| == ConfigSize
  }

  /** The callback event for this pad, numbered by its player flag. */
  function UpdateEvent(d: Device, reason: UpdateReason): (e: Event)
    ensures e.pad == (if d.conn.info.p2 then 1 else 0) && e.reason == reason
  {
    Event(if d.conn.info.p2 then 1 else 0, reason)
  }

  /** `IsConnectedLocked`: the device info is known and a configuration has
      been read. */
  predicate IsConnected(d: Device)
  {
    IsConnectedWithDeviceInfo(d.conn) && d.haveConfig
  }

  /** `GetConfigLocked`: the configuration waiting to be written if there is
      one, else the last one read; and whether one has been read. */
  function GetConfig(d: Device): (r: (seq<Byte>, bool))
    ensures r.1 == d.haveConfig
    ensures d.sendConfig ==> r.0 == d.wanted
    ensures !d.sendConfig ==> r.0 == d.config
  {
    (if d.sendConfig then d.wanted else d.config, d.haveConfig)
  }

  /** `SetConfig`: stores the configuration to write; nothing is sent yet. */
  function SetConfig(d: Device, newConfig: seq<Byte>): (r: Device)
    ensures r == d.(wanted := newConfig, sendConfig := true)
  {
    d.(wanted := newConfig, sendConfig := true)
  }

  /** Reading back right after setting gives what was set. */
  lemma GetAfterSet(d: Device, newConfig: seq<Byte>)
    ensures GetConfig(SetConfig(d, newConfig)) == (newConfig, d.haveConfig)
  {
  }

  /** Runs the device's completion callbacks named by their tags: the
      write's completion clears `sendingConfig`, the read-back's clears
      `waitingForConfigResponse`, and a factory reset's reports it. */
  function ApplyTags(d: Device, tags: seq<nat>): (r: (Device, seq<Event>))
    ensures r.0 == d.(sendingConfig := d.sendingConfig && SendingConfigDone !in tags,
                      waitingForConfigResponse := d.waitingForConfigResponse && ConfigReadBack !in tags)
    ensures r.1 == [] <==> FactoryResetDone !in tags
    ensures forall k :: 0 <= k < |r.1| ==> r.1[k] == UpdateEvent(d, FactoryResetCommandComplete)
    decreases |tags|
  {
    if tags == [] then (d, [])
    else
      var step :=
        if tags[0] == SendingConfigDone then (d.(sendingConfig := false), [])
        else if tags[0] == ConfigReadBack then (d.(waitingForConfigResponse := false), [])
        else if tags[0] == FactoryResetDone then (d, [UpdateEvent(d, FactoryResetCommandComplete)])
        else (d, []);
      var rest := ApplyTags(step.0, tags[1..]);
      assert forall t :: t in tags <==> t == tags[0] || t in tags[1..];
      (rest.0, step.1 + rest.1)
  }

  /** Runs one completion now (the device-info step, or a callback). */
  function RunCompletion(d: Device, completion: Completion): (r: (Device, seq<Event>))
    ensures completion == NoCompletion ==> r == (d, [])
    ensures completion == MarkGotInfo ==> r == (d.(conn := d.conn.(gotInfo := true)), [])
    ensures completion.Notify? ==> r == ApplyTags(d, [completion.tag])
  {
    var c := Complete(d.conn, completion);
    ApplyTags(d.(conn := c.0), c.1)
  }

  /** `SendCommandLocked`: without a handle the completion runs at once and
      nothing is sent; otherwise the command is queued. */
  function SendCommandLocked(d: Device, cmd: seq<Byte>, completion: Completion): (r: (Device, seq<Event>))
    ensures d.conn.handle.Some? ==> r == (d.(conn := SendCommand(d.conn, cmd, completion)), [])
    ensures !d.conn.handle.Some? ==> r == RunCompletion(d, completion)
  {
    if !d.conn.handle.Some? then RunCompletion(d, completion)
    else (d.(conn := SendCommand(d.conn, cmd, completion)), [])
  }

  /** The read-config command: "G" from firmware 5 on, "g\n" before. */
  function ReadConfigCommand(firmware: U16): (cmd: seq<Byte>)
    ensures firmware >= 5 ==> cmd == ['G' as int]
    ensures firmware < 5 ==> cmd == ['g' as int, '\n' as int]
  {
    if firmware >= 5 then ['G' as int] else ['g' as int, '\n' as int]
  }

  /** `FactoryReset`: sends the reset command, then a read of the new
      configuration whose completion reports the reset as complete. With
      no handle both completions run at once, so the report comes at once. */
  function FactoryReset(d: Device): (r: (Device, seq<Event>))
    ensures d.conn.handle.Some? ==>
      && r.1 == [] && r.0 == d.(conn := r.0.conn)
      && r.0.conn.pending == d.conn.pending + [
           PendingCommand(CommandPackets(['f' as int, '\n' as int]), NoCompletion, false),
           PendingCommand(CommandPackets(ReadConfigCommand(d.conn.info.firmwareVersion)), Notify(FactoryResetDone), false)]
    ensures !d.conn.handle.Some? ==> r.1 == [UpdateEvent(d, FactoryResetCommandComplete)]
  {
    var reset := SendCommandLocked(d, ['f' as int, '\n' as int], NoCompletion);
    var read := SendCommandLocked(reset.0, ReadConfigCommand(d.conn.info.firmwareVersion), Notify(FactoryResetDone));
    (read.0, reset.1 + read.1)
  }

  /** `ForceRecalibration`: sends the recalibrate command. */
  function ForceRecalibration(d: Device): (r: (Device, seq<Event>))
    ensures d.conn.handle.Some? ==> r == (d.(conn := d.conn.(pending := d.conn.pending + [
      PendingCommand(CommandPackets(['C' as int, '\n' as int]), NoCompletion, false)])), [])
    ensures !d.conn.handle.Some? ==> r.1 == []
  {
    SendCommandLocked(d, ['C' as int, '\n' as int], NoCompletion)
  }

  /** `SetSensorTestMode`: only records the mode; the request goes out on
      the next update. */
  function SetSensorTestMode(d: Device, mode: SensorTestMode): (r: Device)
    ensures r.testMode == mode && r == d.(testMode := r.testMode)
  {
    d.(testMode := mode)
  }

  /** `GetTestData`: the last decoded test data, once there is any. */
  function GetTestData(d: Device): (r: Option<TestModeData>)
    ensures r.Some? <==> d.haveTestData
    ensures r.Some? ==> r.value == d.testData
  {
    if d.haveTestData then Some(d.testData) else None
  }

  /** The offset of `flags` in the packed record. */
  const FlagsOffset: nat := 2

  /** The size byte of a write command as the code computes it: the record
      size is stored in an `int8_t`, where 250 becomes -6; for a pad whose
      master version is at most 3 it goes through the `min` macro against
      the unsigned offset of `flags`, where -6 compares as a huge unsigned
      value, so the result is that offset. The byte sent is the low 8 bits. */
  function WriteSizeByte(masterVersion: Byte): (b: Byte)
    ensures masterVersion <= 3 ==> b == FlagsOffset
    ensures masterVersion > 3 ==> b == ConfigSize
  {
    var size := SignedChar(Truncate8(ConfigSize));
    assert size == -6;
    var size' :=
      if masterVersion <= 3 then
        var unsignedSize := size % 0x1_0000_0000_0000_0000;
        if unsignedSize < FlagsOffset then size else FlagsOffset
      else size;
    Truncate8(size')
  }

  /** The write command: 'W' (firmware 5 on) or 'w', the size byte, then
      the whole 250-byte record whatever the size byte says. */
  function WriteCommand(firmware: U16, masterVersion: Byte, wanted: seq<Byte>): (cmd: seq<Byte>)
    ensures |cmd| == 2 + |wanted| && cmd[2..] == wanted
    ensures cmd[0] == (if firmware >= 5 then 'W' as int else 'w' as int)
    ensures cmd[1] == WriteSizeByte(masterVersion)
  {
    [if firmware >= 5 then 'W' as int else 'w' as int, WriteSizeByte(masterVersion)] + wanted
  }

  /** The guard of `SendConfig`. */
  predicate CanSendConfig(d: Device)
  {
    d.conn.handle.Some? && d.sendConfig && !d.sendingConfig && d.haveConfig && !d.waitingForConfigResponse
  }

  /** `SendConfig`: when the guard holds, queues the write and the read-back,
      marks both in progress, clears the pending flag and takes the written
      configuration as current. Otherwise nothing changes. */
  function SendConfig(d: Device): (r: Device)
    requires DeviceShaped(d)
    ensures DeviceShaped(r)
    ensures !CanSendConfig(d) ==> r == d
    ensures CanSendConfig(d) ==>
      && !r.sendConfig && r.sendingConfig && r.waitingForConfigResponse && r.config == d.wanted
      && r.haveConfig && r.wanted == d.wanted
      && var fw := d.conn.info.firmwareVersion;
      && r.conn.pending == d.conn.pending + [
           PendingCommand(CommandPackets(WriteCommand(fw, d.config[0], d.wanted)), Notify(SendingConfigDone), false),
           PendingCommand(CommandPackets(ReadConfigCommand(fw)), Notify(ConfigReadBack), false)]
      && r.conn == d.conn.(pending := r.conn.pending)
  {
    if !CanSendConfig(d) then d
    else
      var fw := d.conn.info.firmwareVersion;
      var c1 := SendCommand(d.conn, WriteCommand(fw, d.config[0], d.wanted), Notify(SendingConfigDone));
      var c2 := SendCommand(c1, ReadConfigCommand(fw), Notify(ConfigReadBack));
      d.(conn := c2, sendingConfig := true, sendConfig := false, config := d.wanted, waitingForConfigResponse := true)
  }

  /** `GetConfig` keeps returning what was set, whether or not it has gone
      out yet. */
  lemma GetAfterSendConfig(d: Device, newConfig: seq<Byte>)
    requires DeviceShaped(d) && |newConfig| == ConfigSize
    ensures GetConfig(SendConfig(SetConfig(d, newConfig))).0 == newConfig
  {
  }

  /** A second `SendConfig` before the read-back arrives sends nothing. */
  lemma NoSecondWriteInFlight(d: Device, newConfig: seq<Byte>)
    requires DeviceShaped(d) && CanSendConfig(d) && |newConfig| == ConfigSize
    ensures var d1 := SetConfig(SendConfig(d), newConfig);
      SendConfig(d1) == d1
  {
  }

  /** The write's completion and the read-back's completion, once both have
      run, allow the next write. */
  lemma WriteHandshake(d: Device, newConfig: seq<Byte>)
    requires DeviceShaped(d) && CanSendConfig(d) && |newConfig| == ConfigSize
    ensures var d1 := ApplyTags(SendConfig(d), [SendingConfigDone, ConfigReadBack]).0;
      CanSendConfig(SetConfig(d1, newConfig))
  {
  }

  /** `OpenDeviceHandle`: hands the new handle to the connection, which
      asks the pad for its device info. */
  function OpenDeviceHandle(d: Device, handle: nat): (r: Device)
    ensures r.conn.handle == Some(handle) && r == d.(conn := r.conn)
    ensures r.conn.pending == d.conn.pending + [PendingCommand([DeviceInfoRequest()], MarkGotInfo, true)]
    ensures r.conn == d.conn.(handle := Some(handle), pending := r.conn.pending)
  {
    d.(conn := Open(d.conn, handle))
  }

  /** `CloseDevice`: closes the connection, forgets the configuration state
      and reports an update. */
  function CloseDevice(d: Device): (r: (Device, seq<Event>))
    ensures !r.0.haveConfig && !r.0.sendConfig && !r.0.sendingConfig && !r.0.waitingForConfigResponse
    ensures r.0.conn == Close(d.conn) && !IsConnected(r.0)
    ensures r.0.config == d.config && r.0.wanted == d.wanted && r.0.testData == d.testData
    ensures r.1 == [UpdateEvent(d, Updated)]
  {
    var d1 := d.(conn := Close(d.conn), haveConfig := false, sendConfig := false, sendingConfig := false, waitingForConfigResponse := false);
    (d1, [UpdateEvent(d1, Updated)])
  }

  /** `CheckActive`: once the device info is in, the connection is made
      active and the current configuration is requested. */
  function CheckActive(d: Device): (r: (Device, seq<Event>))
    ensures !IsConnectedWithDeviceInfo(d.conn) || d.conn.active ==> r == (d, [])
    ensures IsConnectedWithDeviceInfo(d.conn) && !d.conn.active ==>
      r == (d.(conn := SendCommand(SetActive(d.conn, true), ReadConfigCommand(d.conn.info.firmwareVersion), NoCompletion)), [])
  {
    if !IsConnectedWithDeviceInfo(d.conn) || d.conn.active then (d, [])
    else
      var d1 := d.(conn := SetActive(d.conn, true));
      SendCommandLocked(d1, ReadConfigCommand(d1.conn.info.firmwareVersion), NoCompletion)
  }

  /** `UpdateSensorTestMode`: in a test mode, requests data unless a request
      is outstanding and has not timed out. */
  function UpdateSensorTestMode(d: Device, requestTimedOut: bool): (r: (Device, seq<Event>))
    ensures d.testMode == SensorTestOff ==> r == (d, [])
    ensures d.testMode != SensorTestOff && d.waitingForTestMode != SensorTestOff && !requestTimedOut ==> r == (d, [])
    ensures d.testMode != SensorTestOff && (d.waitingForTestMode == SensorTestOff || requestTimedOut) ==>
      r.0.waitingForTestMode == d.testMode
    ensures r.0 == d.(waitingForTestMode := r.0.waitingForTestMode, conn := r.0.conn)
  {
    if d.testMode == SensorTestOff then (d, [])
    else if d.waitingForTestMode != SensorTestOff && !requestTimedOut then (d, [])
    else
      hide RunCompletion, ApplyTags;
      var d1 := d.(waitingForTestMode := d.testMode);
      SendCommandLocked(d1, ['y' as int, SensorTestModeCode(d.testMode), '\n' as int], NoCompletion)
  }

  /** The words of a test-data reply: little-endian pairs from byte 3. */
  function ReplyWords(buf: seq<Byte>, count: nat): (w: seq<U16>)
    requires 3 + 2 * count <= |buf|
    ensures |w| == count
    ensures forall k :: 0 <= k < count ==> w[k] == Le16(buf[3 + 2 * k], buf[4 + 2 * k])
  {
    seq(count, k requires 0 <= k < count => Le16(buf[3 + 2 * k], buf[4 + 2 * k]))
  }

  /** `HandleSensorTestDataResponse`. The byte count is twice the third byte,
      cut to 8 bits. A reply is ignored while incomplete, when none was
      asked for, or when its mode is not the one asked for; a matching
      reply ends the wait, and is decoded only if the test mode has not
      changed meanwhile. */
  function HandleSensorTestData(d: Device, buf: seq<Byte>): (r: (Device, seq<Event>))
    ensures |buf| < 3 ==> r == (d, [])
    ensures |buf| >= 3 && |buf| < (2 * buf[2] as int) % 0x100 + 3 ==> r == (d, [])
    ensures d.waitingForTestMode == SensorTestOff ==> r == (d, [])
    ensures |buf| >= 3 && buf[1] != SensorTestModeCode(d.waitingForTestMode) ==> r == (d, [])
    ensures r.0.testData == d.testData || TestDataShaped(r.0.testData)
    ensures |buf| >= 3 && |buf| >= (2 * buf[2] as int) % 0x100 + 3 && d.waitingForTestMode != SensorTestOff
            && buf[1] == SensorTestModeCode(d.waitingForTestMode) ==>
      && r.0.waitingForTestMode == SensorTestOff
      && (buf[1] == SensorTestModeCode(d.testMode) <==> r.1 != [])
      && (buf[1] == SensorTestModeCode(d.testMode) ==>
            r.0.haveTestData && r.0.testData == DecodeTestData(ReplyWords(buf, (2 * buf[2] as int) % 0x100 / 2)))
  {
    if |buf| < 3 then (d, [])
    else
      var size := Truncate8(SignedChar(buf[2]) * 2);
      assert size == (2 * buf[2] as int) % 0x100;
      if |buf| < size + 3 then (d, [])
      else
        var words := ReplyWords(buf, size / 2);
        if d.waitingForTestMode == SensorTestOff then (d, [])
        else if buf[1] != SensorTestModeCode(d.waitingForTestMode) then (d, [])
        else
          var d1 := d.(waitingForTestMode := SensorTestOff);
          if buf[1] != SensorTestModeCode(d.testMode) then (d1, [])
          else
            var d2 := d1.(haveTestData := true, testData := DecodeTestData(words));
            (d2, [UpdateEvent(d2, Updated)])
  }

  /** A configuration reply ('g' or 'G'): at least two bytes and the size
      byte's worth of data; the first min(size, 250) bytes overwrite the
      start of the stored record. */
  function HandleConfigPacket(d: Device, buf: seq<Byte>): (r: (Device, seq<Event>))
    requires DeviceShaped(d)
    ensures DeviceShaped(r.0)
    ensures |buf| < 2 || |buf| < buf[1] as int + 2 ==> r == (d, [])
    ensures |buf| >= 2 && |buf| >= buf[1] as int + 2 ==>
      && var n := if buf[1] < ConfigSize then buf[1] else ConfigSize;
      && r.0 == d.(config := buf[2..2 + n] + d.config[n..], haveConfig := true)
      && r.1 == [UpdateEvent(d, Updated)]
  {
    if |buf| < 2 || |buf| < buf[1] as int + 2 then (d, [])
    else
      var n := if buf[1] < ConfigSize then buf[1] else ConfigSize;
      var d1 := d.(config := buf[2..2 + n] + d.config[n..], haveConfig := true);
      (d1, [UpdateEvent(d1, Updated)])
  }

  /** A full-size reply replaces the stored record by the one read. */
  lemma FullConfigPacket(d: Device, record: seq<Byte>, kind: Byte)
    requires DeviceShaped(d) && |record| == ConfigSize && (kind == 'g' as int || kind == 'G' as int)
    ensures HandleConfigPacket(d, [kind, ConfigSize] + record).0.config == record
    ensures IsConnectedWithDeviceInfo(d.conn) ==> IsConnected(HandleConfigPacket(d, [kind, ConfigSize] + record).0)
  {
    var buf := [kind, ConfigSize] + record;
    assert buf[2..2 + ConfigSize] == record;
  }

  /** `HandlePackets`: every joined packet, oldest first; empty packets and
      unknown commands are skipped. */
  function HandlePackets(d: Device): (r: (Device, seq<Event>))
    requires DeviceShaped(d)
    ensures DeviceShaped(r.0)
    ensures r.0.conn.readBuffers == []
    decreases |d.conn.readBuffers|
  {
    if d.conn.readBuffers == [] then (d, [])
    else
      var read := ReadPacket(d.conn);
      var buf := read.1.value;
      var d1 := d.(conn := read.0);
      var step :=
        if buf == [] then (d1, [])
        else if buf[0] == 'y' as int then HandleSensorTestData(d1, buf)
        else if buf[0] == 'g' as int || buf[0] == 'G' as int then HandleConfigPacket(d1, buf)
        else (d1, []);
      assert step.0.conn == d1.conn && DeviceShaped(step.0);
      var rest := HandlePackets(step.0);
      (rest.0, step.1 + rest.1)
  }

  /** Runs each report through the connection, applying the device's
      completions as they fire. */
  function ReceiveReports(d: Device, reports: seq<seq<Byte>>): (r: (Device, seq<Event>))
    requires DeviceShaped(d)
    ensures DeviceShaped(r.0)
    decreases |reports|
  {
    if reports == [] then (d, [])
    else
      var handled := HandleUsbPacket(d.conn, reports[0]);
      var applied := ApplyTags(d.(conn := handled.0), handled.1);
      var rest := ReceiveReports(applied.0, reports[1..]);
      (rest.0, applied.1 + rest.1)
  }

  /** `Update`, one round: activate, send a waiting configuration, request
      test data, take in the reports read this round, start the next
      command, report an input change, and handle the joined packets. A
      closed device does nothing; read and write errors are not modelled. */
  function Update(d: Device, requestTimedOut: bool, reports: seq<seq<Byte>>): (r: (Device, seq<Event>))
    requires DeviceShaped(d)
    ensures DeviceShaped(r.0)
    ensures !d.conn.handle.Some? ==> r == (d, [])
    ensures d.conn.handle.Some? ==> r.0.conn.readBuffers == []
  {
    if !d.conn.handle.Some? then (d, [])
    else
      hide CheckActive, SendConfig, UpdateSensorTestMode, ReceiveReports, HandlePackets, StartNextCommand;
      var a := CheckActive(d);
      var b := SendConfig(a.0);
      var c := UpdateSensorTestMode(b, requestTimedOut);
      var oldInput := c.0.conn.inputState;
      var received := ReceiveReports(c.0, reports);
      var started := received.0.(conn := StartNextCommand(received.0.conn).0);
      var inputEvents := if oldInput != started.conn.inputState then [UpdateEvent(started, Updated)] else [];
      var handled := HandlePackets(started);
      (handled.0, a.1 + c.1 + received.1 + inputEvents + handled.1)
  }
}
