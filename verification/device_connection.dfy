/**
 The low-level link to one pad over HID: commands are cut into 64-byte
 output reports, incoming serial reports are joined back into packets, the
 input-state report is decoded, and the device-info exchange fills in the
 pad's player number, serial and firmware version. Reads, writes and their
 completion are I/O and are not modelled; each transition here is what the
 connection does with one report or one call.
 */
module DeviceConnection {
  import opened Wrappers
  import opened Bytes
  import opened TextHelpers

  /** The size of a HID report, and the payload one output report carries. */
  const ReportSize: nat := 64
  const PayloadMax: nat := 61

  /** Report IDs: the input state (in), a serial packet (in), a command
      packet (out). */
  const InputStateReport: Byte := 3
  const SerialReport: Byte := 6
  const CommandReport: Byte := 5

  /** The packet flag bits. */
  const FlagStartOfCommand: Byte := 0x04
  const FlagEndOfCommand: Byte := 0x01
  const FlagHostCmdFinished: Byte := 0x02
  const FlagDeviceInfo: Byte := 0x80

  /** What to run when a command completes: nothing, the device-info step of
      `Open` (which marks the info as received), or a caller's callback,
      which the caller identifies by a tag. */
  datatype Completion = NoCompletion | MarkGotInfo | Notify(tag: nat)

  /** A command waiting to be sent, or in flight: its output reports. */
  datatype PendingCommand = PendingCommand(packets: seq<seq<Byte>>, completion: Completion, isDeviceInfo: bool)

  /** `SMXDeviceInfo`: the player flag, the hex serial and the firmware version. */
  datatype DeviceInfo = DeviceInfo(p2: bool, serial: string, firmwareVersion: U16)

  /** `SMXDeviceConnection`. `handle` is the open device handle, if any. */
  datatype Connection = Connection(
    handle: Option<nat>,
    active: bool,
    gotInfo: bool,
    readBuffers: seq<seq<Byte>>,
    currentReadBuffer: seq<Byte>,
    pending: seq<PendingCommand>,
    current: Option<PendingCommand>,
    inputState: U16,
    info: DeviceInfo)

  function Initial(): (c: Connection)
    ensures c.handle == None && !c.active && !c.gotInfo && c.pending == [] && c.current == None
  {
    Connection(None, false, false, [], [], [], None, 0, DeviceInfo(false, "", 0))
  }

  predicate IsConnected(c: Connection)
  {
    c.handle.Some?
  }

  predicate IsConnectedWithDeviceInfo(c: Connection)
  {
    c.handle.Some? && c.gotInfo
  }

  // ----- output framing -----

  function PacketFlags(first: bool, last: bool): (f: Byte)
    ensures BitSet(f, 2) <==> first
    ensures BitSet(f, 0) <==> last
    ensures !BitSet(f, 1) && !BitSet(f, 7)
  {
    var f := (if first then FlagStartOfCommand else 0) + (if last then FlagEndOfCommand else 0);
    NoBitAbove(f, 3, 7);
    f
  }

  /** A value below 2^n has no bit at or above n. */
  lemma {:induction false} NoBitAbove(x: nat, n: nat, i: nat)
    requires x < Pow2(n) && n <= i
    ensures !BitSet(x, i)
  {
    if i > 0 {
      if n > 0 {
        NoBitAbove(x / 2, n - 1, i - 1);
      } else {
        ZeroHasNoBits(i);
      }
    }
  }

  /** One output report: report ID, flags, payload length, payload, zeros. */
  function Report(flags: Byte, payload: seq<Byte>): (r: seq<Byte>)
    requires |payload| <= PayloadMax
    ensures |r| == ReportSize && r[0] == CommandReport && r[1] == flags && r[2] == |payload|
    ensures r[3..3 + |payload|] == payload
    ensures forall k :: 3 + |payload| <= k < ReportSize ==> r[k] == 0
  {
    [CommandReport, flags, |payload|] + payload + Repeat(0, PayloadMax - |payload|)
  }

  /** The loop of `SendCommand` from offset i on: at most 61 bytes per
      report, START on the report at offset 0, END on the one that reaches
      the end. An empty command still gives one report. */
  function FramePackets(cmd: seq<Byte>, i: nat): (r: seq<seq<Byte>>)
    requires i <= |cmd|
    ensures |r| >= 1
    decreases |cmd| - i
  {
    var size := if |cmd| - i < PayloadMax then |cmd| - i else PayloadMax;
    var report := Report(PacketFlags(i == 0, i + size == |cmd|), cmd[i..i + size]);
    if i + size < |cmd| then [report] + FramePackets(cmd, i + size) else [report]
  }

  function CommandPackets(cmd: seq<Byte>): seq<seq<Byte>>
  {
    FramePackets(cmd, 0)
  }

  /** A well-formed output report. */
  predicate ReportShaped(p: seq<Byte>)
  {
    |p| == ReportSize && p[0] == CommandReport && p[2] <= PayloadMax
    && forall k :: 3 + p[2] <= k < ReportSize ==> p[k] == 0
  }

  /** The bytes a report carries; nothing for a report too short for its
      length byte. */
  function Payload(p: seq<Byte>): seq<Byte>
  {
    if |p| >= 3 && 3 + p[2] <= |p| then p[3..3 + p[2]] else []
  }

  function ConcatPayloads(ps: seq<seq<Byte>>): (r: seq<Byte>)
    ensures ps == [] ==> r == []
  {
    if ps == [] then [] else Payload(ps[0]) + ConcatPayloads(ps[1..])
  }

  /** A report built from a payload is well formed and carries it back. */
  lemma ReportCarries(flags: Byte, payload: seq<Byte>)
    requires |payload| <= PayloadMax
    ensures ReportShaped(Report(flags, payload)) && Payload(Report(flags, payload)) == payload
  {
  }

  /** The report count drops by one for every full report taken off. */
  lemma PacketCountStep(n: nat)
    ensures n > PayloadMax ==> (n + PayloadMax - 1) / PayloadMax == 1 + (n - PayloadMax + PayloadMax - 1) / PayloadMax
    ensures 0 < n <= PayloadMax ==> (n + PayloadMax - 1) / PayloadMax == 1
  {
  }

  /** The payloads of a first report and the rest. */
  lemma ConcatPayloadsCons(p: seq<Byte>, rest: seq<seq<Byte>>)
    ensures ConcatPayloads([p] + rest) == Payload(p) + ConcatPayloads(rest)
  {
    assert ([p] + rest)[1..] == rest;
  }

  /** The size of the report at offset i. */
  function ChunkSize(cmd: seq<Byte>, i: nat): (n: nat)
    requires i <= |cmd|
    ensures n <= PayloadMax && i + n <= |cmd|
    ensures i + n < |cmd| ==> n == PayloadMax
  {
    if |cmd| - i < PayloadMax then |cmd| - i else PayloadMax
  }

  /** The first report from offset i, then the reports of the rest. */
  lemma FramePacketsUnfold(cmd: seq<Byte>, i: nat)
    requires i <= |cmd|
    ensures var n := ChunkSize(cmd, i);
      FramePackets(cmd, i) ==
        [Report(PacketFlags(i == 0, i + n == |cmd|), cmd[i..i + n])]
          + (if i + n < |cmd| then FramePackets(cmd, i + n) else [])
  {
  }

  /** How many reports a command gives from offset i. */
  lemma {:induction false} FramePacketsCount(cmd: seq<Byte>, i: nat)
    requires i <= |cmd|
    ensures |FramePackets(cmd, i)| == (if |cmd| == i then 1 else (|cmd| - i + PayloadMax - 1) / PayloadMax)
    decreases |cmd| - i
  {
    var n := ChunkSize(cmd, i);
    FramePacketsUnfold(cmd, i);
    PacketCountStep(|cmd| - i);
    if i + n < |cmd| {
      FramePacketsCount(cmd, i + n);
    }
  }

  /** Every report is well formed, START only on the first from offset 0,
      END only on the last, and all but the last full. */
  lemma {:induction false} FramePacketsReports(cmd: seq<Byte>, i: nat)
    requires i <= |cmd|
    ensures var r := FramePackets(cmd, i);
      && (forall k :: 0 <= k < |r| ==> ReportShaped(r[k]) && r[k][1] == PacketFlags(i == 0 && k == 0, k == |r| - 1))
      && (forall k :: 0 <= k < |r| - 1 ==> r[k][2] == PayloadMax)
    decreases |cmd| - i
  {
    hide *;
    var n := ChunkSize(cmd, i);
    var flags := PacketFlags(i == 0, i + n == |cmd|);
    var report := Report(flags, cmd[i..i + n]);
    ReportCarries(flags, cmd[i..i + n]);
    FramePacketsUnfold(cmd, i);
    if i + n < |cmd| {
      FramePacketsReports(cmd, i + n);
      var rest := FramePackets(cmd, i + n);
      var r := [report] + rest;
      assert forall k :: 1 <= k < |r| ==> r[k] == rest[k - 1];
    }
  }

  /** The payloads of the reports from offset i add up to the rest of the
      command. */
  lemma {:induction false} FramePacketsPayloads(cmd: seq<Byte>, i: nat)
    requires i <= |cmd|
    ensures ConcatPayloads(FramePackets(cmd, i)) == cmd[i..]
    decreases |cmd| - i
  {
    hide *;
    var n := ChunkSize(cmd, i);
    var flags := PacketFlags(i == 0, i + n == |cmd|);
    var report := Report(flags, cmd[i..i + n]);
    ReportCarries(flags, cmd[i..i + n]);
    FramePacketsUnfold(cmd, i);
    var rest := if i + n < |cmd| then FramePackets(cmd, i + n) else [];
    if i + n < |cmd| {
      FramePacketsPayloads(cmd, i + n);
    }
    ConcatPayloadsCons(report, rest);
    assert cmd[i..] == cmd[i..i + n] + cmd[i + n..];
  }

  /** The reports of a command from offset i: how many there are, that
      every one is well formed with START only at offset 0 and END only on
      the last, and that their payloads add up to the rest of the command. */
  lemma FramePacketsShape(cmd: seq<Byte>, i: nat)
    requires i <= |cmd|
    ensures var r := FramePackets(cmd, i);
      && |r| == (if |cmd| == i then 1 else (|cmd| - i + PayloadMax - 1) / PayloadMax)
      && (forall k :: 0 <= k < |r| ==> ReportShaped(r[k]) && r[k][1] == PacketFlags(i == 0 && k == 0, k == |r| - 1))
      && (forall k :: 0 <= k < |r| - 1 ==> r[k][2] == PayloadMax)
      && ConcatPayloads(r) == cmd[i..]
  {
    FramePacketsCount(cmd, i);
    FramePacketsReports(cmd, i);
    FramePacketsPayloads(cmd, i);
  }

  /** `SendCommand` as the caller sees it. */
  lemma CommandPacketsShape(cmd: seq<Byte>)
    ensures var r := CommandPackets(cmd);
      && |r| == (if cmd == [] then 1 else (|cmd| + PayloadMax - 1) / PayloadMax)
      && (forall k :: 0 <= k < |r| ==> ReportShaped(r[k]) && r[k][1] == PacketFlags(k == 0, k == |r| - 1))
      && ConcatPayloads(r) == cmd
  {
    FramePacketsShape(cmd, 0);
  }

  /** `SendCommand`: queues the command's reports behind those already waiting. */
  function SendCommand(c: Connection, cmd: seq<Byte>, completion: Completion): (r: Connection)
    ensures r == c.(pending := c.pending + [PendingCommand(CommandPackets(cmd), completion, false)])
  {
    c.(pending := c.pending + [PendingCommand(CommandPackets(cmd), completion, false)])
  }

  /** The device-info request: one report with only the DEVICE_INFO flag. */
  function DeviceInfoRequest(): (p: seq<Byte>)
    ensures |p| == ReportSize && p[0] == CommandReport && p[1] == FlagDeviceInfo && p[2] == 0
    ensures forall k :: 3 <= k < ReportSize ==> p[k] == 0
  {
    Report(FlagDeviceInfo, [])
  }

  function RequestDeviceInfo(c: Connection, completion: Completion): (r: Connection)
    ensures r.pending == c.pending + [PendingCommand([DeviceInfoRequest()], completion, true)]
    ensures r == c.(pending := r.pending)
  {
    c.(pending := c.pending + [PendingCommand([DeviceInfoRequest()], completion, true)])
  }

  /** `Open`: the handle is stored and device info is requested; its arrival
      marks the info as received. Setting up the read is I/O. */
  function Open(c: Connection, handle: nat): (r: Connection)
    ensures IsConnected(r) && r == RequestDeviceInfo(c, MarkGotInfo).(handle := Some(handle))
  {
    RequestDeviceInfo(c, MarkGotInfo).(handle := Some(handle))
  }

  /** The sending side of `CheckWrites`, with every write accepted: nothing
      while a command is in flight, otherwise the oldest waiting command is
      written and becomes the one in flight. Returns the reports written. */
  function StartNextCommand(c: Connection): (r: (Connection, seq<seq<Byte>>))
    ensures c.current.Some? || c.pending == [] ==> r == (c, [])
    ensures c.current.None? && c.pending != [] ==>
      r.0 == c.(current := Some(c.pending[0]), pending := c.pending[1..]) && r.1 == c.pending[0].packets
  {
    if c.current.Some? || c.pending == [] then (c, [])
    else (c.(current := Some(c.pending[0]), pending := c.pending[1..]), c.pending[0].packets)
  }

  // ----- incoming reports -----

  /** A byte of the report, or 0 past its end (see README). */
  function ByteAt(buf: seq<Byte>, i: nat): (b: Byte)
    ensures i < |buf| ==> b == buf[i]
  {
    if i < |buf| then buf[i] else 0
  }

  /** A `char` read as a signed 8-bit value. */
  function SignedChar(b: Byte): (v: int)
    ensures -128 <= v < 128 && Truncate8(v) == b
  {
    if b < 0x80 then b else b - 0x100
  }

  /** `std::string::resize`: cut to n, or filled with zeros up to n. */
  function Resize(s: seq<Byte>, n: nat): (r: seq<Byte>)
    ensures |r| == n
    ensures forall k :: 0 <= k < n ==> r[k] == (if k < |s| then s[k] else 0)
  {
    if |s| >= n then s[..n] else s + Repeat(0, n - |s|)
  }

  /** The size of `data_info_packet`, padding included. */
  const InfoPacketSize: nat := 24

  /** The device info read from the reply: player '1' means P2, the 16
      serial bytes in hex, the little-endian firmware version. */
  function InfoFromPacket(p: seq<Byte>): (info: DeviceInfo)
    requires |p| == InfoPacketSize
    ensures info.p2 <==> p[2] == '1' as int
    ensures info.serial == BinaryToHex(p[4..20]) && |info.serial| == 32
    ensures info.firmwareVersion == p[20] as int + 0x100 * p[21] as int
  {
    DeviceInfo(p[2] == '1' as int, BinaryToHex(p[4..20]), Le16(p[20], p[21]))
  }

  /** Running a completion: the device-info step marks the info received; a
      caller's callback is reported by its tag. */
  function Complete(c: Connection, completion: Completion): (r: (Connection, seq<nat>))
    ensures completion == MarkGotInfo ==> r == (c.(gotInfo := true), [])
    ensures completion == NoCompletion ==> r == (c, [])
    ensures completion.Notify? ==> r == (c, [completion.tag])
  {
    match completion
    case NoCompletion => (c, [])
    case MarkGotInfo => (c.(gotInfo := true), [])
    case Notify(t) => (c, [t])
  }

  /** What a serial report asks for once its header checks out. */
  datatype SerialKind = Ignored | Info(payload: seq<Byte>) | Data(flags: Byte, payload: seq<Byte>)

  /** The header checks of a serial report: at least 3 bytes, and a length
      byte that fits the report. A length byte of 0x80 or more is negative
      as a `char` (see README). */
  function ClassifySerial(buf: seq<Byte>): (k: SerialKind)
    requires |buf| > 0 && buf[0] == SerialReport
    ensures |buf| < 3 ==> k == Ignored
    ensures |buf| >= 3 && 3 + buf[2] > |buf| ==> k == Ignored
    ensures k.Info? ==> BitSet(buf[1], 7) && k.payload == buf[3..3 + buf[2]]
    ensures k.Data? ==> !BitSet(buf[1], 7) && k.flags == buf[1] && k.payload == buf[3..3 + buf[2]]
  {
    if |buf| < 3 then Ignored
    else
      var bytes := SignedChar(buf[2]);
      if 3 + bytes > |buf| || bytes < 0 then Ignored
      else if BitSet(buf[1], 7) then Info(buf[3..3 + bytes])
      else Data(buf[1], buf[3..3 + bytes])
  }

  /** `HandleUsbPacket`: the new connection and the tags of the callbacks
      run. Report 3 sets the input state; report 6 is a serial packet:
      device info is taken only while the info request is in flight; other
      packets are dropped while inactive, and otherwise joined until END,
      with HOST_CMD_FINISHED completing the command in flight. */
  function HandleUsbPacket(c: Connection, buf: seq<Byte>): (r: (Connection, seq<nat>))
  {
    if buf == [] then (c, [])
    else if buf[0] == InputStateReport then (c.(inputState := Le16(ByteAt(buf, 1), ByteAt(buf, 2))), [])
    else if buf[0] != SerialReport then (c, [])
    else
      match ClassifySerial(buf)
      case Ignored => (c, [])
      case Info(payload) =>
        if c.current.None? || !c.current.value.isDeviceInfo then (c, [])
        else Complete(c.(info := InfoFromPacket(Resize(payload, InfoPacketSize)), current := None), c.current.value.completion)
      case Data(flags, payload) =>
        if !c.active then (c, [])
        else
          var joined := c.currentReadBuffer + payload;
          var c1 :=
            if BitSet(flags, 0) then
              c.(readBuffers := if joined != [] then c.readBuffers + [joined] else c.readBuffers, currentReadBuffer := [])
            else c.(currentReadBuffer := joined);
          if !BitSet(flags, 1) then (c1, [])
          else if c.current.None? then (c1.(current := None), [])
          else Complete(c1.(current := None), c.current.value.completion)
  }

  /** The effect of one report, case by case. */
  lemma HandleUsbPacketCases(c: Connection, buf: seq<Byte>)
    ensures var r := HandleUsbPacket(c, buf);
      && (|buf| >= 3 && buf[0] == InputStateReport ==> r == (c.(inputState := buf[1] as int + 0x100 * buf[2] as int), []))
      && (|buf| > 0 && buf[0] == SerialReport && (|buf| < 3 || 3 + buf[2] > |buf|) ==> r == (c, []))
      && (|buf| > 0 && buf[0] == SerialReport && ClassifySerial(buf).Info? ==>
            if c.current.Some? && c.current.value.isDeviceInfo then
              && r.0.current == None && r.0.info == InfoFromPacket(Resize(buf[3..3 + buf[2]], InfoPacketSize))
              && r.0.readBuffers == c.readBuffers && r.0.currentReadBuffer == c.currentReadBuffer
              && (r.0.gotInfo <==> c.gotInfo || c.current.value.completion == MarkGotInfo)
            else r == (c, []))
      && (|buf| > 0 && buf[0] == SerialReport && ClassifySerial(buf).Data? && !c.active ==> r == (c, []))
  {
  }

  /** An incoming copy of an output report (report ID 6 instead of 5). */
  function AsIncoming(p: seq<Byte>): seq<Byte>
  {
    if p == [] then [SerialReport] else [SerialReport] + p[1..]
  }

  /** Feeds reports in order; the callbacks run are dropped. */
  function HandleAll(c: Connection, bufs: seq<seq<Byte>>): (r: Connection)
    ensures bufs == [] ==> r == c
    decreases |bufs|
  {
    if bufs == [] then c else HandleAll(HandleUsbPacket(c, bufs[0]).0, bufs[1..])
  }

  /** One data report without HOST_CMD_FINISHED on an active connection:
      its payload is joined, and END queues the joined bytes. */
  lemma DataReport(c: Connection, flags: Byte, payload: seq<Byte>)
    requires |payload| <= PayloadMax && c.active && !BitSet(flags, 7) && !BitSet(flags, 1)
    ensures var joined := c.currentReadBuffer + payload;
      HandleUsbPacket(c, AsIncoming(Report(flags, payload))).0 ==
        if BitSet(flags, 0) then c.(readBuffers := if joined != [] then c.readBuffers + [joined] else c.readBuffers, currentReadBuffer := [])
        else c.(currentReadBuffer := joined)
  {
    var incoming := AsIncoming(Report(flags, payload));
    assert incoming[1] == flags && incoming[2] == |payload|;
    assert incoming[3..3 + |payload|] == payload;
    assert ClassifySerial(incoming) == Data(flags, payload);
  }

  /** Feeding a first report, then the rest. */
  lemma HandleAllCons(c: Connection, b: seq<Byte>, rest: seq<seq<Byte>>)
    ensures HandleAll(c, [b] + rest) == HandleAll(HandleUsbPacket(c, b).0, rest)
  {
    assert ([b] + rest)[1..] == rest;
  }

  /** One step of the data-report join: the next report of a command on a
      connection holding the command's first i bytes. */
  lemma JoinStep(c: Connection, cmd: seq<Byte>, i: nat)
    requires i <= |cmd| && c.active && c.currentReadBuffer == cmd[..i]
    ensures var n := ChunkSize(cmd, i);
      var c1 := HandleUsbPacket(c, AsIncoming(Report(PacketFlags(i == 0, i + n == |cmd|), cmd[i..i + n]))).0;
      && (i + n < |cmd| ==> c1 == c.(currentReadBuffer := cmd[..i + n]))
      && (i + n == |cmd| ==> c1 == c.(readBuffers := c.readBuffers + (if cmd == [] then [] else [cmd]), currentReadBuffer := []))
  {
    hide *;
    var n := ChunkSize(cmd, i);
    var payload := cmd[i..i + n];
    var flags := PacketFlags(i == 0, i + n == |cmd|);
    DataReport(c, flags, payload);
    assert cmd[..i] + payload == cmd[..i + n];
    if i + n == |cmd| {
      assert cmd[..i + n] == cmd;
    }
  }

  /** The incoming copies of a first report and the rest. */
  lemma IncomingCons(p: seq<Byte>, rest: seq<seq<Byte>>)
    ensures Incoming([p] + rest) == [AsIncoming(p)] + Incoming(rest)
  {
  }

  /** Reports framed like a command's, from offset i, arriving on an active
      connection holding the command's first i bytes: the joined command is
      queued once the END report arrives, and nothing else changes. */
  lemma {:induction false} JoinFrom(c: Connection, cmd: seq<Byte>, i: nat)
    requires i <= |cmd| && c.active && c.currentReadBuffer == cmd[..i]
    ensures HandleAll(c, Incoming(FramePackets(cmd, i))) ==
      c.(readBuffers := c.readBuffers + (if cmd == [] then [] else [cmd]), currentReadBuffer := [])
    decreases |cmd| - i
  {
    hide *;
    var n := ChunkSize(cmd, i);
    var report := Report(PacketFlags(i == 0, i + n == |cmd|), cmd[i..i + n]);
    var rest := if i + n < |cmd| then FramePackets(cmd, i + n) else [];
    FramePacketsUnfold(cmd, i);
    JoinStep(c, cmd, i);
    var c1 := HandleUsbPacket(c, AsIncoming(report)).0;
    IncomingCons(report, rest);
    HandleAllCons(c, AsIncoming(report), Incoming(rest));
    if i + n < |cmd| {
      JoinFrom(c1, cmd, i + n);
    } else {
      assert Incoming(rest) == [];
    }
  }

  function Incoming(ps: seq<seq<Byte>>): (r: seq<seq<Byte>>)
    ensures |r| == |ps| && forall k :: 0 <= k < |ps| ==> r[k] == AsIncoming(ps[k])
  {
    seq(|ps|, k requires 0 <= k < |ps| => AsIncoming(ps[k]))
  }

  /** A command framed by `SendCommand` and received as serial reports on an
      active connection with nothing half-read is queued whole, as one read
      buffer; an empty command queues nothing. */
  lemma CommandRoundTrip(c: Connection, cmd: seq<Byte>)
    requires c.active && c.currentReadBuffer == []
    ensures HandleAll(c, Incoming(CommandPackets(cmd))) ==
      c.(readBuffers := c.readBuffers + (if cmd == [] then [] else [cmd]))
  {
    assert cmd[..0] == [];
    JoinFrom(c, cmd, 0);
  }

  /** `ReadPacket`: the oldest joined packet, first in first out. */
  function ReadPacket(c: Connection): (r: (Connection, Option<seq<Byte>>))
    ensures c.readBuffers == [] ==> r == (c, None)
    ensures c.readBuffers != [] ==> r.1 == Some(c.readBuffers[0]) && [c.readBuffers[0]] + r.0.readBuffers == c.readBuffers
    ensures r.0 == c.(readBuffers := r.0.readBuffers)
  {
    if c.readBuffers == [] then (c, None) else (c.(readBuffers := c.readBuffers[1..]), Some(c.readBuffers[0]))
  }

  /** `Close`: the handle, both queues, the command in flight and the input
      state are dropped and the flags cleared; the half-joined read buffer
      and the device info are kept, as in the source. */
  function Close(c: Connection): (r: Connection)
    ensures r.handle == None && !r.active && !r.gotInfo && r.readBuffers == [] && r.pending == []
    ensures r.current == None && r.inputState == 0
    ensures r.currentReadBuffer == c.currentReadBuffer && r.info == c.info
  {
    c.(handle := None, readBuffers := [], pending := [], active := false, gotInfo := false, current := None, inputState := 0)
  }

  function SetActive(c: Connection, active: bool): (r: Connection)
    ensures r.active == active && r == c.(active := active)
  {
    c.(active := active)
  }

  /** The exchange after `Open` on an idle connection: the info request is
      the first report written, and a reply while it is in flight fills in
      the device info and marks it received. */
  lemma OpenExchange(c: Connection, handle: nat, reply: seq<Byte>)
    requires c.pending == [] && c.current == None
    requires |reply| >= 3 && reply[0] == SerialReport && BitSet(reply[1], 7) && reply[2] < 0x80 && 3 + reply[2] <= |reply|
    ensures var sent := StartNextCommand(Open(c, handle));
      && sent.1 == [DeviceInfoRequest()]
      && var got := HandleUsbPacket(sent.0, reply).0;
      && IsConnectedWithDeviceInfo(got) && got.current == None && got.pending == []
      && got.info == InfoFromPacket(Resize(reply[3..3 + reply[2]], InfoPacketSize))
  {
    var sent := StartNextCommand(Open(c, handle));
    assert sent.0.current == Some(PendingCommand([DeviceInfoRequest()], MarkGotInfo, true));
    assert ClassifySerial(reply) == Info(reply[3..3 + reply[2]]);
  }
}
