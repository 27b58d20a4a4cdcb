/**
 The SDK's exported entry points (`SMX.cpp`) reduced to what they decide:
 which light-buffer sizes they accept, how an accepted buffer is split
 between the two pads, and that starting the SDK a second time keeps the
 manager it already has. Logging of a rejected size is left out; a rejected
 call changes nothing.
*/
module Api {
  import opened Wrappers
  import opened Bytes
  import Manager

  /** Bytes of light data for one pad with 16 lights per panel. */
  const BytesPerPad16: nat := 9 * 16 * 3
  /** Bytes of light data for one pad with 25 lights per panel. */
  const BytesPerPad25: nat := 9 * 25 * 3
  /** Bytes of platform-strip light data for one pad: 44 lights. */
  const PlatformBytesPerPad: nat := 44 * 3

  /** The two per-pad strings of a lights buffer, pad 0 first, or None for a
      size the SDK rejects. */
  function SplitLights(data: seq<Byte>): (r: Option<(seq<Byte>, seq<Byte>)>)
    ensures r.Some? <==> |data| == 2 * BytesPerPad16 || |data| == 2 * BytesPerPad25
    ensures r.Some? ==> r.value.0 + r.value.1 == data && |r.value.0| == |r.value.1|
  {
    if |data| == 2 * BytesPerPad16 then Some((data[..BytesPerPad16], data[BytesPerPad16..]))
    else if |data| == 2 * BytesPerPad25 then Some((data[..BytesPerPad25], data[BytesPerPad25..]))
    else None
  }

  /** Splitting undoes joining two equal halves of an accepted size. */
  lemma SplitLightsOfJoin(a: seq<Byte>, b: seq<Byte>)
    requires |a| == |b| && (|a| == BytesPerPad16 || |a| == BytesPerPad25)
    ensures SplitLights(a + b) == Some((a, b))
  {
    var r := SplitLights(a + b);
    assert r.value.0 == (a + b)[..|a|] == a;
    assert r.value.1 == (a + b)[|a|..] == b;
  }

  /** The split agrees with the manager's routing of a 16-light buffer: a
      byte lands in pad 0's string exactly when the manager sends it to
      pad 0, at the same offset within the pad. */
  lemma SplitAgreesWithRouting(data: seq<Byte>, k: nat)
    requires |data| == Manager.LightsSize && k < |data|
    ensures SplitLights(data).Some?
    ensures var halves := SplitLights(data).value;
      && (Manager.LightsPad(k) == 0 <==> k < |halves.0|)
      && (k < |halves.0| ==> halves.0[k] == data[k])
      && (k >= |halves.0| ==> halves.1[k - |halves.0|] == data[k])
  {
    var halves := SplitLights(data).value;
    assert |halves.0| == BytesPerPad16 == Manager.PanelsPerPad * Manager.PanelLightBytes;
    if k < BytesPerPad16 {
      assert k / Manager.PanelLightBytes < Manager.PanelsPerPad;
    } else {
      assert k / Manager.PanelLightBytes >= Manager.PanelsPerPad;
      assert halves.1[k - |halves.0|] == (halves.0 + halves.1)[k];
    }
  }

  /** `SMX_SetLights2`: an accepted buffer is handed to the manager as its two
      per-pad strings; any other size changes nothing. The manager takes
      only 16-light data, so a 25-light buffer is accepted here and then
      dropped by the manager. */
  function SetLights2(m: Manager.Manager, data: seq<Byte>, now: int, gap: nat, scale: Byte -> Byte): (r: Manager.Manager)
    requires Manager.ManagerShaped(m)
    ensures Manager.ManagerShaped(r) && r.slots == m.slots
    ensures |data| == Manager.LightsSize ==> r == Manager.SetLights(m, data, now, gap, scale)
    ensures |data| != Manager.LightsSize ==> r == m
  {
    match SplitLights(data)
    case None => m
    case Some(halves) => Manager.SetLights(m, halves.0 + halves.1, now, gap, scale)
  }

  /** `SMX_SetLights`: the caller passes an 864-byte array, and exactly
      those bytes are forwarded with the 16-light size, which is always
      accepted. */
  function SetLights(m: Manager.Manager, lightData: seq<Byte>, now: int, gap: nat, scale: Byte -> Byte): (r: Manager.Manager)
    requires Manager.ManagerShaped(m) && |lightData| >= Manager.LightsSize
    ensures Manager.ManagerShaped(r) && r.slots == m.slots
    ensures |r.lights| >= 2
    ensures r == Manager.SetLights(m, lightData[..Manager.LightsSize], now, gap, scale)
  {
    SetLights2(m, lightData[..Manager.LightsSize], now, gap, scale)
  }

  /** Later bytes beyond the 864 the API reads make no difference. */
  lemma SetLightsReadsFixedPrefix(m: Manager.Manager, d1: seq<Byte>, d2: seq<Byte>, now: int, gap: nat, scale: Byte -> Byte)
    requires Manager.ManagerShaped(m) && |d1| >= Manager.LightsSize && |d2| >= Manager.LightsSize
    requires d1[..Manager.LightsSize] == d2[..Manager.LightsSize]
    ensures SetLights(m, d1, now, gap, scale) == SetLights(m, d2, now, gap, scale)
  {
  }

  /** `SMX_SetPlatformLights`: only 264 bytes are accepted, split into two
      132-byte halves, pad 0 first. */
  function SplitPlatformLights(data: seq<Byte>): (r: Option<(seq<Byte>, seq<Byte>)>)
    ensures r.Some? <==> |data| == 2 * PlatformBytesPerPad
    ensures r.Some? ==> r.value.0 + r.value.1 == data && |r.value.0| == PlatformBytesPerPad == |r.value.1|
  {
    if |data| != 2 * PlatformBytesPerPad then None
    else Some((data[..PlatformBytesPerPad], data[PlatformBytesPerPad..]))
  }

  /** Splitting undoes joining two 132-byte halves. */
  lemma SplitPlatformLightsOfJoin(a: seq<Byte>, b: seq<Byte>)
    requires |a| == PlatformBytesPerPad == |b|
    ensures SplitPlatformLights(a + b) == Some((a, b))
  {
    var r := SplitPlatformLights(a + b);
    assert r.value.0 == (a + b)[..|a|] == a;
    assert r.value.1 == (a + b)[|a|..] == b;
  }

  // ----- start and stop -----

  /** The SDK's global manager: none, or the one created by the first
      start together with the update callback it was given. */
  datatype Sdk = Stopped | Running(manager: Manager.Manager, callback: nat)

  /** `SMX_Start`: a started SDK keeps its manager and callback. */
  function Start(s: Sdk, initial: Manager.Manager, callback: nat): (r: Sdk)
    ensures r.Running?
    ensures s.Running? ==> r == s
    ensures s.Stopped? ==> r.manager == initial && r.callback == callback
  {
    if s.Running? then s else Running(initial, callback)
  }

  /** `SMX_Stop` releases the manager. */
  function Stop(s: Sdk): (r: Sdk)
    ensures r.Stopped?
  {
    Stopped
  }

  /** Starting twice is starting once: the second call's manager and
      callback are ignored. */
  lemma StartIdempotent(s: Sdk, m1: Manager.Manager, c1: nat, m2: Manager.Manager, c2: nat)
    ensures Start(Start(s, m1, c1), m2, c2) == Start(s, m1, c1)
  {
  }

  /** After a stop, a start takes effect again. */
  lemma StartAfterStop(s: Sdk, m: Manager.Manager, c: nat)
    ensures Start(Stop(s), m, c) == Running(m, c)
  {
  }
}
