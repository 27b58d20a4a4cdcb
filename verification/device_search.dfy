/**
 The SDK's device search (`SMXDeviceSearch`): which HID devices are ours,
 and the bookkeeping that remembers the device paths seen by the last scan
 so that only newly appeared paths are opened and probed. Enumerating the
 HID paths and opening a device are the operating system's; here the scan
 is a set of paths and the probe is a function from a path to the handle it
 would open, if the device there turns out to be a pad.
*/
module DeviceSearch {
  import opened Wrappers

  /** A device interface path. */
  type Path = string

  // ----- recognising a pad -----

  /** The USB vendor and product IDs a pad reports: the default Arduino
      Leonardo IDs. */
  const PadVendorId: nat := 0x2341
  const PadProductId: nat := 0x8037
  /** The product string that tells a pad from other devices with the same
      IDs. */
  const PadProductName: string := "StepManiaX"

  /** The HID attributes read from an opened device. */
  datatype HidAttributes = HidAttributes(vendorId: nat, productId: nat)

  /** The characters of a zero-terminated wide-character buffer up to its
      first NUL. */
  function CString(buffer: seq<char>): (r: seq<char>)
    ensures |r| <= |buffer| && r == buffer[..|r|]
    ensures forall i :: 0 <= i < |r| ==> r[i] != '\0'
    ensures |r| < |buffer| ==> buffer[|r|] == '\0'
  {
    if |buffer| == 0 || buffer[0] == '\0' then []
    else [buffer[0]] + CString(buffer[1..])
  }

  /** A NUL-free prefix that ends at a NUL or at the end of the buffer is the
      buffer's string. */
  lemma CStringUnique(buffer: seq<char>, s: seq<char>)
    requires |s| <= |buffer| && s == buffer[..|s|]
    requires forall i :: 0 <= i < |s| ==> s[i] != '\0'
    requires |s| < |buffer| ==> buffer[|s|] == '\0'
    ensures CString(buffer) == s
  {
    var r := CString(buffer);
    assert |r| == |s|;
  }

  /** `OpenUSBDevice` after the open: a device whose attributes or product
      string could not be read, whose IDs differ, or whose product string
      is not the pad's, is rejected; a pad gives back the opened handle. */
  function OpenUsbDevice(handle: Option<nat>, attributes: Option<HidAttributes>, productBuffer: Option<seq<char>>): (r: Option<nat>)
    ensures r.Some? ==> handle == Some(r.value)
    ensures r.Some? <==>
      && handle.Some?
      && attributes == Some(HidAttributes(PadVendorId, PadProductId))
      && productBuffer.Some? && CString(productBuffer.value) == PadProductName
  {
    if handle.None? then None
    else if attributes.None? then None
    else if attributes.value.vendorId != PadVendorId || attributes.value.productId != PadProductId then None
    else if productBuffer.None? then None
    else if CString(productBuffer.value) != PadProductName then None
    else handle
  }

  /** The product string is accepted exactly when the buffer spells the
      pad's name and then ends or holds a NUL. */
  lemma ProductNameAccepted(buffer: seq<char>)
    ensures CString(buffer) == PadProductName <==>
      && |buffer| >= |PadProductName|
      && buffer[..|PadProductName|] == PadProductName
      && (|buffer| == |PadProductName| || buffer[|PadProductName|] == '\0')
  {
    hide CString;
    var name := PadProductName;
    var n := |name|;
    if |buffer| >= n && buffer[..n] == name && (|buffer| == n || buffer[n] == '\0') {
      assert name == ['S', 't', 'e', 'p', 'M', 'a', 'n', 'i', 'a', 'X'];
      CStringUnique(buffer, name);
    }
  }

  // ----- the bookkeeping -----

  /** The search's memory: the paths of the last scan, and the handle opened
      for each path that held a pad. */
  datatype Search = Search(lastPaths: set<Path>, devices: map<Path, nat>)

  /** Every remembered device was seen by the last scan. */
  predicate Consistent(s: Search)
  {
    s.devices.Keys <= s.lastPaths
  }

  /** The search before any scan. */
  const Initial: Search := Search({}, map[])

  /** Every handle held for some path. */
  function Handles(devices: map<Path, nat>): (r: set<nat>)
    ensures forall h :: h in r <==> exists p :: p in devices && devices[p] == h
  {
    set p | p in devices :: devices[p]
  }

  /** `GetDevices` for one scan: entries for remembered paths missing from
      the scan are dropped, each path new since the last scan is probed and
      its handle recorded if it is a pad, the scan is remembered, and the
      handles of all entries are returned. */
  function GetDevices(s: Search, scan: set<Path>, probe: Path -> Option<nat>): (r: (Search, set<nat>))
    ensures r.0.lastPaths == scan
    ensures forall p :: p in r.0.devices <==>
      (p in s.devices && (p in s.lastPaths ==> p in scan)) || (p in scan && p !in s.lastPaths && probe(p).Some?)
    ensures forall p :: p in scan && p !in s.lastPaths && probe(p).Some? ==> r.0.devices[p] == probe(p).value
    ensures forall p :: p in s.devices && p in s.lastPaths && p in scan ==> r.0.devices[p] == s.devices[p]
    ensures forall h :: h in r.1 <==> exists p :: p in r.0.devices && r.0.devices[p] == h
  {
    var kept := map p | p in s.devices && (p in s.lastPaths ==> p in scan) :: s.devices[p];
    var added := map p | p in scan && p !in s.lastPaths && probe(p).Some? :: probe(p).value;
    var devices := kept + added;
    (Search(scan, devices), Handles(devices))
  }

  /** After a scan every remembered device is in the scan, so the search
      stays consistent. */
  lemma GetDevicesConsistent(s: Search, scan: set<Path>, probe: Path -> Option<nat>)
    requires Consistent(s)
    ensures Consistent(GetDevices(s, scan, probe).0)
    ensures GetDevices(s, scan, probe).0.devices.Keys <= scan
  {
  }

  /** Only paths new since the last scan are probed: two probes that agree on
      those paths give the same result. */
  lemma GetDevicesProbesOnlyNew(s: Search, scan: set<Path>, probe1: Path -> Option<nat>, probe2: Path -> Option<nat>)
    requires forall p :: p in scan && p !in s.lastPaths ==> probe1(p) == probe2(p)
    ensures GetDevices(s, scan, probe1) == GetDevices(s, scan, probe2)
  {
    var r1 := GetDevices(s, scan, probe1).0;
    var r2 := GetDevices(s, scan, probe2).0;
    assert r1.devices.Keys == r2.devices.Keys;
    assert r1.devices == r2.devices;
  }

  /** Scanning the same paths again changes nothing, whatever the probe
      would say now: a rejected device is not probed again, and a pad that
      stays connected keeps its handle. */
  lemma GetDevicesStable(s: Search, scan: set<Path>, probe: Path -> Option<nat>, later: Path -> Option<nat>)
    requires Consistent(s)
    ensures var s1 := GetDevices(s, scan, probe).0;
      GetDevices(s1, scan, later) == GetDevices(s1, scan, probe) && GetDevices(s1, scan, later).0 == s1
  {
    var s1 := GetDevices(s, scan, probe).0;
    GetDevicesProbesOnlyNew(s1, scan, later, probe);
    var s2 := GetDevices(s1, scan, later).0;
    assert s2.devices.Keys == s1.devices.Keys;
    assert s2.devices == s1.devices;
  }

  /** `DeviceWasClosed`: the entries holding the closed handle are dropped
      and their paths forgotten, so the next scan probes those paths again;
      every other entry and path is kept. */
  function DeviceWasClosed(s: Search, h: nat): (r: Search)
    ensures h !in Handles(r.devices)
    ensures forall p :: p in r.devices <==> p in s.devices && s.devices[p] != h
    ensures forall p :: p in r.devices ==> r.devices[p] == s.devices[p]
    ensures forall p :: p in r.lastPaths <==> p in s.lastPaths && !(p in s.devices && s.devices[p] == h)
  {
    var closed := set p | p in s.devices && s.devices[p] == h;
    Search(s.lastPaths - closed, map p | p in s.devices && s.devices[p] != h :: s.devices[p])
  }

  /** Closing keeps the search consistent. */
  lemma DeviceWasClosedConsistent(s: Search, h: nat)
    requires Consistent(s)
    ensures Consistent(DeviceWasClosed(s, h))
  {
  }

  /** A closed pad whose path is still present is probed again by the next
      scan, and the new handle recorded. */
  lemma ReopenedAfterClose(s: Search, h: nat, scan: set<Path>, probe: Path -> Option<nat>, p: Path)
    requires Consistent(s) && p in s.devices && s.devices[p] == h
    requires p in scan && probe(p).Some?
    ensures GetDevices(DeviceWasClosed(s, h), scan, probe).0.devices[p] == probe(p).value
  {
  }
}
