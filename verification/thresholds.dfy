/**
 Which (panel, sensor) pairs each threshold slider of the configuration
 tool controls, and the re-sync that copies each slider's value to every
 sensor it controls. Priority: the custom list takes its sensors from every
 other slider, and the inner and outer sliders take theirs from the
 direction sliders.
 */
module Thresholds {
  import opened Wrappers
  import opened ConfigRecord
  import opened ConfigHelpers

  /** A sensor of a panel; entries read from settings may be out of range. */
  datatype PanelAndSensor = PanelAndSensor(panel: int, sensor: int)

  const SensorLeft: int := 0
  const SensorRight: int := 1
  const SensorUp: int := 2
  const SensorDown: int := 3

  /** The threshold sliders. The nine direction sliders are named after
      their panel; Cardinal and Corner are the combined sliders of simple
      mode. */
  datatype Slider =
    | UpLeft | Up | UpRight | Left | Center | Right | DownLeft | Down | DownRight
    | Cardinal | Corner
    | InnerSensors | OuterSensors | CustomSensors

  /** `thresholdSliderNames`, in the order the re-sync visits them. */
  const SliderOrder: seq<Slider> := [
    UpLeft, Up, UpRight, Left, Center, Right, DownLeft, Down, DownRight,
    Cardinal, Corner, InnerSensors, OuterSensors, CustomSensors]

  predicate IsSpecial(s: Slider)
  {
    s.InnerSensors? || s.OuterSensors? || s.CustomSensors?
  }

  /** `panelNameToIndex`: the panel a direction slider writes; Cardinal
      writes down (7) and Corner up-right (2). */
  function PanelIndex(s: Slider): (i: int)
    requires !IsSpecial(s)
    ensures 0 <= i < PanelCount
  {
    match s
    case UpLeft => 0
    case Up => 1
    case UpRight => 2
    case Left => 3
    case Center => 4
    case Right => 5
    case DownLeft => 6
    case Down => 7
    case DownRight => 8
    case Cardinal => 7
    case Corner => 2
  }

  /** The application settings the sliders depend on; the custom list is
      the one already decoded from settings. */
  datatype Settings = Settings(
    advancedMode: bool,
    useInnerSensorThresholds: bool,
    useOuterSensorThresholds: bool,
    customSensors: seq<PanelAndSensor>)

  /** The inner sensors: the sensor of panels 1, 3, 5 and 7 nearest the centre. */
  const InnerSensorList: seq<PanelAndSensor> := [
    PanelAndSensor(1, SensorDown), PanelAndSensor(3, SensorRight),
    PanelAndSensor(5, SensorLeft), PanelAndSensor(7, SensorUp)]

  /** The outer sensors: the opposite sensor of the same panels. */
  const OuterSensorList: seq<PanelAndSensor> := [
    PanelAndSensor(1, SensorUp), PanelAndSensor(3, SensorLeft),
    PanelAndSensor(5, SensorRight), PanelAndSensor(7, SensorDown)]

  /** The panels that mirror a panel under unified thresholds. The function
      that supplies them (`ConfigPresets.GetPanelsToSyncUnifiedThresholds`)
      is not part of this model; this follows what `SyncUnifiedThresholds`
      copies: down to left and right, up-right to the other corners. */
  function PanelsToSyncUnifiedThresholds(panel: int): (r: seq<int>)
    ensures forall i :: 0 <= i < |r| ==> 0 <= r[i] < PanelCount && r[i] != panel
  {
    if panel == 7 then [3, 5]
    else if panel == 2 then [0, 6, 8]
    else []
  }

  /** All four sensors of each panel, panel by panel. */
  function AllSensorsOf(panels: seq<int>): (r: seq<PanelAndSensor>)
    ensures |r| == SensorsPerPanel * |panels|
    ensures forall x :: x in r <==> x.panel in panels && 0 <= x.sensor < SensorsPerPanel
  {
    if panels == [] then []
    else
      var p := panels[0];
      var r := [PanelAndSensor(p, 0), PanelAndSensor(p, 1), PanelAndSensor(p, 2), PanelAndSensor(p, 3)]
        + AllSensorsOf(panels[1..]);
      assert forall x: PanelAndSensor :: x.panel in panels <==> x.panel == p || x.panel in panels[1..];
      r
  }

  predicate NoDuplicates<T(==)>(s: seq<T>)
  {
    forall i, j :: 0 <= i < j < |s| ==> s[i] != s[j]
  }

  /** Distinct panels give distinct sensors. */
  lemma {:induction false} AllSensorsDistinct(panels: seq<int>)
    requires NoDuplicates(panels)
    ensures NoDuplicates(AllSensorsOf(panels))
  {
    if panels != [] {
      var tail := panels[1..];
      assert NoDuplicates(tail) by {
        forall i, j | 0 <= i < j < |tail| ensures tail[i] != tail[j] {
          assert tail[i] == panels[i + 1] && tail[j] == panels[j + 1];
        }
      }
      AllSensorsDistinct(tail);
      assert panels[0] !in tail by {
        forall i | 0 <= i < |tail| ensures tail[i] != panels[0] {
          assert tail[i] == panels[i + 1];
        }
      }
      var head := [PanelAndSensor(panels[0], 0), PanelAndSensor(panels[0], 1), PanelAndSensor(panels[0], 2), PanelAndSensor(panels[0], 3)];
      var rest := AllSensorsOf(tail);
      assert AllSensorsOf(panels) == head + rest;
      NoDuplicatesConcat(head, rest);
    }
  }

  /** Two lists without duplicates and without common entries join into one. */
  lemma NoDuplicatesConcat<T>(a: seq<T>, b: seq<T>)
    requires NoDuplicates(a) && NoDuplicates(b) && forall x :: x in a ==> x !in b
    ensures NoDuplicates(a + b)
  {
    forall i, j | 0 <= i < j < |a + b| ensures (a + b)[i] != (a + b)[j] {
      if j < |a| {
        assert (a + b)[i] == a[i] && (a + b)[j] == a[j];
      } else if i < |a| {
        assert (a + b)[i] == a[i] && a[i] in a && (a + b)[j] == b[j - |a|];
      } else {
        assert (a + b)[i] == b[i - |a|] && (a + b)[j] == b[j - |a|];
      }
    }
  }

  /** `GetControlledSensorsForSliderTypeInternal`: what a slider controls
      before higher-priority sliders take their sensors. Unless
      `includeOverridden` is set, a switched-off inner or outer slider
      controls nothing. In advanced mode the combined sliders control
      nothing; in simple mode only up, center, cardinal and corner control
      anything, and they also control the panels mirrored from theirs. */
  function ControlledInternal(s: Slider, st: Settings, includeOverridden: bool): (r: seq<PanelAndSensor>)
  {
    if !includeOverridden && s == InnerSensors && !st.useInnerSensorThresholds then []
    else if !includeOverridden && s == OuterSensors && !st.useOuterSensorThresholds then []
    else if s == CustomSensors then st.customSensors
    else if s == InnerSensors then InnerSensorList
    else if s == OuterSensors then OuterSensorList
    else if st.advancedMode && (s == Cardinal || s == Corner) then []
    else if !st.advancedMode && s != Up && s != Center && s != Cardinal && s != Corner then []
    else
      var ours := PanelIndex(s);
      AllSensorsOf([ours] + (if st.advancedMode then [] else PanelsToSyncUnifiedThresholds(ours)))
  }

  /** `List.IndexOf`: the position of the first entry equal to x. */
  function IndexOf<T(==)>(t: seq<T>, x: T): (i: nat)
    requires x in t
    ensures i < |t| && t[i] == x && x !in t[..i]
  {
    if t[0] == x then 0
    else
      var i := IndexOf(t[1..], x);
      assert t[..i + 1] == [t[0]] + t[1..][..i];
      i + 1
  }

  /** `List.Remove`: drops the first entry equal to x, if there is one. */
  function RemoveFirst<T(==)>(t: seq<T>, x: T): (r: seq<T>)
  {
    if x in t then t[..IndexOf(t, x)] + t[IndexOf(t, x) + 1..] else t
  }

  /** `RemoveFromSensorList`: one `Remove` per entry of `toRemove`, in order. */
  function RemoveEach<T(==)>(target: seq<T>, toRemove: seq<T>): (r: seq<T>)
    decreases |toRemove|
  {
    if toRemove == [] then target else RemoveEach(RemoveFirst(target, toRemove[0]), toRemove[1..])
  }

  /** On a list without duplicates, removing an entry removes exactly that
      entry and keeps the list free of duplicates. */
  lemma RemoveFirstMembers<T>(t: seq<T>, x: T)
    requires NoDuplicates(t)
    ensures NoDuplicates(RemoveFirst(t, x))
    ensures forall y :: y in RemoveFirst(t, x) <==> y in t && y != x
  {
    var r := RemoveFirst(t, x);
    if x in t {
      var i := IndexOf(t, x);
      forall y ensures y in r <==> y in t && y != x {
        if y in t && y != x {
          var k :| 0 <= k < |t| && t[k] == y;
          if k < i { assert r[k] == y; } else { assert k > i && r[k - 1] == y; }
        }
        if y in r {
          var k :| 0 <= k < |r| && r[k] == y;
          if k < i { assert t[k] == y; } else { assert t[k + 1] == y; }
        }
      }
      forall a, b | 0 <= a < b < |r| ensures r[a] != r[b] {
        var a' := if a < i then a else a + 1;
        var b' := if b < i then b else b + 1;
        assert r[a] == t[a'] && r[b] == t[b'];
      }
    }
  }

  /** On a list without duplicates, `RemoveFromSensorList` keeps exactly the
      entries not listed for removal. */
  lemma {:induction false} RemoveEachMembers<T>(target: seq<T>, toRemove: seq<T>)
    requires NoDuplicates(target)
    ensures NoDuplicates(RemoveEach(target, toRemove))
    ensures forall y :: y in RemoveEach(target, toRemove) <==> y in target && y !in toRemove
    decreases |toRemove|
  {
    if toRemove != [] {
      RemoveFirstMembers(target, toRemove[0]);
      RemoveEachMembers(RemoveFirst(target, toRemove[0]), toRemove[1..]);
      assert forall y :: y in toRemove <==> y == toRemove[0] || y in toRemove[1..];
    }
  }

  /** `GetControlledSensorsForSliderType`: unless `includeOverridden` is
      set, the inner and outer sliders lose the custom sensors, and the
      direction sliders lose the inner, outer and custom sensors. */
  function Controlled(s: Slider, st: Settings, includeOverridden: bool): (r: seq<PanelAndSensor>)
  {
    var result := ControlledInternal(s, st, includeOverridden);
    if includeOverridden then result
    else if s == InnerSensors || s == OuterSensors then
      RemoveEach(result, ControlledInternal(CustomSensors, st, false))
    else if s != CustomSensors then
      var r1 := RemoveEach(result, ControlledInternal(InnerSensors, st, false));
      var r2 := RemoveEach(r1, ControlledInternal(OuterSensors, st, false));
      RemoveEach(r2, ControlledInternal(CustomSensors, st, false))
    else result
  }

  /** A sensor a slider actually controls. */
  predicate Owns(s: Slider, st: Settings, x: PanelAndSensor)
  {
    x in Controlled(s, st, false)
  }

  /** The sensors the inner slider claims (none when it is switched off). */
  function ActiveInner(st: Settings): seq<PanelAndSensor>
  {
    ControlledInternal(InnerSensors, st, false)
  }

  function ActiveOuter(st: Settings): seq<PanelAndSensor>
  {
    ControlledInternal(OuterSensors, st, false)
  }

  lemma InnerOuterDistinct()
    ensures NoDuplicates(InnerSensorList) && NoDuplicates(OuterSensorList)
  {
  }

  /** The inner and outer sets are four sensors each on panels 1, 3, 5 and
      7, and no sensor is in both. */
  lemma InnerOuterDisjoint()
    ensures |InnerSensorList| == 4 && |OuterSensorList| == 4
    ensures forall x :: x in InnerSensorList ==> x.panel in {1, 3, 5, 7} && 0 <= x.sensor < SensorsPerPanel
    ensures forall x :: x in OuterSensorList ==> x.panel in {1, 3, 5, 7} && 0 <= x.sensor < SensorsPerPanel
    ensures forall x :: x in InnerSensorList ==> x !in OuterSensorList
  {
  }

  /** The internal list of a non-custom slider has no duplicates. */
  lemma InternalDistinct(s: Slider, st: Settings, includeOverridden: bool)
    requires s != CustomSensors
    ensures NoDuplicates(ControlledInternal(s, st, includeOverridden))
  {
    if !IsSpecial(s) {
      var ours := PanelIndex(s);
      var panels := [ours] + (if st.advancedMode then [] else PanelsToSyncUnifiedThresholds(ours));
      assert NoDuplicates(panels) by {
        if !st.advancedMode {
          assert ours == 7 ==> panels == [7, 3, 5];
          assert ours == 2 ==> panels == [2, 0, 6, 8];
          assert ours != 7 && ours != 2 ==> panels == [ours];
        }
      }
      AllSensorsDistinct(panels);
    }
  }

  /** Priority among the sliders, when overridden sensors are left out: the
      custom slider keeps its whole list; the inner and outer sliders keep
      the sensors of their set that are not custom; a direction slider keeps
      the sensors of its panels that no active inner, outer or custom slider
      claims. */
  lemma Priority(s: Slider, st: Settings, x: PanelAndSensor)
    ensures Controlled(CustomSensors, st, false) == st.customSensors
    ensures s == InnerSensors || s == OuterSensors ==>
      (Owns(s, st, x) <==> x in ControlledInternal(s, st, false) && x !in st.customSensors)
    ensures !IsSpecial(s) ==>
      (Owns(s, st, x) <==>
        x in ControlledInternal(s, st, false) && x !in ActiveInner(st) && x !in ActiveOuter(st) && x !in st.customSensors)
  {
    if s == InnerSensors || s == OuterSensors {
      PriorityInnerOuter(s, st, x);
    } else if !IsSpecial(s) {
      PriorityDirection(s, st, x);
    }
  }

  /** The inner and outer sliders give way to the custom sensors only. */
  lemma PriorityInnerOuter(s: Slider, st: Settings, x: PanelAndSensor)
    requires s == InnerSensors || s == OuterSensors
    ensures Owns(s, st, x) <==> x in ControlledInternal(s, st, false) && x !in st.customSensors
  {
    var result := ControlledInternal(s, st, false);
    InternalDistinct(s, st, false);
    RemoveEachMembers(result, st.customSensors);
  }

  /** A direction slider gives way to the inner, outer and custom sensors. */
  lemma PriorityDirection(s: Slider, st: Settings, x: PanelAndSensor)
    requires !IsSpecial(s)
    ensures Owns(s, st, x) <==>
      x in ControlledInternal(s, st, false) && x !in ActiveInner(st) && x !in ActiveOuter(st) && x !in st.customSensors
  {
    var result := ControlledInternal(s, st, false);
    InternalDistinct(s, st, false);
    RemoveEachMembers(result, ActiveInner(st));
    var r1 := RemoveEach(result, ActiveInner(st));
    RemoveEachMembers(r1, ActiveOuter(st));
    var r2 := RemoveEach(r1, ActiveOuter(st));
    RemoveEachMembers(r2, st.customSensors);
  }

  /** The switches and the mode decide which sliders control anything:
      a switched-off inner or outer slider controls nothing unless
      overridden sensors are asked for; in advanced mode the combined
      sliders control nothing; in simple mode only up, center, cardinal and
      corner control anything. */
  lemma SliderReach(s: Slider, st: Settings, includeOverridden: bool)
    ensures s == InnerSensors ==>
      ControlledInternal(s, st, includeOverridden) == (if includeOverridden || st.useInnerSensorThresholds then InnerSensorList else [])
    ensures s == OuterSensors ==>
      ControlledInternal(s, st, includeOverridden) == (if includeOverridden || st.useOuterSensorThresholds then OuterSensorList else [])
    ensures st.advancedMode && (s == Cardinal || s == Corner) ==> Controlled(s, st, includeOverridden) == []
    ensures !st.advancedMode && !IsSpecial(s) && s !in {Up, Center, Cardinal, Corner} ==> Controlled(s, st, includeOverridden) == []
  {
    if !IsSpecial(s) && ControlledInternal(s, st, includeOverridden) == [] {
      RemoveEachEmpty(ActiveInner(st));
      RemoveEachEmpty(ActiveOuter(st));
      RemoveEachEmpty(st.customSensors);
    }
  }

  /** A panel a direction slider reaches contributes all four of its
      sensors. */
  lemma WholePanels(s: Slider, st: Settings, includeOverridden: bool)
    requires !IsSpecial(s)
    ensures forall x, k :: x in ControlledInternal(s, st, includeOverridden) && 0 <= k < SensorsPerPanel ==>
      PanelAndSensor(x.panel, k) in ControlledInternal(s, st, includeOverridden)
  {
  }

  lemma {:induction false} RemoveEachEmpty<T>(toRemove: seq<T>)
    ensures RemoveEach([], toRemove) == []
    decreases |toRemove|
  {
    if toRemove != [] {
      RemoveEachEmpty(toRemove[1..]);
    }
  }

  /** The panels a direction slider reaches. */
  lemma DirectionPanels(s: Slider, st: Settings, x: PanelAndSensor)
    requires !IsSpecial(s) && x in ControlledInternal(s, st, false)
    ensures 0 <= x.sensor < SensorsPerPanel
    ensures st.advancedMode ==> x.panel == PanelIndex(s) && s != Cardinal && s != Corner
    ensures !st.advancedMode ==>
      (s == Up && x.panel == 1) || (s == Center && x.panel == 4)
      || (s == Cardinal && x.panel in {7, 3, 5}) || (s == Corner && x.panel in {2, 0, 6, 8})
  {
    if st.advancedMode {
      DirectionPanelsAdvanced(s, st, x);
    } else {
      DirectionPanelsSimple(s, st, x);
    }
  }

  /** In advanced mode a direction slider reaches its own panel only. */
  lemma DirectionPanelsAdvanced(s: Slider, st: Settings, x: PanelAndSensor)
    requires !IsSpecial(s) && st.advancedMode && x in ControlledInternal(s, st, false)
    ensures 0 <= x.sensor < SensorsPerPanel && x.panel == PanelIndex(s) && s != Cardinal && s != Corner
  {
    assert ControlledInternal(s, st, false) == AllSensorsOf([PanelIndex(s)]);
  }

  /** In simple mode up and center reach their own panel, cardinal and
      corner theirs and the mirrored ones. */
  lemma DirectionPanelsSimple(s: Slider, st: Settings, x: PanelAndSensor)
    requires !IsSpecial(s) && !st.advancedMode && x in ControlledInternal(s, st, false)
    ensures 0 <= x.sensor < SensorsPerPanel
    ensures (s == Up && x.panel == 1) || (s == Center && x.panel == 4)
      || (s == Cardinal && x.panel in {7, 3, 5}) || (s == Corner && x.panel in {2, 0, 6, 8})
  {
    hide AllSensorsOf;
    var panels := [PanelIndex(s)] + PanelsToSyncUnifiedThresholds(PanelIndex(s));
    if s == Up || s == Center || s == Cardinal || s == Corner {
      assert ControlledInternal(s, st, false) == AllSensorsOf(panels);
      assert x.panel in panels;
      if s == Up {
        assert panels == [1];
      } else if s == Center {
        assert panels == [4];
      } else if s == Cardinal {
        assert panels == [7, 3, 5];
      } else {
        assert panels == [2, 0, 6, 8];
      }
    }
  }

  /** Two different sliders never control the same sensor. */
  lemma OwnersDisjoint(s1: Slider, s2: Slider, st: Settings, x: PanelAndSensor)
    requires s1 != s2 && Owns(s1, st, x)
    ensures !Owns(s2, st, x)
  {
    hide Controlled;
    Priority(s1, st, x);
    Priority(s2, st, x);
    if !IsSpecial(s1) && !IsSpecial(s2) {
      hide Owns, Controlled;
      DirectionsDisjoint(s1, s2, st, x);
    } else if {s1, s2} == {InnerSensors, OuterSensors} {
      InnerOuterDisjoint();
      assert ActiveInner(st) == [] || ActiveInner(st) == InnerSensorList;
      assert ActiveOuter(st) == [] || ActiveOuter(st) == OuterSensorList;
    }
  }

  /** Two different direction sliders reach different panels. */
  lemma DirectionsDisjoint(s1: Slider, s2: Slider, st: Settings, x: PanelAndSensor)
    requires s1 != s2 && !IsSpecial(s1) && !IsSpecial(s2)
    requires x in ControlledInternal(s1, st, false)
    ensures x !in ControlledInternal(s2, st, false)
  {
    DirectionPanels(s1, st, x);
    if x in ControlledInternal(s2, st, false) {
      DirectionPanels(s2, st, x);
      hide ControlledInternal;
      assert false;
    }
  }

  // ----- the re-sync -----

  predicate InRange(x: PanelAndSensor)
  {
    0 <= x.panel < PanelCount && 0 <= x.sensor < SensorsPerPanel
  }

  /** The FSR low and high thresholds of one sensor. */
  function Cell(c: Config, x: PanelAndSensor): (nat, nat)
    requires Shaped(c) && InRange(x)
  {
    (c.panels[x.panel].fsrLow[x.sensor], c.panels[x.panel].fsrHigh[x.sensor])
  }

  /** The two records differ at most in FSR thresholds. */
  predicate SameButFsr(c: Config, r: Config)
    requires Shaped(c)
  {
    && Shaped(r) && r == c.(panels := r.panels)
    && forall p :: 0 <= p < PanelCount ==>
         r.panels[p] == c.panels[p].(fsrLow := r.panels[p].fsrLow, fsrHigh := r.panels[p].fsrHigh)
  }

  /** Writes one sensor's low and high thresholds. */
  function SetCell(c: Config, x: PanelAndSensor, v: (nat, nat)): (r: Config)
    requires Shaped(c) && InRange(x)
    ensures SameButFsr(c, r)
    ensures forall y :: InRange(y) ==> Cell(r, y) == (if y == x then v else Cell(c, y))
  {
    var p := c.panels[x.panel];
    var p' := p.(fsrLow := p.fsrLow[x.sensor := v.0], fsrHigh := p.fsrHigh[x.sensor := v.1]);
    c.(panels := c.panels[x.panel := p'])
  }

  /** The inner loop of the re-sync: each sensor in turn takes the current
      thresholds of `first`. An out-of-range entry raises (None). */
  function CopyFromFirst(c: Config, first: PanelAndSensor, sensors: seq<PanelAndSensor>): (r: Option<Config>)
    requires Shaped(c)
    ensures r.Some? ==> SameButFsr(c, r.value)
    decreases |sensors|
  {
    if sensors == [] then Some(c)
    else if !InRange(sensors[0]) || !InRange(first) then None
    else CopyFromFirst(SetCell(c, sensors[0], Cell(c, first)), first, sensors[1..])
  }

  /** Every listed sensor takes `v`; every other one keeps its value. */
  ghost predicate Copied(c: Config, r: Config, sensors: seq<PanelAndSensor>, v: (nat, nat))
    requires Shaped(c)
  {
    SameButFsr(c, r) && forall y :: InRange(y) ==> Cell(r, y) == (if y in sensors then v else Cell(c, y))
  }

  /** Re-reading `first` on every step reads the value it had at the start,
      because the only write to it writes that same value; the loop fails
      exactly when some entry is out of range. */
  lemma {:induction false} CopyFromFirstCopies(c: Config, first: PanelAndSensor, sensors: seq<PanelAndSensor>)
    requires Shaped(c) && InRange(first)
    ensures CopyFromFirst(c, first, sensors).None? <==> exists i :: 0 <= i < |sensors| && !InRange(sensors[i])
    ensures CopyFromFirst(c, first, sensors).Some? ==> Copied(c, CopyFromFirst(c, first, sensors).value, sensors, Cell(c, first))
    decreases |sensors|
  {
    if sensors != [] && InRange(sensors[0]) {
      var c1 := SetCell(c, sensors[0], Cell(c, first));
      assert Cell(c1, first) == Cell(c, first);
      CopyFromFirstCopies(c1, first, sensors[1..]);
      assert forall i :: 1 <= i < |sensors| ==> sensors[i] == sensors[1..][i - 1];
      assert forall y :: y in sensors <==> y == sensors[0] || y in sensors[1..];
    }
  }

  /** One slider's share of the re-sync: nothing when it controls nothing,
      otherwise its sensors copy its first sensor. */
  function SyncSlider(c: Config, sensors: seq<PanelAndSensor>): (r: Option<Config>)
    requires Shaped(c)
    ensures r.Some? ==> SameButFsr(c, r.value)
  {
    if sensors == [] then Some(c) else CopyFromFirst(c, sensors[0], sensors)
  }

  /** The sliders in order, stopping at the first failure. */
  function SyncSliders(c: Config, st: Settings, sliders: seq<Slider>): (r: Option<Config>)
    requires Shaped(c)
    ensures r.Some? ==> SameButFsr(c, r.value)
    decreases |sliders|
  {
    if sliders == [] then Some(c)
    else
      match SyncSlider(c, Controlled(sliders[0], st, false))
      case None => None
      case Some(c1) => SyncSliders(c1, st, sliders[1..])
  }

  /** `SyncSliderThresholdsForConfig`: nothing happens to a record without
      FSR sensors; otherwise every slider in turn copies its first sensor's
      thresholds to the other sensors it controls. A custom entry outside
      the panel and sensor ranges raises (None). */
  function SyncSliderThresholdsForConfig(c: Config, st: Settings): (r: Option<Config>)
    requires Shaped(c)
    ensures !Fsr(c) ==> r == Some(c)
    ensures r.Some? ==> SameButFsr(c, r.value)
  {
    if !Fsr(c) then Some(c) else SyncSliders(c, st, SliderOrder)
  }

  /** The first slider of the list that controls y. */
  function OwnerIn(sliders: seq<Slider>, st: Settings, y: PanelAndSensor): (r: Option<Slider>)
    ensures r.Some? ==> r.value in sliders && Owns(r.value, st, y)
    ensures r.None? ==> forall s :: s in sliders ==> !Owns(s, st, y)
  {
    if sliders == [] then None
    else if Owns(sliders[0], st, y) then Some(sliders[0])
    else OwnerIn(sliders[1..], st, y)
  }

  /** Some slider of the list controls a sensor out of range. */
  predicate Unreachable(sliders: seq<Slider>, st: Settings)
  {
    exists i, k :: 0 <= i < |sliders| && 0 <= k < |Controlled(sliders[i], st, false)| && !InRange(Controlled(sliders[i], st, false)[k])
  }

  /** What the slider loop computes, for a list of distinct sliders: it
      fails iff one of them controls an out-of-range sensor; otherwise each
      sensor a slider controls holds that slider's first sensor's original
      thresholds, and every other sensor keeps its own. */
  lemma {:induction false} SyncSlidersEffect(c: Config, st: Settings, sliders: seq<Slider>)
    requires Shaped(c) && NoDuplicates(sliders)
    ensures SyncSliders(c, st, sliders).None? <==> Unreachable(sliders, st)
    ensures SyncSliders(c, st, sliders).Some? ==> forall y :: InRange(y) ==>
      Cell(SyncSliders(c, st, sliders).value, y) ==
        match OwnerIn(sliders, st, y)
        case None => Cell(c, y)
        case Some(s) => if InRange(Controlled(s, st, false)[0]) then Cell(c, Controlled(s, st, false)[0]) else Cell(c, y)
    decreases |sliders|
  {
    if sliders != [] {
      var s0 := sliders[0];
      var rest := sliders[1..];
      var l0 := Controlled(s0, st, false);
      assert NoDuplicates(rest) by {
        forall i, j | 0 <= i < j < |rest| ensures rest[i] != rest[j] {
          assert rest[i] == sliders[i + 1] && rest[j] == sliders[j + 1];
        }
      }
      assert s0 !in rest by {
        forall i | 0 <= i < |rest| ensures rest[i] != s0 {
          assert rest[i] == sliders[i + 1];
        }
      }
      assert Unreachable(sliders, st) <==> (exists k :: 0 <= k < |l0| && !InRange(l0[k])) || Unreachable(rest, st) by {
        if Unreachable(rest, st) {
          var i, k :| 0 <= i < |rest| && 0 <= k < |Controlled(rest[i], st, false)| && !InRange(Controlled(rest[i], st, false)[k]);
          assert rest[i] == sliders[i + 1];
        }
        if Unreachable(sliders, st) {
          var i, k :| 0 <= i < |sliders| && 0 <= k < |Controlled(sliders[i], st, false)| && !InRange(Controlled(sliders[i], st, false)[k]);
          if i > 0 {
            assert sliders[i] == rest[i - 1];
          }
        }
      }
      if l0 == [] {
        SyncSlidersEffect(c, st, rest);
      } else if InRange(l0[0]) {
        CopyFromFirstCopies(c, l0[0], l0);
        if CopyFromFirst(c, l0[0], l0).Some? {
          var c1 := CopyFromFirst(c, l0[0], l0).value;
          SyncSlidersEffect(c1, st, rest);
          if SyncSliders(c1, st, rest).Some? {
            var r := SyncSliders(c1, st, rest).value;
            forall y | InRange(y)
              ensures Cell(r, y) ==
                match OwnerIn(sliders, st, y)
                case None => Cell(c, y)
                case Some(s) => if InRange(Controlled(s, st, false)[0]) then Cell(c, Controlled(s, st, false)[0]) else Cell(c, y)
            {
              if y in l0 {
                if OwnerIn(rest, st, y).Some? {
                  OwnersDisjoint(s0, OwnerIn(rest, st, y).value, st, y);
                }
              } else if OwnerIn(rest, st, y).Some? {
                var s := OwnerIn(rest, st, y).value;
                var first := Controlled(s, st, false)[0];
                OwnersDisjoint(s, s0, st, first);
              }
            }
          }
        }
      }
    }
  }

  lemma SliderOrderDistinct()
    ensures NoDuplicates(SliderOrder)
  {
  }

  /** Only the custom slider can control a sensor out of range. */
  lemma FixedSlidersInRange(s: Slider, st: Settings, x: PanelAndSensor)
    requires s != CustomSensors && Owns(s, st, x)
    ensures InRange(x)
  {
    Priority(s, st, x);
    if !IsSpecial(s) {
      DirectionPanels(s, st, x);
    }
  }

  /** The re-sync of an FSR record fails exactly when the custom list holds
      an out-of-range entry; otherwise every sensor a slider controls takes
      that slider's first sensor's thresholds, read before any write, and
      every sensor no slider controls keeps its thresholds. */
  lemma SyncSliderThresholdsEffect(c: Config, st: Settings)
    requires Shaped(c) && Fsr(c)
    ensures SyncSliderThresholdsForConfig(c, st).None? <==>
      exists k :: 0 <= k < |st.customSensors| && !InRange(st.customSensors[k])
    ensures SyncSliderThresholdsForConfig(c, st).Some? ==> forall y :: InRange(y) ==>
      match OwnerIn(SliderOrder, st, y)
      case None => Cell(SyncSliderThresholdsForConfig(c, st).value, y) == Cell(c, y)
      case Some(s) =>
        InRange(Controlled(s, st, false)[0])
        && Cell(SyncSliderThresholdsForConfig(c, st).value, y) == Cell(c, Controlled(s, st, false)[0])
  {
    SliderOrderDistinct();
    SyncSlidersEffect(c, st, SliderOrder);
    UnreachableIffCustom(st);
    hide SyncSliders, Controlled, OwnerIn, Unreachable;
    if SyncSliderThresholdsForConfig(c, st).Some? {
      forall y | InRange(y) && OwnerIn(SliderOrder, st, y).Some?
        ensures InRange(Controlled(OwnerIn(SliderOrder, st, y).value, st, false)[0])
      {
        FirstInRange(st, OwnerIn(SliderOrder, st, y).value);
      }
    }
  }

  /** Only the custom list can put an out-of-range sensor under a slider. */
  lemma UnreachableIffCustom(st: Settings)
    ensures Unreachable(SliderOrder, st) <==> exists k :: 0 <= k < |st.customSensors| && !InRange(st.customSensors[k])
  {
    Priority(CustomSensors, st, PanelAndSensor(0, 0));
    hide Controlled;
    assert SliderOrder[13] == CustomSensors;
    if Unreachable(SliderOrder, st) {
      var i, k :| 0 <= i < |SliderOrder| && 0 <= k < |Controlled(SliderOrder[i], st, false)| && !InRange(Controlled(SliderOrder[i], st, false)[k]);
      if SliderOrder[i] != CustomSensors {
        FixedSlidersInRange(SliderOrder[i], st, Controlled(SliderOrder[i], st, false)[k]);
      }
    }
  }

  /** When no sensor is out of range, a slider's first sensor is in range. */
  lemma FirstInRange(st: Settings, s: Slider)
    requires s in SliderOrder && |Controlled(s, st, false)| > 0 && !Unreachable(SliderOrder, st)
    ensures InRange(Controlled(s, st, false)[0])
  {
    hide Controlled;
    var i :| 0 <= i < |SliderOrder| && SliderOrder[i] == s;
    assert !InRange(Controlled(SliderOrder[i], st, false)[0]) ==> Unreachable(SliderOrder, st);
  }
}
