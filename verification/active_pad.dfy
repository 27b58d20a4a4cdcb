/**
 Which pads the configuration tool is configuring: every connected pad,
 except that with both pads connected a single-pad selection drops the
 other one.
 */
module ActivePad {
  import opened ConfigRecord
  import opened ConfigHelpers
  import opened Notifier

  /** The pad selection; it defaults to both. */
  datatype SelectedPad = P1 | P2 | Both

  /** The pad a single-pad selection keeps. */
  function SelectionOf(pad: nat): SelectedPad
  {
    if pad == 0 then P1 else P2
  }

  /** Pad `pad` is configured: it is connected, and the selection either
      names it, is Both, or does not apply because the other pad is not
      connected. */
  predicate IsActive(selected: SelectedPad, a: Args, pad: nat)
    requires |a.controller| == PadCount && pad < PadCount
  {
    var bothConnected := a.controller[0].connected && a.controller[1].connected;
    a.controller[pad].connected && (!bothConnected || selected == Both || selected == SelectionOf(pad))
  }

  /** `ActivePads`: the active pads with their records, pad 0 first. */
  function ActivePads(selected: SelectedPad, a: Args): (r: seq<(nat, Config)>)
    requires |a.controller| == PadCount
    ensures |r| <= PadCount
    ensures forall i :: 0 <= i < |r| ==> r[i].0 < PadCount && r[i].1 == a.controller[r[i].0].config
    ensures forall i, j :: 0 <= i < j < |r| ==> r[i].0 < r[j].0
    ensures IsActive(selected, a, 0) <==> |r| > 0 && r[0].0 == 0
    ensures IsActive(selected, a, 1) <==> |r| > 0 && r[|r| - 1].0 == 1
  {
    var pad1 := a.controller[0].connected;
    var pad2 := a.controller[1].connected;
    var pad1' := if pad1 && pad2 && selected == P2 then false else pad1;
    var pad2' := if pad1 && pad2 && selected == P1 then false else pad2;
    if pad1' && pad2' then [(0, a.controller[0].config), (1, a.controller[1].config)]
    else if pad1' then [(0, a.controller[0].config)]
    else if pad2' then [(1, a.controller[1].config)]
    else []
  }

  /** A disconnected pad is never active, and a pad alone on the bus is
      active whatever the selection. */
  lemma ActiveNeedsConnection(selected: SelectedPad, a: Args, pad: nat)
    requires |a.controller| == PadCount && pad < PadCount
    ensures !a.controller[pad].connected ==> forall i :: 0 <= i < |ActivePads(selected, a)| ==> ActivePads(selected, a)[i].0 != pad
    ensures a.controller[pad].connected && !a.controller[1 - pad].connected ==>
      ActivePads(selected, a) == [(pad, a.controller[pad].config)]
  {
    var r := ActivePads(selected, a);
    if a.controller[pad].connected && !a.controller[1 - pad].connected {
      assert IsActive(selected, a, pad) && !IsActive(selected, a, 1 - pad);
      assert |r| == 1;
    }
  }

  /** `GetFirstActivePadConfig`: the record of the first active pad, or the
      empty record when no pad is active. */
  function GetFirstActivePadConfig(selected: SelectedPad, a: Args): (c: Config)
    requires |a.controller| == PadCount
    ensures IsActive(selected, a, 0) ==> c == a.controller[0].config
    ensures !IsActive(selected, a, 0) && IsActive(selected, a, 1) ==> c == a.controller[1].config
    ensures !IsActive(selected, a, 0) && !IsActive(selected, a, 1) ==> c == Create()
  {
    var pads := ActivePads(selected, a);
    if |pads| > 0 then pads[0].1 else Create()
  }
}
