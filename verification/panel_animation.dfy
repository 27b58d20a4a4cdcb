/**
 Panel animations (`SMXPanelAnimation.cpp`): a GIF laid out as a 3×3 grid of
 panels is cut into one light graphic per panel and frame, played per panel
 and pad, and overlaid onto the lights sent to the pad.

 A 14×15 GIF has a 4×4 block of pixels per panel at 5-pixel spacing and
 gives the 16 lights of the 4×4 grid (the 3×3 grid stays transparent); a
 23×24 GIF has a 7×7 block at 8-pixel spacing whose even pixels are the
 4×4 grid and odd pixels the 3×3 grid. The bottom row is a flag row: an
 opaque bottom-left pixel marks the frame to loop back to.
*/
module PanelAnimation {
  import opened Wrappers
  import opened Bytes
  import opened GifImage
  import Gif

  const LightsPerPanel: nat := 25
  const PanelsPerPad: nat := 9
  const BytesPerPanel: nat := LightsPerPanel * 3

  // ----- cutting a frame into panel graphics -----

  /** The panel's column and row in the 3×3 layout (`graphic_positions`). */
  function PanelColumn(panel: nat): nat { panel % 3 }
  function PanelRow(panel: nat): nat { panel / 3 }

  /** The pixel that light k (k < 16) of a panel comes from in a 14×15
      frame: the 4×4 block at (5·column, 5·row), row by row. */
  function Pixel16(panel: nat, k: nat): (xy: (nat, nat))
    requires panel < PanelsPerPad && k < 16
    ensures xy.0 < 14 && xy.1 < 14
  {
    (5 * PanelColumn(panel) + k % 4, 5 * PanelRow(panel) + k / 4)
  }

  /** The pixel that light k of a panel comes from in a 23×24 frame: the
      4×4 grid on the even pixels of the 7×7 block at (8·column, 8·row),
      then the 3×3 grid on its odd pixels. */
  function Pixel25(panel: nat, k: nat): (xy: (nat, nat))
    requires panel < PanelsPerPad && k < LightsPerPanel
    ensures xy.0 < 23 && xy.1 < 23
  {
    if k < 16 then (8 * PanelColumn(panel) + 2 * (k % 4), 8 * PanelRow(panel) + 2 * (k / 4))
    else (8 * PanelColumn(panel) + 2 * ((k - 16) % 3) + 1, 8 * PanelRow(panel) + 2 * ((k - 16) / 3) + 1)
  }

  /** In a 14×15 frame the pixel tells the panel and the light back: no two
      lights share a pixel, and none is on a spacer line or the flag row. */
  lemma Pixel16Inverse(panel: nat, k: nat)
    requires panel < PanelsPerPad && k < 16
    ensures var (x, y) := Pixel16(panel, k);
      && x % 5 < 4 && y % 5 < 4 && y < 14
      && 3 * (y / 5) + x / 5 == panel && 4 * (y % 5) + x % 5 == k
  {
    var (x, y) := Pixel16(panel, k);
    ModUnique(x, 5, PanelColumn(panel), k % 4);
    ModUnique(y, 5, PanelRow(panel), k / 4);
  }

  /** In a 23×24 frame likewise: even pixels are the 4×4 grid, odd pixels
      the 3×3 grid, and the last pixel of each 8-pixel stretch is a
      spacer. */
  lemma Pixel25Inverse(panel: nat, k: nat)
    requires panel < PanelsPerPad && k < LightsPerPanel
    ensures var (x, y) := Pixel25(panel, k);
      && x % 8 < 7 && y % 8 < 7 && y < 23
      && 3 * (y / 8) + x / 8 == panel
      && (x % 8) % 2 == (y % 8) % 2
      && k == if x % 2 == 0 then 4 * ((y % 8) / 2) + (x % 8) / 2 else 16 + 3 * ((y % 8) / 2) + (x % 8) / 2
  {
    hide Pixel25;
    if k < 16 {
      Pixel25Even(panel, k);
      Cell8(PanelColumn(panel), k % 4, 0);
      Cell8(PanelRow(panel), k / 4, 0);
    } else {
      Pixel25Odd(panel, k);
      Cell8(PanelColumn(panel), (k - 16) % 3, 1);
      Cell8(PanelRow(panel), (k - 16) / 3, 1);
    }
  }

  lemma Pixel25Even(panel: nat, k: nat)
    requires panel < PanelsPerPad && k < 16
    ensures Pixel25(panel, k) == (8 * PanelColumn(panel) + 2 * (k % 4), 8 * PanelRow(panel) + 2 * (k / 4))
  {
  }

  lemma Pixel25Odd(panel: nat, k: nat)
    requires panel < PanelsPerPad && 16 <= k < LightsPerPanel
    ensures Pixel25(panel, k) == (8 * PanelColumn(panel) + 2 * ((k - 16) % 3) + 1, 8 * PanelRow(panel) + 2 * ((k - 16) / 3) + 1)
  {
  }

  /** Pixel 2a + odd of the 8-pixel stretch c: the stretch, the position
      in it and the parity read back. */
  lemma Cell8(c: nat, a: nat, odd: nat)
    requires a < 4 && odd < 2 && (odd == 1 ==> a < 3)
    ensures var x := 8 * c + 2 * a + odd;
      x / 8 == c && x % 8 == 2 * a + odd && x % 8 < 7 && (x % 8) / 2 == a && (x % 8) % 2 == odd && x % 2 == odd
  {
    Split8(c, 2 * a + odd);
  }

  /** A position within an 8-pixel stretch, and its parity. */
  lemma Split8(c: nat, d: nat)
    requires d < 8
    ensures (8 * c + d) / 8 == c && (8 * c + d) % 8 == d && (8 * c + d) % 2 == d % 2
  {
  }

  /** A frame of either size, cut for one panel. */
  predicate FrameFits(img: Image)
  {
    Shaped(img) && ((img.width == 14 && img.height == 15) || (img.width == 23 && img.height == 24))
  }

  /** `get(x, y)` on a frame. */
  function PixelAt(img: Image, x: nat, y: nat): Color
    requires Shaped(img) && x < img.width && y < img.height
  {
    assert y * img.width + x < img.height * img.width by {
      MulMonotone(y + 1, img.height, img.width);
    }
    img.pixels[y * img.width + x]
  }

  /** `ConvertToPanelGraphic16`: the panel's 16 pixels, then 9 transparent
      lights. */
  function PanelGraphic16(img: Image, panel: nat): (g: seq<Color>)
    requires Shaped(img) && img.width == 14 && img.height == 15 && panel < PanelsPerPad
    ensures |g| == LightsPerPanel
    ensures forall k :: 16 <= k < LightsPerPanel ==> g[k] == Transparent
    ensures forall k :: 0 <= k < 16 ==> g[k] == PixelAt(img, Pixel16(panel, k).0, Pixel16(panel, k).1)
  {
    seq(LightsPerPanel, k requires 0 <= k < LightsPerPanel =>
      if k < 16 then PixelAt(img, Pixel16(panel, k).0, Pixel16(panel, k).1) else Transparent)
  }

  /** `ConvertToPanelGraphic25`: the panel's 25 pixels. */
  function PanelGraphic25(img: Image, panel: nat): (g: seq<Color>)
    requires Shaped(img) && img.width == 23 && img.height == 24 && panel < PanelsPerPad
    ensures |g| == LightsPerPanel
    ensures forall k :: 0 <= k < LightsPerPanel ==> g[k] == PixelAt(img, Pixel25(panel, k).0, Pixel25(panel, k).1)
  {
    seq(LightsPerPanel, k requires 0 <= k < LightsPerPanel => PixelAt(img, Pixel25(panel, k).0, Pixel25(panel, k).1))
  }

  // ----- loading -----

  /** One panel's animation: a graphic per frame, each frame's duration in
      milliseconds, and the frame to loop back to. */
  datatype Animation = Animation(graphics: seq<seq<Color>>, durations: seq<nat>, loopFrame: nat)

  /** Frames that can be loaded: all the size of the first, which is one of
      the two layouts. */
  predicate FramesFit(frames: seq<Gif.Frame>)
  {
    && |frames| > 0
    && forall i :: 0 <= i < |frames| ==>
      && FrameFits(frames[i].image)
      && frames[i].image.width == frames[0].image.width && frames[i].image.height == frames[0].image.height
  }

  /** The frame's loop flag: its bottom-left pixel is not transparent. */
  predicate LoopFlag(img: Image)
    requires FrameFits(img)
  {
    PixelAt(img, 0, img.height - 1).a != 0
  }

  /** The first frame from `from` on whose loop flag is set, if any. */
  function FirstLoopFrame(frames: seq<Gif.Frame>, from: nat): (r: Option<nat>)
    requires FramesFit(frames)
    decreases |frames| - from
    ensures r.Some? ==> from <= r.value < |frames| && LoopFlag(frames[r.value].image)
    ensures r.Some? ==> forall i :: from <= i < r.value ==> !LoopFlag(frames[i].image)
    ensures r.None? ==> forall i :: from <= i < |frames| ==> !LoopFlag(frames[i].image)
  {
    if from >= |frames| then None
    else if LoopFlag(frames[from].image) then Some(from)
    else FirstLoopFrame(frames, from + 1)
  }

  /** The panel's graphic of one frame, in the layout of the first frame. */
  function FrameGraphic(frames: seq<Gif.Frame>, i: nat, panel: nat): (g: seq<Color>)
    requires FramesFit(frames) && i < |frames| && panel < PanelsPerPad
    ensures |g| == LightsPerPanel
  {
    var img := frames[i].image;
    if frames[0].image.width == 14 then PanelGraphic16(img, panel) else PanelGraphic25(img, panel)
  }

  /** What the loop-frame scan of `SMXPanelAnimation::Load` does as written:
      the frame is only recorded if one was already recorded, which never
      happens, so the loop frame stays unset and falls back to 0. */
  function LoopFrameAsWritten(frames: seq<Gif.Frame>): (loop: int)
    requires FramesFit(frames)
  {
    var loop := LoopScanAsWritten(frames, 0, -1);
    if loop == -1 then 0 else loop
  }

  function LoopScanAsWritten(frames: seq<Gif.Frame>, from: nat, loop: int): int
    requires FramesFit(frames)
    decreases |frames| - from
  {
    if from >= |frames| then loop
    else
      var loop1 := if LoopFlag(frames[from].image) && loop != -1 then from else loop;
      LoopScanAsWritten(frames, from + 1, loop1)
  }

  /** As written, the loop frame is 0 whatever the flag row says. */
  lemma {:induction false} LoopFrameAsWrittenIsZero(frames: seq<Gif.Frame>)
    requires FramesFit(frames)
    ensures LoopFrameAsWritten(frames) == 0
  {
    LoopScanStaysUnset(frames, 0);
  }

  lemma {:induction false} LoopScanStaysUnset(frames: seq<Gif.Frame>, from: nat)
    requires FramesFit(frames)
    ensures LoopScanAsWritten(frames, from, -1) == -1
    decreases |frames| - from
  {
    if from < |frames| {
      LoopScanStaysUnset(frames, from + 1);
    }
  }

  /** The loop frame as the comments of `Load` describe it: the first frame
      whose flag is set, or 0 if none is. */
  function LoopFrame(frames: seq<Gif.Frame>): (loop: nat)
    requires FramesFit(frames)
    ensures loop < |frames|
    ensures loop > 0 ==> LoopFlag(frames[loop].image)
    ensures forall i :: 0 <= i < loop ==> !LoopFlag(frames[i].image)
  {
    match FirstLoopFrame(frames, 0)
    case None => 0
    case Some(i) => i
  }

  /** A flagged frame makes the loop frame the first flagged one; the
      as-written scan ignores it. */
  lemma LoopFrameFindsFlag(frames: seq<Gif.Frame>, j: nat)
    requires FramesFit(frames) && j < |frames| && LoopFlag(frames[j].image)
    requires forall i :: 0 <= i < j ==> !LoopFlag(frames[i].image)
    ensures LoopFrame(frames) == j
    ensures j > 0 ==> LoopFrameAsWritten(frames) != LoopFrame(frames)
  {
    LoopFrameAsWrittenIsZero(frames);
  }

  /** `SMXPanelAnimation::Load`: one graphic and one duration per frame,
      and the loop frame: the first frame whose flag is set, or 0 when no
      frame is flagged (the intended scan; see `LoopFrameAsWritten`). */
  function Load(frames: seq<Gif.Frame>, panel: nat): (a: Animation)
    requires FramesFit(frames) && panel < PanelsPerPad
    ensures |a.graphics| == |frames| && |a.durations| == |frames| && a.loopFrame < |frames|
    ensures forall i :: 0 <= i < a.loopFrame ==> !LoopFlag(frames[i].image)
    ensures a.loopFrame > 0 ==> LoopFlag(frames[a.loopFrame].image)
    ensures (exists j :: 0 <= j < |frames| && LoopFlag(frames[j].image)) <==> LoopFlag(frames[a.loopFrame].image)
    ensures forall i :: 0 <= i < |frames| ==> a.durations[i] == frames[i].milliseconds
    ensures forall i :: 0 <= i < |frames| ==> |a.graphics[i]| == LightsPerPanel
    ensures forall i :: 0 <= i < |frames| && frames[0].image.width == 14 ==>
      forall k :: 16 <= k < LightsPerPanel ==> a.graphics[i][k] == Transparent
  {
    Animation(
      seq(|frames|, i requires 0 <= i < |frames| => FrameGraphic(frames, i, panel)),
      seq(|frames|, i requires 0 <= i < |frames| => frames[i].milliseconds),
      LoopFrame(frames))
  }

  /** Each light of a loaded graphic is the pixel it comes from. */
  lemma LoadReadsPixel(frames: seq<Gif.Frame>, panel: nat, i: nat, k: nat)
    requires FramesFit(frames) && panel < PanelsPerPad && i < |frames| && k < LightsPerPanel
    ensures var img := frames[i].image;
      Load(frames, panel).graphics[i][k] ==
        if img.width == 14 then (if k < 16 then PixelAt(img, Pixel16(panel, k).0, Pixel16(panel, k).1) else Transparent)
        else PixelAt(img, Pixel25(panel, k).0, Pixel25(panel, k).1)
  {
  }

  /** Decoded frames, all the screen's size, fit when the first does. */
  lemma FramesShapedFit(frames: seq<Gif.Frame>, width: nat, height: nat)
    requires Gif.FramesShaped(frames, width, height) && |frames| > 0
    requires (frames[0].width == 14 && frames[0].height == 15) || (frames[0].width == 23 && frames[0].height == 24)
    ensures FramesFit(frames)
  {
  }

  /** `SMX_LightsAnimation_Load`: decode the GIF, check it has frames of one
      of the two sizes, and load it for each of the nine panels. */
  function LoadGif(gif: seq<Byte>): (r: Result<seq<Animation>, string>)
    ensures r.Ok? <==> Gif.DecodeGif(gif).Some? && FramesFit(Gif.DecodeGif(gif).value)
    ensures r.Ok? ==> |r.value| == PanelsPerPad
    ensures r.Ok? ==> forall p :: 0 <= p < |r.value| ==> r.value[p] == Load(Gif.DecodeGif(gif).value, p)
    ensures Gif.DecodeGif(gif).None? ==> r == Err("The GIF couldn't be read.")
  {
    hide Gif.DecodeGif, Load;
    match Gif.DecodeGif(gif)
    case None => Err("The GIF couldn't be read.")
    case Some(frames) =>
      if |frames| == 0 then Err("The GIF couldn't be read.")
      else
        var first := frames[0];
        if (first.width != 14 || first.height != 15) && (first.width != 23 || first.height != 24) then
          Err("The GIF must be 14x15 or 23x24.")
        else
          FramesShapedFit(frames, Le16(gif[6], gif[7]), Le16(gif[8], gif[9]));
          Ok(seq(PanelsPerPad, p requires 0 <= p < PanelsPerPad => Load(frames, p)))
  }

  // ----- playing -----

  /** One panel's animation being played: the current frame and whether it
      plays. The time into the frame is not modelled; `Update` is told
      whether the frame's duration has passed. */
  datatype AnimationState = AnimationState(animation: Animation, currentFrame: nat, playing: bool)

  /** The current frame exists, and so does the loop frame. */
  predicate InRange(s: AnimationState)
  {
    && |s.animation.graphics| > 0
    && s.currentFrame < |s.animation.graphics|
    && s.animation.loopFrame < |s.animation.graphics|
  }

  /** `GetAnimationFrame`: the current graphic, or nothing when stopped or
      when the frame is out of range. */
  function GetAnimationFrame(s: AnimationState): (g: seq<Color>)
    ensures !s.playing ==> g == []
    ensures s.playing && s.currentFrame < |s.animation.graphics| ==> g == s.animation.graphics[s.currentFrame]
    ensures s.currentFrame >= |s.animation.graphics| ==> g == []
  {
    if !s.playing || s.currentFrame >= |s.animation.graphics| then [] else s.animation.graphics[s.currentFrame]
  }

  /** `Play`: starts playing, from wherever it was. */
  function Play(s: AnimationState): (r: AnimationState)
    ensures r.playing && r.currentFrame == s.currentFrame && r.animation == s.animation
  {
    s.(playing := true)
  }

  /** `Rewind`: back to the first frame. */
  function Rewind(s: AnimationState): (r: AnimationState)
    ensures r.currentFrame == 0 && r.playing == s.playing && r.animation == s.animation
  {
    s.(currentFrame := 0)
  }

  /** `Stop`: stops and rewinds. */
  function Stop(s: AnimationState): (r: AnimationState)
    ensures !r.playing && r.currentFrame == 0 && r.animation == s.animation
    ensures GetAnimationFrame(r) == []
  {
    Rewind(s.(playing := false))
  }

  /** Stopping then playing starts over from the first frame. */
  lemma PlayAfterStop(s: AnimationState)
    requires |s.animation.graphics| > 0
    ensures GetAnimationFrame(Play(Stop(s))) == s.animation.graphics[0]
  {
  }

  /** `Update`, given whether the current frame's duration has passed: a
      stopped or empty animation stays put; a frame past the end (a shorter
      animation was loaded) rewinds first; when the duration has passed the
      next frame follows, and after the last comes the loop frame. */
  function Update(s: AnimationState, elapsed: bool): (r: AnimationState)
    ensures r.animation == s.animation && r.playing == s.playing
    ensures !s.playing || s.animation.graphics == [] ==> r == s
    ensures s.playing && s.animation.loopFrame < |s.animation.graphics| ==> r.currentFrame < |s.animation.graphics|
  {
    if !s.playing || s.animation.graphics == [] then s
    else
      var s1 := if s.currentFrame >= |s.animation.graphics| then Rewind(s) else s;
      if !elapsed then s1
      else
        var next := s1.currentFrame + 1;
        s1.(currentFrame := if next == |s.animation.graphics| then s.animation.loopFrame else next)
  }

  /** A playing animation in range steps through its frames in order and
      wraps from the last frame to the loop frame. */
  lemma UpdateAdvances(s: AnimationState)
    requires InRange(s) && s.playing
    ensures InRange(Update(s, true))
    ensures Update(s, true).currentFrame ==
      if s.currentFrame + 1 == |s.animation.graphics| then s.animation.loopFrame else s.currentFrame + 1
    ensures Update(s, false) == s
  {
  }

  /** A loaded animation stays in range however it is played. */
  lemma LoadedStaysInRange(frames: seq<Gif.Frame>, panel: nat, s: AnimationState, elapsed: bool)
    requires FramesFit(frames) && panel < PanelsPerPad
    requires s.animation == Load(frames, panel) && s.playing
    ensures InRange(Update(s, elapsed))
  {
  }

  // ----- lights -----

  /** The red, green or blue byte of a colour. */
  function Channel(c: Color, i: nat): Byte
    requires i < 3
  {
    if i == 0 then c.r else if i == 1 then c.g else c.b
  }

  /** Light byte j of a panel after a graphic is overlaid on `under`: the
      graphic's colour where its light is opaque, otherwise what was
      there. */
  function OverlayByte(under: Byte, graphic: seq<Color>, j: nat): Byte
    requires j < BytesPerPanel
  {
    if j / 3 < |graphic| && graphic[j / 3].a != 0 then Channel(graphic[j / 3], j % 3) else under
  }

  /** `OverlayLights`: the graphic's opaque lights, at most 25, written over
      one panel's lights; transparent lights leave what is under them, and
      an empty graphic changes nothing. */
  method OverlayLights(lights: seq<Byte>, graphic: seq<Color>) returns (out: seq<Byte>)
    requires |lights| == BytesPerPanel
    ensures |out| == BytesPerPanel
    ensures forall j :: 0 <= j < BytesPerPanel ==> out[j] == OverlayByte(lights[j], graphic, j)
    ensures graphic == [] ==> out == lights
  {
    out := lights;
    var i := 0;
    while i < |graphic| && i < LightsPerPanel
      invariant 0 <= i <= LightsPerPanel
      invariant |out| == BytesPerPanel
      invariant forall j :: 0 <= j < BytesPerPanel ==>
        out[j] == if j / 3 < i then OverlayByte(lights[j], graphic, j) else lights[j]
    {
      if graphic[i].a != 0 {
        out := out[3 * i := graphic[i].r][3 * i + 1 := graphic[i].g][3 * i + 2 := graphic[i].b];
      }
      i := i + 1;
    }
  }

  /** Overlaying a graphic a second time changes nothing more. */
  lemma OverlayIdempotent(under: Byte, graphic: seq<Color>, j: nat)
    requires j < BytesPerPanel
    ensures OverlayByte(OverlayByte(under, graphic, j), graphic, j) == OverlayByte(under, graphic, j)
  {
  }

  /** Whether the pad state has the panel's bit set. */
  predicate Pressed(padState: nat, panel: nat)
  {
    (padState / Pow2(panel)) % 2 == 1
  }

  /** Light byte j of a panel in the lights command: the released
      animation over black; then, when the panel is pressed, the pressed
      animation over that, or, when pressed animations are off, the panel's
      step colour on every light. */
  function CommandByte(panel: nat, j: nat, padState: nat, usePressed: bool, stepColor: seq<Byte>,
                       released: seq<Color>, pressed: seq<Color>): Byte
    requires panel < PanelsPerPad && j < BytesPerPanel && |stepColor| == 3 * PanelsPerPad
  {
    var base := OverlayByte(0, released, j);
    if Pressed(padState, panel) && usePressed then OverlayByte(base, pressed, j)
    else if Pressed(padState, panel) then stepColor[3 * panel + j % 3]
    else base
  }

  /** `GetLightsCommand`: 25 lights of three bytes for each of the nine
      panels, from the current frames of each panel's released and pressed
      animations. `stepColor` is the configured step colour, three bytes a
      panel, already scaled back to the full range. */
  method GetLightsCommand(padState: nat, usePressed: bool, stepColor: seq<Byte>,
                          released: seq<AnimationState>, pressed: seq<AnimationState>) returns (cmd: seq<Byte>)
    requires |stepColor| == 3 * PanelsPerPad && |released| == PanelsPerPad && |pressed| == PanelsPerPad
    ensures |cmd| == PanelsPerPad * BytesPerPanel
    ensures forall p, j :: 0 <= p < PanelsPerPad && 0 <= j < BytesPerPanel ==>
      cmd[p * BytesPerPanel + j] == CommandByte(p, j, padState, usePressed, stepColor,
        GetAnimationFrame(released[p]), GetAnimationFrame(pressed[p]))
  {
    hide CommandByte;
    cmd := [];
    var p := 0;
    while p < PanelsPerPad
      invariant 0 <= p <= PanelsPerPad
      invariant |cmd| == p * BytesPerPanel
      invariant forall q, j :: 0 <= q < p && 0 <= j < BytesPerPanel ==>
        cmd[q * BytesPerPanel + j] == CommandByte(q, j, padState, usePressed, stepColor,
          GetAnimationFrame(released[q]), GetAnimationFrame(pressed[q]))
    {
      var lights := PanelLights(p, padState, usePressed, stepColor, GetAnimationFrame(released[p]), GetAnimationFrame(pressed[p]));
      cmd := cmd + lights;
      p := p + 1;
    }
  }

  /** One panel's part of the lights command. */
  method PanelLights(panel: nat, padState: nat, usePressed: bool, stepColor: seq<Byte>,
                     released: seq<Color>, pressed: seq<Color>) returns (lights: seq<Byte>)
    requires panel < PanelsPerPad && |stepColor| == 3 * PanelsPerPad
    ensures |lights| == BytesPerPanel
    ensures forall j :: 0 <= j < BytesPerPanel ==>
      lights[j] == CommandByte(panel, j, padState, usePressed, stepColor, released, pressed)
  {
    lights := OverlayLights(Repeat(0, BytesPerPanel), released);
    if Pressed(padState, panel) && usePressed {
      lights := OverlayLights(lights, pressed);
    } else if Pressed(padState, panel) {
      lights := seq(BytesPerPanel, j requires 0 <= j < BytesPerPanel => stepColor[3 * panel + j % 3]);
    }
  }
}
