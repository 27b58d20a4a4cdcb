/**
 Uploading panel animations to the pad (`SMXPanelAnimationUpload.cpp`), so
 that they play while no game drives the lights. The loaded animations are
 packed into a timing block per animation type for the master controller
 and a graphics block per panel, and each block is cut into upload
 packets of at most 240 data bytes.

 The bytes of the blocks are not modelled (the 4-bit graphics, the
 palettes and the frame delays); the packet metadata, the checks that can
 refuse an upload, the timing indices and the progress report are.
*/
module AnimationUpload {
  import opened Wrappers
  import opened Bytes
  import opened GifImage
  import PanelAnimation

  /** Data bytes one upload packet carries. */
  const PacketDataSize: nat := 240
  /** The packet's command byte, 'm', and the six header bytes before the
      data: command, panel, animation, final flag, offset and size. */
  const UploadCommand: Byte := 0x6D
  const PacketHeaderSize: nat := 6
  const PacketSize: nat := PacketHeaderSize + PacketDataSize

  /** The panel number of packets for the master controller. */
  const MasterPanel: Byte := 0xFF

  /** Graphics a panel stores for both animation types together, and timed
      frames per animation type. */
  const GraphicSlots: nat := 64
  const TimedFrames: nat := 64

  /** Palette entries; index 15 stands for transparent. */
  const PaletteColors: nat := 15
  const TransparentIndex: Byte := 15

  /** Block sizes: a timing block is the loop frame and 64 frame indices
      and delays; a panel block is 64 graphics of 13 bytes and two palettes
      of 15 colours. */
  const TimingBlockSize: nat := 1 + TimedFrames + TimedFrames
  const PanelBlockSize: nat := GraphicSlots * 13 + 2 * PaletteColors * 3

  const Released: nat := 0
  const Pressed: nat := 1
  const LightsTypes: nat := 2

  /** Panel names for error messages. */
  const PanelNames: seq<string> := ["up-left", "up", "up-right", "left", "center", "right", "down-left", "down", "down-right"]

  // ----- palette lookup -----

  datatype Rgb = Rgb(r: Byte, g: Byte, b: Byte)

  predicate SameRgb(entry: Rgb, c: Color)
  {
    entry.r == c.r && entry.g == c.g && entry.b == c.b
  }

  /** `GetColorIndex`: 15 for a transparent colour, otherwise the first
      palette entry with the same red, green and blue, otherwise 0. */
  method GetColorIndex(palette: seq<Rgb>, c: Color) returns (idx: Byte)
    requires |palette| == PaletteColors
    ensures c.a == 0 ==> idx == TransparentIndex
    ensures c.a != 0 ==> idx < PaletteColors
    ensures c.a != 0 && (exists i :: 0 <= i < PaletteColors && SameRgb(palette[i], c)) ==>
      SameRgb(palette[idx], c) && forall j :: 0 <= j < idx ==> !SameRgb(palette[j], c)
    ensures c.a != 0 && (forall i :: 0 <= i < PaletteColors ==> !SameRgb(palette[i], c)) ==> idx == 0
  {
    if c.a == 0 {
      return TransparentIndex;
    }
    var i := 0;
    while i < PaletteColors
      invariant 0 <= i <= PaletteColors
      invariant forall j :: 0 <= j < i ==> !SameRgb(palette[j], c)
    {
      if SameRgb(palette[i], c) {
        return i;
      }
      i := i + 1;
    }
    return 0;
  }

  // ----- upload packets -----

  /** An upload packet's metadata: the panel (or the master), the
      animation type, where its data sits in the block and how much of it
      there is, and whether it ends the block. */
  datatype Chunk = Chunk(panel: Byte, animationIdx: Byte, offset: nat, size: nat, finalPacket: bool)

  /** Data bytes the chunks carry together. */
  function TotalSize(chunks: seq<Chunk>): nat
  {
    if chunks == [] then 0 else TotalSize(chunks[..|chunks| - 1]) + chunks[|chunks| - 1].size
  }

  /** The chunks cut a block of `size` bytes into consecutive pieces from
      offset 0, every piece full but the last, and only the last final. */
  predicate Tiles(chunks: seq<Chunk>, size: nat)
  {
    && |chunks| > 0
    && chunks[0].offset == 0
    && chunks[|chunks| - 1].offset + chunks[|chunks| - 1].size == size
    && (forall i :: 0 <= i < |chunks| ==> 0 < chunks[i].size <= PacketDataSize)
    && (forall i :: 0 <= i < |chunks| - 1 ==> chunks[i].size == PacketDataSize)
    && (forall i :: 0 <= i < |chunks| - 1 ==> chunks[i + 1].offset == chunks[i].offset + chunks[i].size)
    && (forall i :: 0 <= i < |chunks| ==> (chunks[i].finalPacket <==> i == |chunks| - 1))
  }

  /** The chunks of one block, all for one panel and animation type. */
  predicate Block(chunks: seq<Chunk>, panel: nat, animationIdx: nat, size: nat)
  {
    && Tiles(chunks, size)
    && forall i :: 0 <= i < |chunks| ==> chunks[i].panel == panel && chunks[i].animationIdx == animationIdx
  }

  /** `CreateUploadPackets`, without the data: packets at offsets 0, 240,
      … each carrying up to 240 bytes until the block is covered, the last
      marked final. Every block the upload sends is non-empty. */
  method CreateUploadPackets(size: nat, panel: Byte, animationIdx: Byte) returns (chunks: seq<Chunk>)
    requires size > 0
    ensures Block(chunks, panel, animationIdx, size)
    ensures TotalSize(chunks) == size
    ensures |chunks| == (size + PacketDataSize - 1) / PacketDataSize
  {
    var pieces := CutBlock(size, panel, animationIdx);
    var last := |pieces| - 1;
    TotalSizeSetLast(pieces, pieces[last].(finalPacket := true));
    chunks := pieces[last := pieces[last].(finalPacket := true)];
    ChunkCount(size, last, chunks[last].size);
  }

  /** The packets of a block before the last is marked final. */
  method CutBlock(size: nat, panel: Byte, animationIdx: Byte) returns (chunks: seq<Chunk>)
    requires size > 0
    ensures |chunks| > 0 && TotalSize(chunks) == size
    ensures size == PacketDataSize * (|chunks| - 1) + chunks[|chunks| - 1].size
    ensures chunks[|chunks| - 1].offset + chunks[|chunks| - 1].size == size
    ensures forall i :: 0 <= i < |chunks| ==>
      && chunks[i].offset == PacketDataSize * i && 0 < chunks[i].size <= PacketDataSize && !chunks[i].finalPacket
      && chunks[i].panel == panel && chunks[i].animationIdx == animationIdx
    ensures forall i :: 0 <= i < |chunks| - 1 ==> chunks[i].size == PacketDataSize
  {
    chunks := [];
    var offset := 0;
    while offset < size
      invariant offset <= size
      invariant offset == TotalSize(chunks)
      invariant offset < size ==> offset == PacketDataSize * |chunks|
      invariant chunks == [] ==> offset == 0
      invariant chunks != [] ==> chunks[|chunks| - 1].offset + chunks[|chunks| - 1].size == offset
      invariant forall i :: 0 <= i < |chunks| ==>
        && chunks[i].offset == PacketDataSize * i && 0 < chunks[i].size <= PacketDataSize && !chunks[i].finalPacket
        && chunks[i].panel == panel && chunks[i].animationIdx == animationIdx
      invariant forall i :: 0 <= i < |chunks| - 1 ==> chunks[i].size == PacketDataSize
    {
      var bytesLeft := size - offset;
      var n := if PacketDataSize < bytesLeft then PacketDataSize else bytesLeft;
      TotalSizeAppend(chunks, Chunk(panel, animationIdx, offset, n, false));
      chunks := chunks + [Chunk(panel, animationIdx, offset, n, false)];
      offset := offset + n;
    }
  }

  lemma TotalSizeAppend(chunks: seq<Chunk>, c: Chunk)
    ensures TotalSize(chunks + [c]) == TotalSize(chunks) + c.size
  {
    assert (chunks + [c])[..|chunks|] == chunks;
  }

  lemma TotalSizeSetLast(chunks: seq<Chunk>, c: Chunk)
    requires chunks != [] && c.size == chunks[|chunks| - 1].size
    ensures TotalSize(chunks[|chunks| - 1 := c]) == TotalSize(chunks)
  {
    assert chunks[|chunks| - 1 := c][..|chunks| - 1] == chunks[..|chunks| - 1];
  }

  /** n full pieces and a last one of 1 to 240 bytes make ⌈size / 240⌉. */
  lemma ChunkCount(size: nat, n: nat, lastSize: nat)
    requires 0 < lastSize <= PacketDataSize && size == PacketDataSize * n + lastSize
    ensures n + 1 == (size + PacketDataSize - 1) / PacketDataSize
  {
    var m := size + PacketDataSize - 1;
    assert m == PacketDataSize * (n + 1) + (lastSize - 1);
    ModUnique(m, PacketDataSize, n + 1, lastSize - 1);
    DivMod(m, PacketDataSize);
  }

  /** The header bytes of a packet as the packed struct lays them out. The
      offset field is one byte, so offsets past 255 keep only their low
      byte. */
  function PacketHeader(c: Chunk): (h: seq<Byte>)
    requires c.size <= PacketDataSize
    ensures |h| == PacketHeaderSize && PacketHeaderSize + PacketDataSize <= 0xFF
  {
    [UploadCommand, c.panel, c.animationIdx, if c.finalPacket then 1 else 0, c.offset % 0x100, c.size]
  }

  /** Reads a header back. */
  function ParseHeader(h: seq<Byte>): (c: Option<Chunk>)
  {
    if |h| != PacketHeaderSize || h[0] != UploadCommand || h[3] > 1 then None
    else Some(Chunk(h[1], h[2], h[4], h[5], h[3] == 1))
  }

  /** A header reads back as the chunk it came from, with the offset
      reduced to a byte. */
  lemma ParsePacketHeader(c: Chunk)
    requires c.size <= PacketDataSize
    ensures ParseHeader(PacketHeader(c)) == Some(c.(offset := c.offset % 0x100))
  {
  }

  // ----- master timing data -----

  /** One animation type's timing block, without the delays: the loop
      frame and the graphic shown in each of the 64 timed frames (0xFF
      after the last). */
  datatype Timing = Timing(loopFrame: Byte, frames: seq<Byte>)

  /** The timing of an animation of `count` frames whose graphics start at
      `first`. */
  function TimingOf(first: nat, count: nat, loopFrame: nat): (t: Timing)
    requires count <= TimedFrames && first <= GraphicSlots
    ensures |t.frames| == TimedFrames
    ensures forall i :: 0 <= i < TimedFrames ==> t.frames[i] == if i < count then first + i else 0xFF
  {
    Timing(loopFrame % 0x100, seq(TimedFrames, i requires 0 <= i < TimedFrames => if i < count then first + i else 0xFF))
  }

  /** `CreateMasterAnimationData`: the timing of the released then the
      pressed animation of the first panel, the pressed graphics numbered
      on from the released ones; an animation of more than 64 frames is
      refused. */
  function MasterTimings(released: PanelAnimation.Animation, pressed: PanelAnimation.Animation): (r: Result<seq<Timing>, string>)
    ensures r.Ok? <==> |released.graphics| <= TimedFrames && |pressed.graphics| <= TimedFrames
    ensures r.Err? ==> r.error == "The animation is too long."
    ensures r.Ok? ==>
      && |r.value| == LightsTypes
      && |r.value[Released].frames| == TimedFrames && |r.value[Pressed].frames| == TimedFrames
      && (forall i :: 0 <= i < TimedFrames ==>
        && r.value[Released].frames[i] == (if i < |released.graphics| then i else 0xFF)
        && r.value[Pressed].frames[i] == (if i < |pressed.graphics| then |released.graphics| + i else 0xFF))
      && r.value[Released].loopFrame == released.loopFrame % 0x100
      && r.value[Pressed].loopFrame == pressed.loopFrame % 0x100
  {
    if |released.graphics| > TimedFrames || |pressed.graphics| > TimedFrames then Err("The animation is too long.")
    else Ok([TimingOf(0, |released.graphics|, released.loopFrame),
             TimingOf(|released.graphics|, |pressed.graphics|, pressed.loopFrame)])
  }

  // ----- panel graphics data -----

  /** Packs `count` graphics from slot `next` on, refusing a graphic when
      the slot number is past `lastSlot`; the slots used so far. */
  function PackGraphics(next: nat, count: nat, lastSlot: nat): (r: Option<nat>)
    decreases count
    ensures r.Some? <==> count == 0 || next + count <= lastSlot + 1
    ensures r.Some? ==> r.value == next + count
  {
    if count == 0 then Some(next)
    else if next > lastSlot then None
    else PackGraphics(next + 1, count - 1, lastSlot)
  }

  /** The packing of one panel's graphics in `CreatePanelAnimationData`,
      with the bound it checks slot numbers against: for the released then
      the pressed animation, the palette must fit in 15 colours and every
      graphic must get a slot. `palettesFit` stands for the palette
      builder, which is not part of this model. */
  function PackPanel(panel: nat, released: nat, pressed: nat, palettesFit: seq<bool>, lastSlot: nat): (r: Result<nat, string>)
    requires panel < PanelAnimation.PanelsPerPad && |palettesFit| == LightsTypes
    ensures r.Ok? <==>
      && palettesFit[Released] && palettesFit[Pressed]
      && (released == 0 || released <= lastSlot + 1)
      && (pressed == 0 || released + pressed <= lastSlot + 1)
    ensures r.Ok? ==> r.value == released + pressed
    ensures !palettesFit[Released] ==> r == Err("The " + PanelNames[panel] + " panel uses too many colors.")
  {
    var tooManyColors := "The " + PanelNames[panel] + " panel uses too many colors.";
    var tooManyFrames := "The animation has too many frames.";
    if !palettesFit[Released] then Err(tooManyColors)
    else match PackGraphics(0, released, lastSlot)
      case None => Err(tooManyFrames)
      case Some(next) =>
        if !palettesFit[Pressed] then Err(tooManyColors)
        else match PackGraphics(next, pressed, lastSlot)
          case None => Err(tooManyFrames)
          case Some(used) => Ok(used)
  }

  /** As written, the slot number is refused only when it is past 64,
      though the slots are numbered 0 to 63. */
  function PackPanelAsWritten(panel: nat, released: nat, pressed: nat, palettesFit: seq<bool>): (r: Result<nat, string>)
    requires panel < PanelAnimation.PanelsPerPad && |palettesFit| == LightsTypes
    ensures r == PackPanel(panel, released, pressed, palettesFit, GraphicSlots)
  {
    PackPanel(panel, released, pressed, palettesFit, GraphicSlots)
  }

  /** So 33 released and 32 pressed frames pass both the timing check and
      the packing, and the 65th graphic is written to slot 64, past the
      end of the 64 slots. */
  lemma PackPanelAsWrittenOverflows()
    ensures MasterTimings(PanelAnimation.Animation(Repeat([], 33), Repeat(0, 33), 0),
                          PanelAnimation.Animation(Repeat([], 32), Repeat(0, 32), 0)).Ok?
    ensures PackPanelAsWritten(0, 33, 32, [true, true]) == Ok(65) && 65 > GraphicSlots
  {
  }

  /** The packing with the bound the slots have: a panel is accepted
      exactly when its graphics fit in the 64 slots. */
  function PackPanelGraphics(panel: nat, released: nat, pressed: nat, palettesFit: seq<bool>): (r: Result<nat, string>)
    requires panel < PanelAnimation.PanelsPerPad && |palettesFit| == LightsTypes
    ensures r.Ok? <==> palettesFit[Released] && palettesFit[Pressed] && released + pressed <= GraphicSlots
    ensures r.Ok? ==> r.value == released + pressed
  {
    PackPanel(panel, released, pressed, palettesFit, GraphicSlots - 1)
  }

  // ----- preparing and sending the upload -----

  /** The checks `SMX_LightsUpload_PrepareUpload` makes before it builds any
      packet, in its order: both animation types loaded, the timing blocks,
      then each panel's graphics. `animations[p][t]` is panel p's loaded
      animation of type t and `palettesFit[p][t]` whether its palette fits. */
  function CheckUpload(animations: seq<seq<PanelAnimation.Animation>>, palettesFit: seq<seq<bool>>): (r: Result<seq<Timing>, string>)
    requires |animations| == PanelAnimation.PanelsPerPad && |palettesFit| == PanelAnimation.PanelsPerPad
    requires forall p :: 0 <= p < |animations| ==> |animations[p]| == LightsTypes && |palettesFit[p]| == LightsTypes
    ensures (animations[0][Released].graphics == [] || animations[0][Pressed].graphics == []) ==>
      r == Err("Load all panel animations before preparing the upload.")
    ensures r.Ok? ==> r == MasterTimings(animations[0][Released], animations[0][Pressed])
    ensures r.Ok? <==>
      && animations[0][Released].graphics != [] && animations[0][Pressed].graphics != []
      && MasterTimings(animations[0][Released], animations[0][Pressed]).Ok?
      && forall p :: 0 <= p < PanelAnimation.PanelsPerPad ==>
        PackPanelGraphics(p, |animations[p][Released].graphics|, |animations[p][Pressed].graphics|, palettesFit[p]).Ok?
  {
    hide MasterTimings, PackPanelGraphics, CheckPanels;
    if animations[0][Released].graphics == [] || animations[0][Pressed].graphics == [] then
      Err("Load all panel animations before preparing the upload.")
    else match MasterTimings(animations[0][Released], animations[0][Pressed])
      case Err(e) => Err(e)
      case Ok(timings) =>
        match CheckPanels(animations, palettesFit, 0)
        case Some(e) => Err(e)
        case None => Ok(timings)
  }

  /** The first panel from `from` on whose graphics cannot be packed. */
  function CheckPanels(animations: seq<seq<PanelAnimation.Animation>>, palettesFit: seq<seq<bool>>, from: nat): (e: Option<string>)
    requires |animations| == PanelAnimation.PanelsPerPad && |palettesFit| == PanelAnimation.PanelsPerPad
    requires forall p :: 0 <= p < |animations| ==> |animations[p]| == LightsTypes && |palettesFit[p]| == LightsTypes
    decreases PanelAnimation.PanelsPerPad - from
    ensures e.None? <==> forall p :: from <= p < PanelAnimation.PanelsPerPad ==>
      PackPanelGraphics(p, |animations[p][Released].graphics|, |animations[p][Pressed].graphics|, palettesFit[p]).Ok?
  {
    if from >= PanelAnimation.PanelsPerPad then None
    else match PackPanelGraphics(from, |animations[from][Released].graphics|, |animations[from][Pressed].graphics|, palettesFit[from])
      case Err(e) => Some(e)
      case Ok(_) => CheckPanels(animations, palettesFit, from + 1)
  }

  /** Blocks in one animation type's part of the upload: the timing block
      then the nine panel blocks. */
  const TypeBlocks: nat := 1 + PanelAnimation.PanelsPerPad

  /** Which block comes b-th: for each type in turn, the master's timing
      block, then the graphics blocks of panels 0 to 8. */
  function BlockPanel(b: nat): Byte
  {
    if b % TypeBlocks == 0 then MasterPanel else b % TypeBlocks - 1
  }

  function BlockSize(b: nat): nat
  {
    if b % TypeBlocks == 0 then TimingBlockSize else PanelBlockSize
  }

  /** The packets of all blocks in order: the commands sent. */
  function Flatten(blocks: seq<seq<Chunk>>): seq<Chunk>
  {
    if blocks == [] then [] else Flatten(blocks[..|blocks| - 1]) + blocks[|blocks| - 1]
  }

  lemma FlattenAppend(blocks: seq<seq<Chunk>>, block: seq<Chunk>)
    ensures Flatten(blocks + [block]) == Flatten(blocks) + block
  {
    assert (blocks + [block])[..|blocks|] == blocks;
  }

  /** Blocks and packets of a whole upload: ten blocks for each of the two
      types, one packet for a timing block and four for a panel block. */
  const UploadBlocks: nat := 20
  const UploadCommands: nat := 74

  /** Every block is the b-th in the order, cut into packets. */
  predicate InOrder(blocks: seq<seq<Chunk>>)
  {
    forall b :: 0 <= b < |blocks| ==> Block(blocks[b], BlockPanel(b), b / TypeBlocks, BlockSize(b))
  }

  /** Appending block j of type t keeps the blocks in order. */
  lemma AppendInOrder(blocks: seq<seq<Chunk>>, block: seq<Chunk>, t: nat, j: nat)
    requires t < LightsTypes && j < TypeBlocks && |blocks| == 10 * t + j && InOrder(blocks)
    requires Block(block, if j == 0 then MasterPanel else j - 1, t, if j == 0 then TimingBlockSize else PanelBlockSize)
    ensures InOrder(blocks + [block])
  {
    hide Block;
    var b := |blocks|;
    assert b / TypeBlocks == t && b % TypeBlocks == j;
    forall c | 0 <= c < b + 1
      ensures Block((blocks + [block])[c], BlockPanel(c), c / TypeBlocks, BlockSize(c))
    {
      if c < b {
        assert (blocks + [block])[c] == blocks[c];
      }
    }
  }

  /** `SMX_LightsUpload_PrepareUpload`: after the checks, the blocks of
      the released then the pressed type, each cut into packets. A timing
      block takes one packet and a panel block four, so 74 commands are
      sent. */
  method PrepareUpload(animations: seq<seq<PanelAnimation.Animation>>, palettesFit: seq<seq<bool>>)
    returns (r: Result<seq<seq<Chunk>>, string>)
    requires |animations| == PanelAnimation.PanelsPerPad && |palettesFit| == PanelAnimation.PanelsPerPad
    requires forall p :: 0 <= p < |animations| ==> |animations[p]| == LightsTypes && |palettesFit[p]| == LightsTypes
    ensures r.Ok? <==> CheckUpload(animations, palettesFit).Ok?
    ensures r.Err? ==> r.error == CheckUpload(animations, palettesFit).error
    ensures r.Ok? ==> |r.value| == UploadBlocks && InOrder(r.value)
    ensures r.Ok? ==> |Flatten(r.value)| == UploadCommands
  {
    var check := CheckUpload(animations, palettesFit);
    if check.Err? {
      return Err(check.error);
    }
    hide Block, Flatten, CheckUpload;
    var blocks: seq<seq<Chunk>> := [];
    var t := 0;
    while t < 2
      invariant 0 <= t <= 2
      invariant |blocks| == 10 * t
      invariant InOrder(blocks)
      invariant |Flatten(blocks)| == 37 * t
    {
      var timing := CreateUploadPackets(TimingBlockSize, MasterPanel, t);
      FlattenAppend(blocks, timing);
      AppendInOrder(blocks, timing, t, 0);
      blocks := blocks + [timing];
      var panel := 0;
      while panel < PanelAnimation.PanelsPerPad
        invariant 0 <= panel <= PanelAnimation.PanelsPerPad
        invariant |blocks| == 10 * t + 1 + panel
        invariant InOrder(blocks)
        invariant |Flatten(blocks)| == 37 * t + 1 + 4 * panel
      {
        var block := CreateUploadPackets(PanelBlockSize, panel, t);
        FlattenAppend(blocks, block);
        AppendInOrder(blocks, block, t, panel + 1);
        blocks := blocks + [block];
        panel := panel + 1;
      }
      t := t + 1;
    }
    return Ok(blocks);
  }

  /** The progress `SMX_LightsUpload_BeginUpload` reports as written when
      command i of n has been sent: i·100/(n−1), held at 99 before the last
      command. With a single command the divisor is 0. */
  function ProgressAsWritten(i: nat, n: nat): (p: Option<int>)
    requires i < n
    ensures p.None? <==> n == 1
  {
    if n - 1 == 0 then None
    else
      var q := i * 100 / (n - 1);
      Some(if i != n - 1 && q > 99 then 99 else q)
  }

  /** One command: the progress divides by zero. */
  lemma ProgressAsWrittenSingleCommand()
    ensures ProgressAsWritten(0, 1).None?
  {
  }

  /** The progress with a single command reported as done. Before the
      last command i·100/(n−1) is already below 100, so the cap at 99 never
      changes it. */
  function Progress(i: nat, n: nat): (p: nat)
    requires i < n
    ensures p <= 100
    ensures p == 100 <==> i == n - 1
    ensures n > 1 ==> ProgressAsWritten(i, n) == Some(p)
  {
    if n == 1 then 100
    else
      ProgressBounds(i, n - 1);
      i * 100 / (n - 1)
  }

  /** Progress never goes back as commands complete. */
  lemma ProgressMonotone(i: nat, j: nat, n: nat)
    requires i <= j < n
    ensures Progress(i, n) <= Progress(j, n)
  {
    if n > 1 {
      DivMonotone(i * 100, j * 100, n - 1);
    }
  }

  lemma ProgressBounds(i: nat, d: nat)
    requires 0 < d && i <= d
    ensures i * 100 / d <= 100
    ensures i * 100 / d == 100 <==> i == d
  {
    if i < d {
      MulStrict(i, d, 100);
      DivBelow(i * 100, d, 100);
    } else {
      DivExact(100, d);
    }
  }

  lemma DivExact(q: nat, d: nat)
    requires d > 0
    ensures q * d / d == q
  {
    var x := q * d / d;
    ModUnique(q * d, d, q, 0);
    DivMod(q * d, d);
    MulStrict(x, q, d);
    MulStrict(q, x, d);
  }

  lemma DivMonotone(a: nat, b: nat, d: nat)
    requires a <= b && d > 0
    ensures a / d <= b / d
  {
    DivMod(b, d);
    assert b < d * (b / d + 1);
    DivBelow(a, d, b / d + 1);
  }
}
