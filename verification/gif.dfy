/**
 The animated-GIF decoder (`GIFDecoder` and `DecodeGIF` in `SMXGif.cpp`):
 the header, the logical screen descriptor and global colour table, then a
 sequence of blocks (extensions, images and the trailer) decoded onto one
 RGBA canvas. Every frame is the whole canvas after drawing an image; a
 frame identical to the previous one only lengthens it. Any error makes the
 whole decode fail (`DecodeGIF` returns false), modelled as `None`.
 Interlaced images are decoded as if they were not, as in the decoder.
*/
module Gif {
  import opened Wrappers
  import opened Bytes
  import opened GifStream
  import opened GifImage
  import Lzw

  /** The decoder's palettes always have 256 slots; those past the colours
      read stay at the default colour. */
  const PaletteSlots: nat := 256

  /** "GIF87a" and "GIF89a" as bytes. */
  const Gif87a: seq<Byte> := [0x47, 0x49, 0x46, 0x38, 0x37, 0x61]
  const Gif89a: seq<Byte> := [0x47, 0x49, 0x46, 0x38, 0x39, 0x61]

  const ExtensionBlock: Byte := 0x21
  const ImageBlock: Byte := 0x2C
  const TrailerBlock: Byte := 0x3B
  const GraphicControlLabel: Byte := 0xF9

  // ----- colour tables -----

  /** The number of colours of a colour table whose size field is n. */
  function TableSize(field: nat): (n: nat)
    requires field < 8
    ensures 2 <= n <= PaletteSlots
  {
    assert Pow2(1) == 2 && Pow2(8) == 256;
    Lzw.Pow2Monotone(1, field + 1);
    Lzw.Pow2Monotone(field + 1, 8);
    Pow2(field + 1)
  }

  /** `ReadPalette`: `count` colours of three bytes each (red, green, blue),
      every one opaque. */
  function ReadPalette(s: Stream, count: nat): (r: Option<(seq<Color>, Stream)>)
    requires count <= PaletteSlots
    ensures r.Some? <==> count == 0 || s.pos + 3 * count <= |s.data|
    ensures r.Some? ==> |r.value.0| == PaletteSlots && r.value.1 == Stream(s.data, s.pos + 3 * count)
    ensures r.Some? ==> forall i :: 0 <= i < count ==>
      r.value.0[i] == Color(s.data[s.pos + 3 * i], s.data[s.pos + 3 * i + 1], s.data[s.pos + 3 * i + 2], 0xFF)
    ensures r.Some? ==> forall i :: count <= i < PaletteSlots ==> r.value.0[i] == Transparent
  {
    match ReadBytes(s, 3 * count)
    case None => None
    case Some((bytes, s1)) =>
      Some((seq(PaletteSlots, i requires 0 <= i < PaletteSlots =>
              if i < count then Color(bytes[3 * i], bytes[3 * i + 1], bytes[3 * i + 2], 0xFF) else Transparent), s1))
  }

  /** A colour table as stored: red, green and blue of each colour. */
  function TableBytes(colors: seq<Color>): (r: seq<Byte>)
    ensures |r| == 3 * |colors|
    ensures forall i :: 0 <= i < |colors| ==>
      r[3 * i] == colors[i].r && r[3 * i + 1] == colors[i].g && r[3 * i + 2] == colors[i].b
  {
    if colors == [] then []
    else
      var rest := TableBytes(colors[1..]);
      var r := [colors[0].r, colors[0].g, colors[0].b] + rest;
      assert forall i :: 1 <= i < |colors| ==> r[3 * i] == rest[3 * (i - 1)] && colors[i] == colors[1..][i - 1];
      r
  }

  /** Reading a stored colour table gives back its colours, made opaque. */
  lemma ReadPaletteOfTable(prefix: seq<Byte>, colors: seq<Color>, rest: seq<Byte>)
    requires |colors| <= PaletteSlots
    ensures var data := prefix + TableBytes(colors) + rest;
      var r := ReadPalette(Stream(data, |prefix|), |colors|);
      && r.Some? && r.value.1.pos == |prefix| + 3 * |colors|
      && forall i :: 0 <= i < |colors| ==> r.value.0[i] == colors[i].(a := 0xFF)
  {
    hide *;
    var data := prefix + TableBytes(colors) + rest;
    var t := TableBytes(colors);
    forall i | 0 <= i < |colors|
      ensures data[|prefix| + 3 * i] == colors[i].r && data[|prefix| + 3 * i + 1] == colors[i].g
      ensures data[|prefix| + 3 * i + 2] == colors[i].b
    {
      assert data[|prefix| + 3 * i] == t[3 * i];
      assert data[|prefix| + 3 * i + 1] == t[3 * i + 1];
      assert data[|prefix| + 3 * i + 2] == t[3 * i + 2];
    }
  }

  // ----- decoder state -----

  /** What applies to the next image: the screen size and background, the
      graphic control values (transparent index, delay in hundredths of a
      second, disposal), and the global colour table. */
  datatype GlobalData = GlobalData(
    width: U16, height: U16, backgroundIndex: Byte,
    transparencyIndex: Option<Byte>, duration: U16, disposal: nat,
    hasPalette: bool, palette: seq<Color>)

  /** The stream, the canvas, and the number of frames kept so far. */
  datatype Decoder = Decoder(stream: Stream, image: Image, frame: nat)

  /** The canvas matches the screen, and the palette has its 256 slots. */
  predicate DecoderShaped(dec: Decoder, g: GlobalData)
  {
    Shaped(dec.image) && dec.image.width == g.width && dec.image.height == g.height && |g.palette| == PaletteSlots
  }

  /** One decoded frame: the screen size, how long it shows, and the
      canvas. */
  datatype Frame = Frame(width: nat, height: nat, milliseconds: nat, image: Image)

  // ----- images -----

  /** An image descriptor: position and size on the canvas, and flags. */
  datatype Descriptor = Descriptor(left: U16, top: U16, width: U16, height: U16, flags: Byte)

  /** The four little-endian fields and the flags byte of an image
      descriptor. */
  function ReadDescriptor(s: Stream): (r: Option<(Descriptor, Stream)>)
    ensures r.Some? <==> s.pos + 9 <= |s.data|
    ensures r.Some? ==> r.value.1 == Stream(s.data, s.pos + 9) && Remaining(r.value.1) < Remaining(s)
  {
    match ReadBytes(s, 9)
    case None => None
    case Some((b, s1)) =>
      Some((Descriptor(Le16(b[0], b[1]), Le16(b[2], b[3]), Le16(b[4], b[5]), Le16(b[6], b[7]), b[8]), s1))
  }

  /** The colour of a pixel's index, or `None` for the transparent index. */
  function PixelColor(palette: seq<Color>, transparency: Option<Byte>, index: Byte): (c: Option<Color>)
    requires |palette| == PaletteSlots
    ensures c.None? <==> transparency == Some(index)
    ensures c.Some? ==> c.value == palette[index]
  {
    if transparency == Some(index) then None else Some(palette[index])
  }

  /** The disposal applied after an image is shown: nothing (0, 1 and the
      values the decoder does not know), clearing the image's rectangle to
      the background (2), or restoring what was under it (3). The
      rectangle's saved contents, if any; a crop outside the canvas is an
      error. */
  function DisposeImage(image: Image, g: GlobalData, palette: seq<Color>, d: Descriptor): (r: Option<Option<Image>>)
    requires Shaped(image) && |palette| == PaletteSlots
    ensures r.Some? && r.value.Some? ==> Shaped(r.value.value) && r.value.value.width == d.width && r.value.value.height == d.height
    ensures g.disposal == 3 ==> (r.Some? ==> r == Some(Crop(image, d.left, d.top, d.width, d.height)))
    ensures g.disposal == 2 ==>
      r == Some(Some(Clear(Init(d.width, d.height), if g.transparencyIndex.Some? then Transparent else palette[g.backgroundIndex])))
    ensures g.disposal != 2 && g.disposal != 3 ==> r == Some(None)
  {
    if g.disposal == 2 then
      var background := if g.transparencyIndex.Some? then Transparent else palette[g.backgroundIndex];
      Some(Some(Clear(Init(d.width, d.height), background)))
    else if g.disposal == 3 then
      match Crop(image, d.left, d.top, d.width, d.height)
      case None => None
      case Some(c) => Some(Some(c))
    else Some(None)
  }

  /** The colour table an image uses: its own if its flags say it has one,
      otherwise the global one; with neither the file is invalid. */
  function ImagePalette(s: Stream, d: Descriptor, g: GlobalData): (r: Option<(seq<Color>, Stream)>)
    requires |g.palette| == PaletteSlots
    ensures r.Some? ==> |r.value.0| == PaletteSlots && r.value.1.data == s.data && Remaining(r.value.1) <= Remaining(s)
    ensures d.flags / 0x80 % 2 == 1 ==> r == ReadPalette(s, TableSize(d.flags % 8))
    ensures d.flags / 0x80 % 2 == 0 ==> (r.Some? <==> g.hasPalette) && (r.Some? ==> r.value == (g.palette, s))
  {
    if d.flags / 0x80 % 2 == 1 then ReadPalette(s, TableSize(d.flags % 8))
    else if g.hasPalette then Some((g.palette, s))
    else None
  }

  /** The canvas an image is drawn on: before the first frame it is cleared,
      to transparent if a transparent index is set and otherwise to the
      background colour; later frames draw over the previous canvas. */
  function StartCanvas(image: Image, frame: nat, g: GlobalData, palette: seq<Color>): (r: Image)
    requires Shaped(image) && |palette| == PaletteSlots
    ensures Shaped(r) && r.width == image.width && r.height == image.height
    ensures frame != 0 ==> r == image
    ensures frame == 0 ==> forall i :: 0 <= i < |r.pixels| ==>
      r.pixels[i] == if g.transparencyIndex.Some? then Transparent else palette[g.backgroundIndex]
  {
    if frame != 0 then image
    else if g.transparencyIndex.Some? then Clear(image, Transparent)
    else Clear(image, palette[g.backgroundIndex])
  }

  /** The writes that draw an image's first w*h pixels in row order. */
  function PixelWrites(canvas: Image, palette: seq<Color>, transparency: Option<Byte>, d: Descriptor, indices: seq<Byte>): (ws: seq<Write>)
    requires |palette| == PaletteSlots && |indices| >= d.width * d.height
    ensures |ws| == d.width * d.height
    ensures forall k :: 0 <= k < |ws| ==>
      d.width > 0 && ws[k] == Write(RectIndex(canvas.width, d.left, d.top, d.width, k), PixelColor(palette, transparency, indices[k]))
  {
    var colors := seq(d.width * d.height, k requires 0 <= k < d.width * d.height => PixelColor(palette, transparency, indices[k]));
    RectWrites(canvas.width, d.left, d.top, d.width, d.height, colors)
  }

  /** The image drawn onto the canvas; a pixel that is drawn outside the
      canvas's memory is an error. */
  function DrawPixels(canvas: Image, palette: seq<Color>, transparency: Option<Byte>, d: Descriptor, indices: seq<Byte>): (r: Option<Image>)
    requires Shaped(canvas) && |palette| == PaletteSlots && |indices| >= d.width * d.height
    ensures r.Some? ==> Shaped(r.value) && r.value.width == canvas.width && r.value.height == canvas.height
    ensures r.Some? <==> forall k :: 0 <= k < d.width * d.height && transparency != Some(indices[k]) ==>
      d.width > 0 && RectIndex(canvas.width, d.left, d.top, d.width, k) < |canvas.pixels|
  {
    var ws := PixelWrites(canvas, palette, transparency, d, indices);
    match ApplyWrites(canvas.pixels, ws)
    case None => None
    case Some(pixels) => Some(Image(canvas.width, canvas.height, pixels))
  }

  /** Inside a rectangle that fits the canvas, each pixel gets its palette
      colour, and a transparent pixel keeps the canvas's colour. */
  lemma DrawPixelsAt(canvas: Image, palette: seq<Color>, transparency: Option<Byte>, d: Descriptor, indices: seq<Byte>, k: nat)
    requires Shaped(canvas) && |palette| == PaletteSlots && |indices| >= d.width * d.height
    requires d.left + d.width <= canvas.width && d.top + d.height <= canvas.height && 0 < d.width && k < d.width * d.height
    ensures DrawPixels(canvas, palette, transparency, d, indices).Some?
    ensures var i := RectIndex(canvas.width, d.left, d.top, d.width, k);
      && i < |canvas.pixels|
      && DrawPixels(canvas, palette, transparency, d, indices).value.pixels[i] ==
        if transparency == Some(indices[k]) then canvas.pixels[i] else palette[indices[k]]
  {
    hide RectIndex, RectWrites;
    var ws := PixelWrites(canvas, palette, transparency, d, indices);
    forall j | 0 <= j < |ws| ensures ws[j].index < |canvas.pixels| {
      RectIndexInside(canvas, d.left, d.top, d.width, d.height, j);
    }
    var i := RectIndex(canvas.width, d.left, d.top, d.width, k);
    RectIndexInside(canvas, d.left, d.top, d.width, d.height, k);
    forall j | 0 <= j < |ws| && j != k ensures ws[j].index != i {
      RectIndexInjective(canvas.width, d.left, d.top, d.width, j, k);
    }
    ApplyWritesAt(canvas.pixels, ws, i);
    LastWriteOnly(ws, i, canvas.pixels[i], k);
  }

  /** Drawing a decoded image: the frame shown (the canvas with the image
      drawn) and the canvas kept for the next image (with the disposal
      applied to the image's rectangle). */
  function DrawImage(canvas: Image, g: GlobalData, palette: seq<Color>, d: Descriptor, indices: seq<Byte>): (r: Option<(Image, Image)>)
    requires Shaped(canvas) && |palette| == PaletteSlots && |indices| >= d.width * d.height
    ensures r.Some? ==> Shaped(r.value.0) && r.value.0.width == canvas.width && r.value.0.height == canvas.height
    ensures r.Some? ==> Shaped(r.value.1) && r.value.1.width == canvas.width && r.value.1.height == canvas.height
    ensures r.Some? ==> Some(r.value.0) == DrawPixels(canvas, palette, g.transparencyIndex, d, indices)
    ensures r.Some? && (g.disposal < 2 || g.disposal > 3 || d.width == 0) ==> r.value.1 == r.value.0
  {
    match DisposeImage(canvas, g, palette, d)
    case None => None
    case Some(dispose) =>
      match DrawPixels(canvas, palette, g.transparencyIndex, d, indices)
      case None => None
      case Some(out) =>
        if dispose.Some? && d.width != 0 then
          match Blit(out, dispose.value, d.left, d.top, d.width, d.height)
          case None => None
          case Some(next) => Some((out, next))
        else Some((out, out))
  }

  /** `GIFDecoder::DecodeImage`: read one image and draw it onto the
      canvas. The frame shown is the canvas right after drawing; the canvas
      kept for the next image has the disposal applied. Too few pixels for
      the image's rectangle is an error. */
  function DecodeFrameImage(dec: Decoder, g: GlobalData): (r: Option<(Image, Decoder)>)
    requires DecoderShaped(dec, g)
    ensures r.Some? ==> DecoderShaped(r.value.1, g) && r.value.1.frame == dec.frame
    ensures r.Some? ==> Shaped(r.value.0) && r.value.0.width == g.width && r.value.0.height == g.height
    ensures r.Some? ==> r.value.1.stream.data == dec.stream.data && Remaining(r.value.1.stream) < Remaining(dec.stream)
  {
    hide Lzw.DecodeImageData, DrawImage, ImagePalette, StartCanvas, ReadDescriptor, Remaining;
    match ReadDescriptor(dec.stream)
    case None => None
    case Some((d, s1)) =>
      match ImagePalette(s1, d, g)
      case None => None
      case Some((palette, s2)) =>
        var canvas := StartCanvas(dec.image, dec.frame, g, palette);
        match Lzw.DecodeImageData(s2)
        case None => None
        case Some((indices, s3)) =>
          if |indices| < d.width * d.height then None
          else
            match DrawImage(canvas, g, palette, d, indices)
            case None => None
            case Some((out, next)) => Some((out, Decoder(s3, next, dec.frame)))
  }

  /** Without a global or a local colour table an image cannot be decoded. */
  lemma NoPaletteFails(dec: Decoder, g: GlobalData)
    requires DecoderShaped(dec, g) && !g.hasPalette
    requires ReadDescriptor(dec.stream).Some? && ReadDescriptor(dec.stream).value.0.flags / 0x80 % 2 == 0
    ensures DecodeFrameImage(dec, g).None?
  {
    hide Lzw.DecodeImageData, DrawImage, StartCanvas, ReadDescriptor;
  }

  /** An image whose decompressed data holds fewer indices than its
      rectangle has pixels cannot be decoded. */
  lemma TooFewPixelsFails(dec: Decoder, g: GlobalData, d: Descriptor, s1: Stream, palette: seq<Color>, s2: Stream, indices: seq<Byte>, s3: Stream)
    requires DecoderShaped(dec, g)
    requires ReadDescriptor(dec.stream) == Some((d, s1))
    requires ImagePalette(s1, d, g) == Some((palette, s2))
    requires Lzw.DecodeImageData(s2) == Some((indices, s3))
    requires |indices| < d.width * d.height
    ensures DecodeFrameImage(dec, g).None?
  {
  }

  // ----- frames -----

  /** Adding a decoded frame: if its canvas equals the last frame's, the
      last frame is lengthened instead. */
  function AddFrame(frames: seq<Frame>, f: Frame): (r: (seq<Frame>, bool))
    ensures r.1 <==> frames != [] && frames[|frames| - 1].image == f.image
    ensures r.1 ==>
      && |r.0| == |frames| && r.0[..|frames| - 1] == frames[..|frames| - 1]
      && r.0[|frames| - 1] == frames[|frames| - 1].(milliseconds := frames[|frames| - 1].milliseconds + f.milliseconds)
    ensures !r.1 ==> r.0 == frames + [f]
  {
    if frames != [] && frames[|frames| - 1].image == f.image then
      var last := frames[|frames| - 1];
      (frames[..|frames| - 1] + [last.(milliseconds := last.milliseconds + f.milliseconds)], true)
    else (frames + [f], false)
  }

  /** No frame repeats the one before it. */
  predicate NoRepeats(frames: seq<Frame>)
  {
    forall i :: 0 < i < |frames| ==> frames[i - 1].image != frames[i].image
  }

  /** How long the frames show in all. */
  function TotalMilliseconds(frames: seq<Frame>): nat
  {
    if frames == [] then 0 else TotalMilliseconds(frames[..|frames| - 1]) + frames[|frames| - 1].milliseconds
  }

  /** Merging keeps consecutive frames distinct and loses no time. */
  lemma AddFrameKeeps(frames: seq<Frame>, f: Frame)
    requires NoRepeats(frames)
    ensures NoRepeats(AddFrame(frames, f).0)
    ensures TotalMilliseconds(AddFrame(frames, f).0) == TotalMilliseconds(frames) + f.milliseconds
  {
    var (r, merged) := AddFrame(frames, f);
    if merged {
      assert r[..|r| - 1] == frames[..|frames| - 1];
      forall i | 0 < i < |r| ensures r[i - 1].image != r[i].image {
        assert r[i - 1].image == frames[i - 1].image && r[i].image == frames[i].image;
      }
    } else {
      assert r[..|r| - 1] == frames;
    }
  }

  /** Every frame has the screen's size and canvas, and lasts a whole number
      of hundredths of a second. */
  predicate FramesShaped(frames: seq<Frame>, width: nat, height: nat)
  {
    forall i :: 0 <= i < |frames| ==>
      && frames[i].width == width && frames[i].height == height
      && Shaped(frames[i].image) && frames[i].image.width == width && frames[i].image.height == height
      && frames[i].milliseconds % 10 == 0
  }

  /** Adding a frame of the screen's size keeps every frame that size. */
  lemma AddFrameShaped(frames: seq<Frame>, f: Frame, width: nat, height: nat)
    requires FramesShaped(frames, width, height)
    requires f.width == width && f.height == height && f.milliseconds % 10 == 0
    requires Shaped(f.image) && f.image.width == width && f.image.height == height
    ensures FramesShaped(AddFrame(frames, f).0, width, height)
  {
    var (r, merged) := AddFrame(frames, f);
    if merged {
      assert forall i :: 0 <= i < |frames| - 1 ==> r[i] == frames[i];
    }
  }

  // ----- blocks -----

  /** The graphic control extension's first sub-block: the flags, the delay
      and the transparent index; a missing or short sub-block is an error.
      Bit 0 of the flags says whether the index is used; the disposal is
      taken as the four bits from bit 2. */
  function ReadGraphicControl(s: Stream, g: GlobalData): (r: Option<(GlobalData, Stream)>)
    ensures r.Some? ==> r.value.0 == g.(transparencyIndex := r.value.0.transparencyIndex, duration := r.value.0.duration, disposal := r.value.0.disposal)
    ensures r.Some? ==> r.value.1.data == s.data && Remaining(r.value.1) <= Remaining(s)
    ensures r.Some? ==> r.value.0.disposal < 16
    ensures r.Some? ==>
      && s.pos + 5 <= |s.data|
      && r.value.0.duration == Le16(s.data[s.pos + 2], s.data[s.pos + 3])
      && r.value.0.disposal == s.data[s.pos + 1] / 4 % 16
      && (r.value.0.transparencyIndex.Some? <==> s.data[s.pos + 1] % 2 == 1)
  {
    match ReadByte(s)
    case None => None
    case Some((size, s1)) =>
      if size == 0 then None
      else
        match ReadBytes(s1, size)
        case None => None
        case Some((packet, s2)) =>
          if |packet| < 4 then None
          else
            var flags := packet[0];
            var transparency := if flags % 2 == 1 then Some(packet[3]) else None;
            Some((g.(transparencyIndex := transparency, duration := Le16(packet[1], packet[2]), disposal := flags / 4 % 16), s2))
  }

  /** The loop that reads the remaining sub-blocks of an extension. */
  function SkipPackets(s: Stream): (r: Option<Stream>)
    decreases Remaining(s)
    ensures r.Some? ==> r.value.data == s.data && Remaining(r.value) < Remaining(s)
  {
    match ReadByte(s)
    case None => None
    case Some((size, s1)) =>
      if size == 0 then Some(s1)
      else
        match ReadBytes(s1, size)
        case None => None
        case Some((_, s2)) => SkipPackets(s2)
  }

  /** Reading the sub-blocks of an extension one by one ends where
      skipping over them does, and fails where skipping does. */
  lemma {:induction false} SkipPacketsIsSkipBlocks(s: Stream)
    ensures SkipPackets(s) == SkipBlocks(s)
    decreases Remaining(s)
  {
    if s.pos < |s.data| && s.data[s.pos] != 0 {
      var s1 := Stream(s.data, s.pos + 1);
      var size := s.data[s.pos];
      if s1.pos + size <= |s.data| {
        SkipPacketsIsSkipBlocks(Stream(s.data, s1.pos + size));
      }
    }
  }

  /** The block loop of `ReadAllFrames`: an extension, an image or the
      trailer, until the trailer; any other block type is an error. After a
      new frame the graphic control values go back to the saved global
      ones; after a merged frame they stay. */
  function Blocks(dec: Decoder, g: GlobalData, saved: GlobalData, frames: seq<Frame>): (r: Option<seq<Frame>>)
    requires DecoderShaped(dec, g) && saved.width == g.width && saved.height == g.height && saved.palette == g.palette
    requires NoRepeats(frames) && FramesShaped(frames, g.width, g.height)
    decreases Remaining(dec.stream)
    ensures r.Some? ==> NoRepeats(r.value) && FramesShaped(r.value, g.width, g.height)
    ensures r.Some? ==> |frames| <= |r.value|
  {
    hide DecodeFrameImage, ReadGraphicControl, SkipPackets, AddFrame;
    match ReadByte(dec.stream)
    case None => None
    case Some((blockType, s1)) =>
      if blockType == ExtensionBlock then
        match ReadByte(s1)
        case None => None
        case Some((extensionType, s2)) =>
          var control := if extensionType == GraphicControlLabel then ReadGraphicControl(s2, g) else Some((g, s2));
          match control
          case None => None
          case Some((g1, s3)) =>
            match SkipPackets(s3)
            case None => None
            case Some(s4) => Blocks(dec.(stream := s4), g1, saved, frames)
      else if blockType == ImageBlock then
        match DecodeFrameImage(dec.(stream := s1), g)
        case None => None
        case Some((out, dec1)) =>
          var f := Frame(g.width, g.height, g.duration * 10, out);
          ModUnique(g.duration * 10, 10, g.duration, 0);
          AddFrameKeeps(frames, f);
          AddFrameShaped(frames, f, g.width, g.height);
          var (frames1, merged) := AddFrame(frames, f);
          if merged then Blocks(dec1, g, saved, frames1)
          else Blocks(dec1.(frame := dec1.frame + 1), saved, saved, frames1)
      else if blockType == TrailerBlock then Some(frames)
      else None
  }

  /** The logical screen descriptor (width, height, flags, background
      index, and the aspect ratio, which is ignored) and the global colour
      table if the flags' top bit says there is one. The graphic control
      values start out unset. */
  function ReadScreen(s: Stream): (r: Option<(GlobalData, Stream)>)
    ensures r.Some? <==>
      && s.pos + 7 <= |s.data|
      && (s.data[s.pos + 4] / 0x80 % 2 == 1 ==> ReadPalette(Stream(s.data, s.pos + 7), TableSize(s.data[s.pos + 4] % 8)).Some?)
    ensures r.Some? ==> var (g, s1) := r.value;
      && g.width == Le16(s.data[s.pos], s.data[s.pos + 1]) && g.height == Le16(s.data[s.pos + 2], s.data[s.pos + 3])
      && g.backgroundIndex == s.data[s.pos + 5] && g.hasPalette == (s.data[s.pos + 4] / 0x80 % 2 == 1)
      && g.transparencyIndex.None? && g.duration == 0 && g.disposal == 0 && |g.palette| == PaletteSlots
      && s1.data == s.data && s1.pos >= s.pos + 7
    ensures r.Some? && !r.value.0.hasPalette ==> r.value.1.pos == s.pos + 7
  {
    match ReadBytes(s, 7)
    case None => None
    case Some((screen, s1)) =>
      var flags := screen[4];
      var hasPalette := flags / 0x80 % 2 == 1;
      var read := if hasPalette then ReadPalette(s1, TableSize(flags % 8)) else Some((Repeat(Transparent, PaletteSlots), s1));
      match read
      case None => None
      case Some((palette, s2)) =>
        Some((GlobalData(Le16(screen[0], screen[1]), Le16(screen[2], screen[3]), screen[5], None, 0, 0, hasPalette, palette), s2))
  }

  /** `DecodeGIF`: the frames of a GIF file, or `None` if it cannot be
      decoded. */
  function DecodeGif(data: seq<Byte>): (r: Option<seq<Frame>>)
    ensures r.Some? ==> |data| >= 6 && (data[..6] == Gif87a || data[..6] == Gif89a)
    ensures r.Some? ==>
      && |data| >= 13 && NoRepeats(r.value)
      && FramesShaped(r.value, Le16(data[6], data[7]), Le16(data[8], data[9]))
  {
    match ReadBytes(Stream(data, 0), 6)
    case None => None
    case Some((header, s1)) =>
      if header != Gif87a && header != Gif89a then None
      else
        match ReadScreen(s1)
        case None => None
        case Some((g, s2)) => Blocks(Decoder(s2, Init(g.width, g.height), 0), g, g, [])
  }

  /** An unknown block type fails the decode. */
  lemma UnknownBlockFails(dec: Decoder, g: GlobalData, saved: GlobalData, frames: seq<Frame>)
    requires DecoderShaped(dec, g) && saved.width == g.width && saved.height == g.height && saved.palette == g.palette
    requires NoRepeats(frames) && FramesShaped(frames, g.width, g.height)
    requires dec.stream.pos < |dec.stream.data|
    requires dec.stream.data[dec.stream.pos] !in {ExtensionBlock, ImageBlock, TrailerBlock}
    ensures Blocks(dec, g, saved, frames).None?
  {
  }

  /** The trailer ends the block loop with the frames so far. */
  lemma TrailerEnds(dec: Decoder, g: GlobalData, saved: GlobalData, frames: seq<Frame>)
    requires DecoderShaped(dec, g) && saved.width == g.width && saved.height == g.height && saved.palette == g.palette
    requires NoRepeats(frames) && FramesShaped(frames, g.width, g.height)
    requires dec.stream.pos < |dec.stream.data| && dec.stream.data[dec.stream.pos] == TrailerBlock
    ensures Blocks(dec, g, saved, frames) == Some(frames)
  {
  }

  /** An image block adds a frame that shows for ten times the graphic
      control delay, in milliseconds. A frame equal to the last one only
      lengthens it, and the loop goes on with the same graphic control
      values and frame count; a new frame resets the values to the saved
      ones and counts one more frame. */
  lemma ImageBlockStep(dec: Decoder, g: GlobalData, saved: GlobalData, frames: seq<Frame>, out: Image, dec1: Decoder)
    requires DecoderShaped(dec, g) && saved.width == g.width && saved.height == g.height && saved.palette == g.palette
    requires NoRepeats(frames) && FramesShaped(frames, g.width, g.height)
    requires dec.stream.pos < |dec.stream.data| && dec.stream.data[dec.stream.pos] == ImageBlock
    requires DecodeFrameImage(dec.(stream := Stream(dec.stream.data, dec.stream.pos + 1)), g) == Some((out, dec1))
    ensures var f := Frame(g.width, g.height, g.duration * 10, out);
      var (frames1, merged) := AddFrame(frames, f);
      && DecoderShaped(dec1, g) && NoRepeats(frames1) && FramesShaped(frames1, g.width, g.height)
      && (merged ==> Blocks(dec, g, saved, frames) == Blocks(dec1, g, saved, frames1))
      && (!merged ==> Blocks(dec, g, saved, frames) == Blocks(dec1.(frame := dec1.frame + 1), saved, saved, frames1))
  {
    hide DecodeFrameImage, ReadGraphicControl, SkipPackets, AddFrame, Remaining;
    var f := Frame(g.width, g.height, g.duration * 10, out);
    ModUnique(g.duration * 10, 10, g.duration, 0);
    AddFrameKeeps(frames, f);
    AddFrameShaped(frames, f, g.width, g.height);
  }

  /** The smallest file: a GIF89a header, a 1×1 screen without a colour
      table, and the trailer, has no frames. */
  lemma EmptyGif(data: seq<Byte>)
    requires data == Gif89a + [1, 0, 1, 0, 0, 0, 0, TrailerBlock]
    ensures DecodeGif(data) == Some([])
  {
    hide ReadBytes, Blocks, ReadScreen, Init;
    EmptyGifHeader(data);
    var screen := EmptyGifScreen(data);
    TrailerEnds(Decoder(screen.1, Init(screen.0.width, screen.0.height), 0), screen.0, screen.0, []);
  }

  lemma EmptyGifHeader(data: seq<Byte>)
    requires data == Gif89a + [1, 0, 1, 0, 0, 0, 0, TrailerBlock]
    ensures ReadBytes(Stream(data, 0), 6) == Some((Gif89a, Stream(data, 6)))
  {
    hide ReadBytes;
    var h := ReadBytes(Stream(data, 0), 6);
    assert forall i :: 0 <= i < 6 ==> h.value.0[i] == data[i] == Gif89a[i];
    assert h.value.0 == Gif89a;
  }

  lemma EmptyGifScreen(data: seq<Byte>) returns (screen: (GlobalData, Stream))
    requires data == Gif89a + [1, 0, 1, 0, 0, 0, 0, TrailerBlock]
    ensures ReadScreen(Stream(data, 6)) == Some(screen)
    ensures screen.1.data == data && screen.1.pos == 13 && 13 < |data| && data[13] == TrailerBlock
  {
    hide ReadBytes, ReadScreen;
    assert data[10] == 0 && data[13] == TrailerBlock;
    screen := ReadScreen(Stream(data, 6)).value;
  }
}
