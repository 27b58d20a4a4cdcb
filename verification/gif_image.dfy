/**
 The decoder's RGBA canvas (`SMXGif::GIFImage`): a width, a height and the
 pixels row by row, with pixel (x, y) at index `y * width + x`. Rectangles
 are copied in and out pixel by pixel in row order, so a rectangle that
 sticks out of the right edge wraps onto the next row, as the index
 arithmetic does; an index past the end of the pixels is outside the
 canvas's memory and is a decoding error here.
*/
module GifImage {
  import opened Wrappers
  import opened Bytes

  /** An RGBA colour. The default colour is all zero: transparent black. */
  datatype Color = Color(r: Byte, g: Byte, b: Byte, a: Byte)

  const Transparent: Color := Color(0, 0, 0, 0)

  datatype Image = Image(width: nat, height: nat, pixels: seq<Color>)

  /** One pixel per position. */
  predicate Shaped(img: Image)
  {
    |img.pixels| == img.width * img.height
  }

  /** `Init` on a fresh image: every pixel the default colour. */
  function Init(width: nat, height: nat): (img: Image)
    ensures Shaped(img) && img.width == width && img.height == height
    ensures forall i :: 0 <= i < |img.pixels| ==> img.pixels[i] == Transparent
  {
    Image(width, height, Repeat(Transparent, width * height))
  }

  /** `Clear`: every pixel set to one colour. */
  function Clear(img: Image, c: Color): (r: Image)
    requires Shaped(img)
    ensures Shaped(r) && r.width == img.width && r.height == img.height
    ensures forall i :: 0 <= i < |r.pixels| ==> r.pixels[i] == c
  {
    Image(img.width, img.height, Repeat(c, img.width * img.height))
  }

  // ----- pixel writes -----

  /** Setting one pixel by index; `None` leaves the pixel alone (a
      transparent pixel of a frame) and needs no valid index. */
  datatype Write = Write(index: nat, color: Option<Color>)

  /** Every pixel that is set lies inside the canvas. */
  predicate WritesInside(ws: seq<Write>, size: nat)
  {
    forall k :: 0 <= k < |ws| ==> ws[k].color.Some? ==> ws[k].index < size
  }

  /** The writes applied in order, or an error if one of them is outside
      the canvas. */
  function ApplyWrites(pixels: seq<Color>, ws: seq<Write>): (r: Option<seq<Color>>)
    decreases |ws|
    ensures r.Some? <==> WritesInside(ws, |pixels|)
    ensures r.Some? ==> |r.value| == |pixels|
  {
    if ws == [] then Some(pixels)
    else
      var last := ws[|ws| - 1];
      assert forall k :: 0 <= k < |ws| - 1 ==> ws[..|ws| - 1][k] == ws[k];
      match ApplyWrites(pixels, ws[..|ws| - 1])
      case None => None
      case Some(p) =>
        if last.color.None? then Some(p)
        else if last.index >= |p| then None
        else Some(p[last.index := last.color.value])
  }

  /** The colour pixel i ends up with: that of the last write that sets
      it, or the old colour if none does. */
  function LastWrite(ws: seq<Write>, i: nat, before: Color): Color
    decreases |ws|
  {
    if ws == [] then before
    else if ws[|ws| - 1].index == i && ws[|ws| - 1].color.Some? then ws[|ws| - 1].color.value
    else LastWrite(ws[..|ws| - 1], i, before)
  }

  /** Applying the writes leaves each pixel with its last written colour. */
  lemma {:induction false} ApplyWritesAt(pixels: seq<Color>, ws: seq<Write>, i: nat)
    requires i < |pixels| && ApplyWrites(pixels, ws).Some?
    ensures ApplyWrites(pixels, ws).value[i] == LastWrite(ws, i, pixels[i])
    decreases |ws|
  {
    if ws != [] {
      ApplyWritesAt(pixels, ws[..|ws| - 1], i);
    }
  }

  /** When only write k can set pixel i, pixel i gets write k's colour, or
      keeps its old one if write k leaves it alone. */
  lemma {:induction false} LastWriteOnly(ws: seq<Write>, i: nat, before: Color, k: nat)
    requires k < |ws| && ws[k].index == i
    requires forall j :: 0 <= j < |ws| && j != k ==> ws[j].index != i
    ensures LastWrite(ws, i, before) == if ws[k].color.Some? then ws[k].color.value else before
    decreases |ws|
  {
    if k < |ws| - 1 {
      LastWriteOnly(ws[..|ws| - 1], i, before, k);
    } else {
      LastWriteNone(ws[..|ws| - 1], i, before);
    }
  }

  /** With no write for pixel i, it keeps its old colour. */
  lemma {:induction false} LastWriteNone(ws: seq<Write>, i: nat, before: Color)
    requires forall j :: 0 <= j < |ws| ==> ws[j].index != i
    ensures LastWrite(ws, i, before) == before
    decreases |ws|
  {
    if ws != [] {
      LastWriteNone(ws[..|ws| - 1], i, before);
    }
  }

  /** Writes that put back each pixel's own colour change nothing. */
  lemma {:induction false} ApplyOwnColors(pixels: seq<Color>, ws: seq<Write>)
    requires forall k :: 0 <= k < |ws| ==> ws[k].index < |pixels| && ws[k].color == Some(pixels[ws[k].index])
    ensures ApplyWrites(pixels, ws) == Some(pixels)
    decreases |ws|
  {
    if ws != [] {
      var init := ws[..|ws| - 1];
      assert forall k :: 0 <= k < |init| ==> init[k] == ws[k];
      ApplyOwnColors(pixels, init);
      var last := ws[|ws| - 1];
      assert pixels[last.index := last.color.value] == pixels;
    }
  }

  // ----- rectangles -----

  /** The canvas index of the k-th pixel, in row order, of a w-wide
      rectangle at (left, top) on a canvas `canvasWidth` wide. */
  function RectIndex(canvasWidth: nat, left: nat, top: nat, w: nat, k: nat): nat
    requires w > 0
  {
    (k / w + top) * canvasWidth + k % w + left
  }

  /** The writes that put `colors`, in row order, into a w×h rectangle. */
  function RectWrites(canvasWidth: nat, left: nat, top: nat, w: nat, h: nat, colors: seq<Option<Color>>): (ws: seq<Write>)
    requires |colors| == w * h
    ensures |ws| == w * h
    ensures forall k :: 0 <= k < |ws| ==> w > 0 && ws[k] == Write(RectIndex(canvasWidth, left, top, w, k), colors[k])
  {
    if w == 0 then [] else seq(w * h, k requires 0 <= k < w * h => Write(RectIndex(canvasWidth, left, top, w, k), colors[k]))
  }

  /** Inside a rectangle that fits the canvas, different pixels have
      different indices. */
  lemma RectIndexInjective(canvasWidth: nat, left: nat, top: nat, w: nat, k1: nat, k2: nat)
    requires w > 0 && left + w <= canvasWidth && k1 != k2
    ensures RectIndex(canvasWidth, left, top, w, k1) != RectIndex(canvasWidth, left, top, w, k2)
  {
    var x1, y1 := k1 % w + left, k1 / w + top;
    var x2, y2 := k2 % w + left, k2 / w + top;
    RowColumnUnique(y1, x1, y2, x2, canvasWidth);
    DivMod(k1, w);
    DivMod(k2, w);
  }

  /** A row and a column inside it determine the row-order index, and back. */
  lemma RowColumnUnique(y1: nat, x1: nat, y2: nat, x2: nat, width: nat)
    requires x1 < width && x2 < width
    ensures y1 * width + x1 == y2 * width + x2 ==> y1 == y2 && x1 == x2
  {
    ModUnique(y1 * width + x1, width, y1, x1);
    ModUnique(y2 * width + x2, width, y2, x2);
    MulStrict(y1, y2, width);
    MulStrict(y2, y1, width);
  }

  /** A rectangle that fits a shaped canvas has all its indices inside. */
  lemma RectIndexInside(img: Image, left: nat, top: nat, w: nat, h: nat, k: nat)
    requires Shaped(img) && w > 0 && left + w <= img.width && top + h <= img.height && k < w * h
    ensures RectIndex(img.width, left, top, w, k) < |img.pixels|
  {
    var x, y := k % w + left, k / w + top;
    DivBelow(k, w, h);
    assert y + 1 <= img.height && x < img.width;
    MulMonotone(y + 1, img.height, img.width);
    assert y * img.width + x < (y + 1) * img.width;
  }

  /** `CropImage`: a w×h image read from the rectangle at (left, top), or an
      error if the rectangle reaches past the canvas's pixels. */
  function Crop(img: Image, left: nat, top: nat, w: nat, h: nat): (r: Option<Image>)
    ensures r.Some? <==> w == 0 || forall k :: 0 <= k < w * h ==> RectIndex(img.width, left, top, w, k) < |img.pixels|
    ensures r.Some? ==> Shaped(r.value) && r.value.width == w && r.value.height == h
    ensures r.Some? ==> forall k :: 0 <= k < w * h ==> w > 0 && r.value.pixels[k] == img.pixels[RectIndex(img.width, left, top, w, k)]
  {
    if w == 0 then Some(Image(0, h, []))
    else if forall k :: 0 <= k < w * h ==> RectIndex(img.width, left, top, w, k) < |img.pixels| then
      Some(Image(w, h, seq(w * h, k requires 0 <= k < w * h => img.pixels[RectIndex(img.width, left, top, w, k)])))
    else None
  }

  /** `Blit`: a w×h image written into the rectangle at (left, top), or an
      error if the rectangle reaches past the canvas's pixels. */
  function Blit(img: Image, src: Image, left: nat, top: nat, w: nat, h: nat): (r: Option<Image>)
    requires Shaped(src) && src.width == w && src.height == h
    ensures r.Some? ==> r.value.width == img.width && r.value.height == img.height && |r.value.pixels| == |img.pixels|
  {
    var ws := RectWrites(img.width, left, top, w, h, seq(w * h, k requires 0 <= k < w * h => Some(src.pixels[k])));
    match ApplyWrites(img.pixels, ws)
    case None => None
    case Some(p) => Some(Image(img.width, img.height, p))
  }

  /** Putting back what was cropped from an image restores that image. */
  lemma BlitOfCrop(img: Image, left: nat, top: nat, w: nat, h: nat)
    requires Crop(img, left, top, w, h).Some?
    ensures Blit(img, Crop(img, left, top, w, h).value, left, top, w, h) == Some(img)
  {
    var c := Crop(img, left, top, w, h).value;
    var ws := RectWrites(img.width, left, top, w, h, seq(w * h, k requires 0 <= k < w * h => Some(c.pixels[k])));
    ApplyOwnColors(img.pixels, ws);
  }

  /** Reading back a rectangle that fits the canvas gives what was written
      there. */
  lemma CropOfBlit(img: Image, src: Image, left: nat, top: nat, w: nat, h: nat)
    requires Shaped(img) && Shaped(src) && src.width == w && src.height == h
    requires left + w <= img.width && top + h <= img.height
    ensures Blit(img, src, left, top, w, h).Some?
    ensures Crop(Blit(img, src, left, top, w, h).value, left, top, w, h) == Some(src)
  {
    var colors := seq(w * h, k requires 0 <= k < w * h => Some(src.pixels[k]));
    var ws := RectWrites(img.width, left, top, w, h, colors);
    forall k | 0 <= k < |ws| ensures ws[k].index < |img.pixels| {
      RectIndexInside(img, left, top, w, h, k);
    }
    var b := Blit(img, src, left, top, w, h).value;
    if w > 0 {
      forall k | 0 <= k < w * h ensures b.pixels[RectIndex(img.width, left, top, w, k)] == src.pixels[k] {
        var i := RectIndex(img.width, left, top, w, k);
        RectIndexInside(img, left, top, w, h, k);
        forall j | 0 <= j < |ws| && j != k ensures ws[j].index != i {
          RectIndexInjective(img.width, left, top, w, j, k);
        }
        ApplyWritesAt(img.pixels, ws, i);
        LastWriteOnly(ws, i, img.pixels[i], k);
      }
      forall k | 0 <= k < w * h ensures RectIndex(img.width, left, top, w, k) < |b.pixels| {
        RectIndexInside(img, left, top, w, h, k);
      }
      var c := Crop(b, left, top, w, h).value;
      assert c.pixels == src.pixels;
    } else {
      assert |src.pixels| == 0;
    }
  }
}
