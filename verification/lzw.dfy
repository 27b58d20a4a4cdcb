/**
 The variable-length-code LZW decompressor of the GIF decoder
 (`LWZDecoder::DecodeImage` in `SMXGif.cpp`, after Appendix F of the GIF89a
 specification). The decoder keeps its dictionary as linked (character,
 prefix code) pairs walked backwards; here each entry is the byte string it
 stands for, which is what the walk produces.
*/
module Lzw {
  import opened Wrappers
  import opened Bytes
  import opened GifStream

  /** The widest code: 12 bits, so at most 4096 dictionary entries. */
  const GifBits: nat := 12
  /** The largest initial code size whose clear code, end code and first
      free slot fit in the 4096-entry dictionary; a larger one would make
      the decoder write past its dictionary, which the model treats as a
      decoding error. */
  const MaxCodeBits: nat := 11

  /** The decoder's state between codes: the initial code size, the current
      code width, the strings of the dictionary slots from `clear + 2` on,
      and the previous code (`prev_code1`; -1 is `None`). */
  datatype Dictionary = Dictionary(codeBits: nat, width: nat, table: seq<seq<Byte>>, prev: Option<nat>)

  function ClearCode(d: Dictionary): nat
  {
    Pow2(d.codeBits)
  }

  function EndCode(d: Dictionary): nat
  {
    ClearCode(d) + 1
  }

  /** The next dictionary slot to fill. */
  function NextFree(d: Dictionary): nat
  {
    ClearCode(d) + 2 + |d.table|
  }

  /** The state after a clear code, and at the start. */
  function Reset(codeBits: nat): (d: Dictionary)
    ensures d.width == codeBits + 1 && d.table == [] && d.prev.None?
    ensures NextFree(d) == ClearCode(d) + 2
  {
    Dictionary(codeBits, codeBits + 1, [], None)
  }

  /** What holds between codes: the width stays within 12 bits, the
      dictionary within its 4096 slots, every entry is at least two bytes,
      and the previous code has a string. */
  predicate Valid(d: Dictionary)
  {
    && d.codeBits <= MaxCodeBits
    && d.codeBits + 1 <= d.width <= GifBits
    && NextFree(d) <= Pow2(GifBits)
    && (forall i :: 0 <= i < |d.table| ==> |d.table[i]| >= 2)
    && (d.prev.Some? ==> d.prev.value < NextFree(d) && d.prev.value != ClearCode(d) && d.prev.value != EndCode(d))
  }

  lemma {:induction false} Pow2Monotone(a: nat, b: nat)
    requires a <= b
    ensures Pow2(a) <= Pow2(b)
  {
    Pow2Add(a, b - a);
    assert Pow2(b) == Pow2(a) * Pow2(b - a);
  }

  /** A reset dictionary is valid for every code size the decoder takes. */
  lemma ResetValid(codeBits: nat)
    requires codeBits <= MaxCodeBits
    ensures Valid(Reset(codeBits))
  {
    Pow2Monotone(codeBits, MaxCodeBits);
    assert Pow2(MaxCodeBits) == 2048;
    assert Pow2(GifBits) == 4096;
  }

  /** The bytes a code stands for: a literal code is its own byte (a code
      above 255 is truncated, as the decoder's `push_back` does), any other
      code its dictionary entry. */
  function StringOf(d: Dictionary, code: nat): (r: seq<Byte>)
    requires Valid(d) && code < NextFree(d) && code != ClearCode(d) && code != EndCode(d)
    ensures |r| >= 1
  {
    if code < ClearCode(d) then [code % 0x100] else d.table[code - ClearCode(d) - 2]
  }

  /** One data code. A code below the next free slot decodes to its string;
      the next free slot itself, when there is a previous code, decodes to
      the previous string followed by its own first byte; anything else is
      an error. While the dictionary has room, and there is a previous code,
      the previous string followed by the first byte of this output is
      added; filling the last slot of the current width widens the code, up
      to 12 bits. */
  function Step(d: Dictionary, code: nat): (r: Option<(Dictionary, seq<Byte>)>)
    requires Valid(d) && code < Pow2(d.width) && code != ClearCode(d) && code != EndCode(d)
    ensures r.None? <==> code > NextFree(d) || (code == NextFree(d) && d.prev.None?)
    ensures r.Some? ==> var (d1, out) := r.value;
      && Valid(d1) && d1.codeBits == d.codeBits && d1.prev == Some(code)
      && (code < NextFree(d) ==> out == StringOf(d, code))
      && (code == NextFree(d) ==> out == StringOf(d, d.prev.value) + [StringOf(d, d.prev.value)[0]])
      && d.width <= d1.width
      && |d.table| <= |d1.table| <= |d.table| + 1 && d1.table[..|d.table|] == d.table
      && (|d1.table| > |d.table| <==> NextFree(d) < Pow2(d.width) && d.prev.Some?)
      && (|d1.table| > |d.table| ==> d1.table[|d.table|] == StringOf(d, d.prev.value) + [out[0]])
  {
    if code > NextFree(d) || (code == NextFree(d) && d.prev.None?) then None
    else
      var out := if code < NextFree(d) then StringOf(d, code)
        else var p := StringOf(d, d.prev.value); p + [p[0]];
      var room := NextFree(d) < Pow2(d.width);
      var table := if room && d.prev.Some? then d.table + [StringOf(d, d.prev.value) + [out[0]]] else d.table;
      var width := if room && ClearCode(d) + 2 + |table| >= Pow2(d.width) && d.width < GifBits then d.width + 1 else d.width;
      Pow2Monotone(d.width, GifBits);
      Some((Dictionary(d.codeBits, width, table, Some(code)), out))
  }

  /** What one code does to the decoding loop. */
  datatype Outcome = Stop | Continue(dict: Dictionary, bytes: seq<Byte>)

  /** The body of the decoding loop for one code read at the current width:
      the end code stops, the clear code resets the dictionary and the
      width, any other code is a data code. */
  function OnCode(d: Dictionary, code: nat): (r: Option<Outcome>)
    requires Valid(d) && code < Pow2(d.width)
    ensures code == EndCode(d) ==> r == Some(Stop)
    ensures code == ClearCode(d) ==> r == Some(Continue(Reset(d.codeBits), []))
    ensures r.Some? && r.value.Continue? ==> Valid(r.value.dict) && r.value.dict.codeBits == d.codeBits
    ensures code != EndCode(d) && code != ClearCode(d) ==>
      (r.None? <==> code > NextFree(d) || (code == NextFree(d) && d.prev.None?))
  {
    if code == EndCode(d) then Some(Stop)
    else if code == ClearCode(d) then ResetValid(d.codeBits); Some(Continue(Reset(d.codeBits), []))
    else
      match Step(d, code)
      case None => None
      case Some((d1, out)) => Some(Continue(d1, out))
  }

  /** The decoding loop: read a code at the current width, act on it, and
      go on until the end code; the output is everything decoded so far
      followed by what the rest of the data decodes to. */
  function DecodeLoop(d: Dictionary, r: BitReader, out: seq<Byte>): (res: Option<(seq<Byte>, BitReader)>)
    requires Valid(d)
    decreases Remaining(r.stream), r.bitsInBuffer
    ensures res.Some? ==> |out| <= |res.value.0| && res.value.0[..|out|] == out
    ensures res.Some? ==> res.value.1.stream.data == r.stream.data && Remaining(res.value.1.stream) <= Remaining(r.stream)
  {
    match ReadCode(r, d.width)
    case None => None
    case Some((code, r1)) =>
      match OnCode(d, code)
      case None => None
      case Some(Stop) => Some((out, r1))
      case Some(Continue(d1, bytes)) =>
        var res := DecodeLoop(d1, r1, out + bytes);
        if res.Some? then assert (out + bytes)[..|out|] == out; res else res
  }

  /** The image data of one frame: its code size byte, the codes, and the
      sub-blocks left after the end code, which are skipped. */
  function DecodeImageData(s: Stream): (r: Option<(seq<Byte>, Stream)>)
    ensures r.Some? ==> r.value.1.data == s.data && Remaining(r.value.1) < Remaining(s)
  {
    match ReadByte(s)
    case None => None
    case Some((codeBits, s1)) =>
      if codeBits > MaxCodeBits then None
      else
        ResetValid(codeBits);
        match DecodeLoop(Reset(codeBits), StartBits(s1), [])
        case None => None
        case Some((bytes, r)) =>
          match Flush(r)
          case None => None
          case Some(s2) => Some((bytes, s2))
  }

  /** The bytes of the worked example below: the code size 2, one
      sub-block of two bytes, and the terminator. */
  const ExampleData: seq<Byte> := [2, 2, 140, 93, 0]

  /** The codes of the worked example, read from its bytes: clear (4), 1, 6
      and 6 at three bits, then end (5) at four bits. */
  lemma ExampleCode1()
    ensures ReadCode(StartBits(Stream(ExampleData, 1)), 3) == Some((4, BitReader(Stream(ExampleData, 3), 17, 1, 5)))
  {
    assert Pow2(3) == 8;
    assert Fill(StartBits(Stream(ExampleData, 1)), 3) == Fill(BitReader(Stream(ExampleData, 3), 140, 1, 8), 3);
  }

  lemma ExampleCode2()
    ensures ReadCode(BitReader(Stream(ExampleData, 3), 17, 1, 5), 3) == Some((1, BitReader(Stream(ExampleData, 3), 2, 1, 2)))
  {
    assert Pow2(3) == 8;
  }

  lemma ExampleCode3()
    ensures ReadCode(BitReader(Stream(ExampleData, 3), 2, 1, 2), 3) == Some((6, BitReader(Stream(ExampleData, 4), 46, 0, 7)))
  {
    assert Pow2(2) == 4 && Pow2(3) == 8;
    assert Fill(BitReader(Stream(ExampleData, 3), 2, 1, 2), 3) == Fill(BitReader(Stream(ExampleData, 4), 374, 0, 10), 3);
  }

  lemma ExampleCode4()
    ensures ReadCode(BitReader(Stream(ExampleData, 4), 46, 0, 7), 3) == Some((6, BitReader(Stream(ExampleData, 4), 5, 0, 4)))
  {
    assert Pow2(3) == 8;
  }

  lemma ExampleCode5()
    ensures ReadCode(BitReader(Stream(ExampleData, 4), 5, 0, 4), 4) == Some((5, BitReader(Stream(ExampleData, 4), 0, 0, 0)))
  {
    assert Pow2(4) == 16;
  }

  /** The dictionary states of the worked example below: the literal 1,
      then the next free slot 6 after it, then 6 again. */
  lemma ExampleStep1()
    ensures Valid(Reset(2)) && Valid(Dictionary(2, 3, [], Some(1)))
    ensures Step(Reset(2), 1) == Some((Dictionary(2, 3, [], Some(1)), [1]))
  {
    assert Pow2(2) == 4 && Pow2(3) == 8 && Pow2(GifBits) == 4096;
    ResetValid(2);
  }

  lemma ExampleStep2()
    ensures Valid(Dictionary(2, 3, [[1, 1]], Some(6)))
    ensures Step(Dictionary(2, 3, [], Some(1)), 6) == Some((Dictionary(2, 3, [[1, 1]], Some(6)), [1, 1]))
  {
    assert Pow2(2) == 4 && Pow2(3) == 8 && Pow2(GifBits) == 4096;
    var d1 := Dictionary(2, 3, [], Some(1));
    assert Valid(d1);
    assert ClearCode(d1) == 4 && NextFree(d1) == 6 && StringOf(d1, 1) == [1];
    var r1 := Step(d1, 6);
    assert r1.Some? && r1.value.1 == [1, 1] && r1.value.0.table == [[1, 1]] && r1.value.0.width == 3;
  }

  lemma ExampleStep3()
    ensures Valid(Dictionary(2, 4, [[1, 1], [1, 1, 1]], Some(6)))
    ensures Step(Dictionary(2, 3, [[1, 1]], Some(6)), 6) == Some((Dictionary(2, 4, [[1, 1], [1, 1, 1]], Some(6)), [1, 1]))
  {
    assert Pow2(2) == 4 && Pow2(3) == 8 && Pow2(GifBits) == 4096;
    var d2 := Dictionary(2, 3, [[1, 1]], Some(6));
    assert Valid(d2);
    assert ClearCode(d2) == 4 && NextFree(d2) == 7 && StringOf(d2, 6) == [1, 1];
    var r2 := Step(d2, 6);
    assert r2.Some? && r2.value.1 == [1, 1] && r2.value.0.table == d2.table + [StringOf(d2, 6) + [1]];
    assert StringOf(d2, 6) + [1] == [1, 1, 1];
    assert r2.value.0.table == [[1, 1], [1, 1, 1]] && r2.value.0.width == 4;
  }

  /** The decoding loop on the worked example, from its last code back to
      its first. */
  lemma ExampleLoop5()
    ensures Valid(Dictionary(2, 4, [[1, 1], [1, 1, 1]], Some(6)))
    ensures DecodeLoop(Dictionary(2, 4, [[1, 1], [1, 1, 1]], Some(6)), BitReader(Stream(ExampleData, 4), 5, 0, 4), [1, 1, 1, 1, 1])
      == Some(([1, 1, 1, 1, 1], BitReader(Stream(ExampleData, 4), 0, 0, 0)))
  {
    ExampleCode5();
    ExampleStep3();
    hide ReadCode, Step;
    assert Pow2(2) == 4;
  }

  lemma ExampleLoop4()
    ensures DecodeLoop(Dictionary(2, 3, [[1, 1]], Some(6)), BitReader(Stream(ExampleData, 4), 46, 0, 7), [1, 1, 1])
      == Some(([1, 1, 1, 1, 1], BitReader(Stream(ExampleData, 4), 0, 0, 0)))
  {
    ExampleCode4();
    ExampleStep2();
    ExampleStep3();
    ExampleLoop5();
    hide ReadCode, Step;
    assert Pow2(2) == 4;
    var three: seq<Byte> := [1, 1, 1];
    assert three + [1, 1] == [1, 1, 1, 1, 1];
  }

  lemma ExampleLoop3()
    ensures DecodeLoop(Dictionary(2, 3, [], Some(1)), BitReader(Stream(ExampleData, 3), 2, 1, 2), [1])
      == Some(([1, 1, 1, 1, 1], BitReader(Stream(ExampleData, 4), 0, 0, 0)))
  {
    ExampleCode3();
    ExampleStep1();
    ExampleStep2();
    ExampleLoop4();
    hide ReadCode, Step;
    assert Pow2(2) == 4;
    var one: seq<Byte> := [1];
    assert one + [1, 1] == [1, 1, 1];
  }

  lemma ExampleLoop2()
    ensures DecodeLoop(Reset(2), BitReader(Stream(ExampleData, 3), 17, 1, 5), [])
      == Some(([1, 1, 1, 1, 1], BitReader(Stream(ExampleData, 4), 0, 0, 0)))
  {
    ExampleCode2();
    ExampleStep1();
    ExampleLoop3();
    hide ReadCode, Step;
    assert Pow2(2) == 4;
    var none: seq<Byte> := [];
    assert none + [1] == [1];
  }

  lemma ExampleLoop1()
    ensures DecodeLoop(Reset(2), StartBits(Stream(ExampleData, 1)), [])
      == Some(([1, 1, 1, 1, 1], BitReader(Stream(ExampleData, 4), 0, 0, 0)))
  {
    ExampleCode1();
    ExampleStep1();
    ExampleLoop2();
    hide ReadCode, Step;
    assert Pow2(2) == 4 && Reset(2).width == 3;
    var none: seq<Byte> := [];
    assert none + none == none;
  }

  /** A worked example, code size 2: the codes clear, 1, 6, 6, end (the
      first 6 is the next free slot right after a literal, the second its
      new entry, and the width grows from 3 to 4 bits before the end code)
      packed into one sub-block of two bytes decode to five 1 bytes. */
  lemma DecodeExample()
    ensures DecodeImageData(Stream(ExampleData, 0)) == Some(([1, 1, 1, 1, 1], Stream(ExampleData, 5)))
  {
    ExampleLoop1();
    hide DecodeLoop;
    ResetValid(2);
    assert Flush(BitReader(Stream(ExampleData, 4), 0, 0, 0)) == Some(Stream(ExampleData, 5));
  }
}
