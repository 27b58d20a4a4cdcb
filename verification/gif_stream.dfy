/**
 The byte and bit readers under the GIF decoder (`DataStream` and
 `LWZStream` in `SMXGif.cpp`). A read past the end of the data is the
 decoder's error (`GIFError`), modelled as `None`. Image data is split into
 sub-blocks of at most 255 bytes, each preceded by its length; the LZW codes
 are packed into those bytes least-significant bit first.
*/
module GifStream {
  import opened Wrappers
  import opened Bytes

  // ----- bytes -----

  /** The data being decoded and the read position, which a skip may move
      past the end. */
  datatype Stream = Stream(data: seq<Byte>, pos: nat)

  /** The bytes still readable. */
  function Remaining(s: Stream): (r: nat)
    ensures r == 0 <==> s.pos >= |s.data|
  {
    if s.pos < |s.data| then |s.data| - s.pos else 0
  }

  /** `ReadByte`: the byte at the position, or an error at the end. */
  function ReadByte(s: Stream): (r: Option<(Byte, Stream)>)
    ensures r.Some? <==> s.pos < |s.data|
    ensures r.Some? ==> r.value.0 == s.data[s.pos] && r.value.1 == Stream(s.data, s.pos + 1)
    ensures r.Some? ==> Remaining(r.value.1) < Remaining(s)
  {
    if s.pos >= |s.data| then None else Some((s.data[s.pos], Stream(s.data, s.pos + 1)))
  }

  /** `ReadLE16`: two bytes, low byte first (`b0 | b1 << 8`, an OR that
      equals the sum because b0 is below 256). */
  function ReadLe16(s: Stream): (r: Option<(U16, Stream)>)
    ensures r.Some? <==> s.pos + 2 <= |s.data|
    ensures r.Some? ==> r.value.0 == Le16(s.data[s.pos], s.data[s.pos + 1]) && r.value.1 == Stream(s.data, s.pos + 2)
    ensures r.Some? ==> Remaining(r.value.1) < Remaining(s)
  {
    match ReadByte(s)
    case None => None
    case Some((b0, s1)) =>
      match ReadByte(s1)
      case None => None
      case Some((b1, s2)) => Some((Le16(b0, b1), s2))
  }

  /** A 16-bit field written little-endian reads back as itself. */
  lemma ReadLe16OfBytes(prefix: seq<Byte>, u: U16, rest: seq<Byte>)
    ensures var data := prefix + U16Bytes(u) + rest;
      ReadLe16(Stream(data, |prefix|)) == Some((u, Stream(data, |prefix| + 2)))
  {
    var data := prefix + U16Bytes(u) + rest;
    assert data[|prefix|] == U16Bytes(u)[0] && data[|prefix| + 1] == U16Bytes(u)[1];
  }

  /** `ReadBytes`: the next `count` bytes, or an error if fewer remain. */
  function ReadBytes(s: Stream, count: nat): (r: Option<(seq<Byte>, Stream)>)
    decreases count
    ensures r.Some? <==> count == 0 || s.pos + count <= |s.data|
    ensures r.Some? ==> |r.value.0| == count && r.value.1 == Stream(s.data, s.pos + count)
    ensures r.Some? ==> forall i :: 0 <= i < count ==> r.value.0[i] == s.data[s.pos + i]
  {
    if count == 0 then Some(([], s))
    else
      match ReadByte(s)
      case None => None
      case Some((b, s1)) =>
        match ReadBytes(s1, count - 1)
        case None => None
        case Some((bs, s2)) => Some(([b] + bs, s2))
  }

  /** `skip`: moves the position without reading, possibly past the end. */
  function Skip(s: Stream, n: nat): (r: Stream)
    ensures r.data == s.data && r.pos == s.pos + n
    ensures Remaining(r) <= Remaining(s)
  {
    Stream(s.data, s.pos + n)
  }

  // ----- sub-blocks -----

  /** The sub-block encoding of a list of non-empty blocks: each block after
      its length byte, then a zero length byte. */
  predicate BlocksShaped(blocks: seq<seq<Byte>>)
  {
    forall i :: 0 <= i < |blocks| ==> 0 < |blocks[i]| < 0x100
  }

  function EncodeBlocks(blocks: seq<seq<Byte>>): (r: seq<Byte>)
    requires BlocksShaped(blocks)
    ensures |r| >= 1
  {
    if blocks == [] then [0]
    else [|blocks[0]|] + blocks[0] + EncodeBlocks(blocks[1..])
  }

  /** Skips sub-blocks up to and including the zero length byte (the loop
      in `Flush` and the extension loop of `ReadAllFrames`). */
  function SkipBlocks(s: Stream): (r: Option<Stream>)
    decreases Remaining(s)
    ensures r.Some? ==> r.value.data == s.data && r.value.pos > s.pos && Remaining(r.value) < Remaining(s)
  {
    match ReadByte(s)
    case None => None
    case Some((n, s1)) =>
      if n == 0 then Some(s1) else SkipBlocks(Skip(s1, n))
  }

  /** Skipping well-formed sub-blocks lands just after their terminator. */
  lemma {:induction false} SkipBlocksOfEncoding(prefix: seq<Byte>, blocks: seq<seq<Byte>>, rest: seq<Byte>)
    requires BlocksShaped(blocks)
    ensures var data := prefix + EncodeBlocks(blocks) + rest;
      SkipBlocks(Stream(data, |prefix|)) == Some(Stream(data, |prefix| + |EncodeBlocks(blocks)|))
    decreases |blocks|
  {
    var data := prefix + EncodeBlocks(blocks) + rest;
    if blocks == [] {
      assert data[|prefix|] == 0;
    } else {
      var b := blocks[0];
      var prefix' := prefix + [|b|] + b;
      assert BlocksShaped(blocks[1..]) by {
        forall i | 0 <= i < |blocks[1..]| ensures 0 < |blocks[1..][i]| < 0x100 {
          assert blocks[1..][i] == blocks[i + 1];
        }
      }
      assert data == prefix' + EncodeBlocks(blocks[1..]) + rest;
      assert data[|prefix|] == |b|;
      SkipBlocksOfEncoding(prefix', blocks[1..], rest);
    }
  }

  // ----- LZW codes -----

  /** The code reader: the byte stream, the bits read but not yet used (bit
      0 is the next to be used), how many bytes of the current sub-block are
      left, and how many bits are buffered. */
  datatype BitReader = BitReader(stream: Stream, bits: nat, bytesRemaining: nat, bitsInBuffer: nat)

  /** The buffer holds no bits beyond its count, so shifting a new byte in
      above them (an OR) is the same as adding it. */
  predicate BitsFit(r: BitReader)
  {
    r.bits < Pow2(r.bitsInBuffer)
  }

  /** A reader at the start of an image's data. */
  function StartBits(s: Stream): (r: BitReader)
    ensures BitsFit(r) && r.stream == s
  {
    BitReader(s, 0, 0, 0)
  }

  /** Adding a byte above n bits that fit keeps them fitting in n + 8. */
  lemma ShiftInFits(bits: nat, b: Byte, n: nat)
    ensures bits < Pow2(n) ==> bits + b * Pow2(n) < Pow2(n + 8)
  {
    Pow2Add(n, 8);
    assert Pow2(8) == 256;
    assert b * Pow2(n) <= 255 * Pow2(n);
  }

  /** The buffering loop of `ReadLZWCode`: while fewer than `bitCount` bits
      are buffered, take the next byte of the current sub-block (reading a
      new sub-block's length first when the current one is used up; a zero
      length there is an error). */
  function Fill(r: BitReader, bitCount: nat): (f: Option<BitReader>)
    decreases Remaining(r.stream)
    ensures f.Some? ==> f.value.bitsInBuffer >= bitCount && f.value.stream.data == r.stream.data
    ensures f.Some? ==> Remaining(f.value.stream) <= Remaining(r.stream)
    ensures f.Some? && r.bitsInBuffer < bitCount ==> Remaining(f.value.stream) < Remaining(r.stream)
    ensures r.bitsInBuffer >= bitCount ==> f == Some(r)
    ensures f.Some? && BitsFit(r) ==> BitsFit(f.value)
  {
    if r.bitsInBuffer >= bitCount then Some(r)
    else
      var sized: Option<(nat, Stream)> :=
        if r.bytesRemaining > 0 then Some((r.bytesRemaining, r.stream))
        else match ReadByte(r.stream)
          case None => None
          case Some((n, s1)) => if n == 0 then None else Some((n, s1));
      match sized
      case None => None
      case Some((n, s1)) =>
        match ReadByte(s1)
        case None => None
        case Some((b, s2)) =>
          ShiftInFits(r.bits, b, r.bitsInBuffer);
          Fill(BitReader(s2, r.bits + b * Pow2(r.bitsInBuffer), n - 1, r.bitsInBuffer + 8), bitCount)
  }

  /** Splitting k + rest fitting bits into the low k and the rest above. */
  lemma SplitBits(bits: nat, k: nat, rest: nat)
    ensures bits % Pow2(k) < Pow2(k)
    ensures bits < Pow2(k + rest) ==> bits / Pow2(k) < Pow2(rest)
  {
    Pow2Add(k, rest);
    DivBelow(bits, Pow2(k), Pow2(rest));
  }

  /** Taking the low k of the buffered bits: the code and the buffer above
      it put back together are the old buffer (codes are packed least
      significant bit first). */
  function TakeBits(f: BitReader, k: nat): (c: (nat, BitReader))
    requires f.bitsInBuffer >= k
    ensures c.0 < Pow2(k) && c.0 + Pow2(k) * c.1.bits == f.bits
    ensures c.1.stream == f.stream && c.1.bytesRemaining == f.bytesRemaining && c.1.bitsInBuffer == f.bitsInBuffer - k
    ensures BitsFit(f) ==> BitsFit(c.1)
  {
    hide Pow2;
    var rest := f.bitsInBuffer - k;
    var p := Pow2(k);
    SplitBits(f.bits, k, rest);
    DivMod(f.bits, p);
    (f.bits % p, BitReader(f.stream, f.bits / p, f.bytesRemaining, rest))
  }

  /** `ReadLZWCode`: buffer enough bits, then take the low `bitCount` of
      them as the code. */
  function ReadCode(r: BitReader, bitCount: nat): (c: Option<(nat, BitReader)>)
    ensures c.Some? ==> c.value.0 < Pow2(bitCount) && c.value.1.stream.data == r.stream.data
    ensures c.Some? && bitCount >= 1 ==>
      || Remaining(c.value.1.stream) < Remaining(r.stream)
      || (Remaining(c.value.1.stream) == Remaining(r.stream) && c.value.1.bitsInBuffer < r.bitsInBuffer)
    ensures c.Some? && BitsFit(r) ==> BitsFit(c.value.1)
  {
    hide Pow2, Fill, TakeBits;
    match Fill(r, bitCount)
    case None => None
    case Some(f) => Some(TakeBits(f, bitCount))
  }

  /** With enough bits buffered no byte is read: the code is the low bits
      of the buffer, and the rest of the buffer stays. */
  lemma ReadCodeLsbFirst(r: BitReader, k: nat)
    requires r.bitsInBuffer >= k
    ensures ReadCode(r, k).Some?
    ensures var (code, r1) := ReadCode(r, k).value;
      code + Pow2(k) * r1.bits == r.bits && r1.stream == r.stream && r1.bitsInBuffer == r.bitsInBuffer - k
  {
    hide TakeBits;
  }

  /** The first code of an image's data is the low bits of the first data
      byte, after the sub-block length. */
  lemma FirstCodeOfBlock(s: Stream, k: nat)
    requires 1 <= k <= 8 && s.pos + 2 <= |s.data| && s.data[s.pos] > 0
    ensures ReadCode(StartBits(s), k).Some?
    ensures ReadCode(StartBits(s), k).value.0 == s.data[s.pos + 1] % Pow2(k)
  {
    var s1 := Stream(s.data, s.pos + 1);
    var s2 := Stream(s.data, s.pos + 2);
    var b := s.data[s.pos + 1];
    var f := BitReader(s2, b, s.data[s.pos] - 1, 8);
    assert Fill(StartBits(s), k) == Fill(f, k);
  }

  /** A zero sub-block length where more bits are needed is an error. */
  lemma ZeroBlockIsError(r: BitReader, k: nat)
    requires r.bitsInBuffer < k && r.bytesRemaining == 0
    requires r.stream.pos < |r.stream.data| && r.stream.data[r.stream.pos] == 0
    ensures ReadCode(r, k).None?
  {
  }

  /** `Flush`: skips the rest of the current sub-block and any sub-blocks
      after it, up to the terminator. */
  function Flush(r: BitReader): (s: Option<Stream>)
    ensures s.Some? ==> s.value.data == r.stream.data && Remaining(s.value) < Remaining(r.stream)
  {
    SkipBlocks(Skip(r.stream, r.bytesRemaining))
  }
}
