/**
 The configuration tool's command assembler: parts are collected in order
 and concatenated into one byte string. A character goes in as its low 8
 bits.
 */
module Commands {
  import opened Bytes

  /** `CommandBuffer`: the parts written so far, oldest first. */
  datatype CommandBuffer = CommandBuffer(parts: seq<seq<Byte>>)

  function Empty(): (b: CommandBuffer)
    ensures b.parts == []
  {
    CommandBuffer([])
  }

  /** `Write(byte[])`: appends one part. */
  function WriteBytes(b: CommandBuffer, s: seq<Byte>): (r: CommandBuffer)
    ensures r.parts == b.parts + [s]
  {
    CommandBuffer(b.parts + [s])
  }

  /** The byte a character becomes: its code cut to 8 bits. */
  function CharByte(c: char): Byte
  {
    Truncate8(c as int)
  }

  /** `Write(string)`: one part holding each character's low byte. */
  function WriteString(b: CommandBuffer, s: string): (r: CommandBuffer)
    ensures |r.parts| == |b.parts| + 1 && r.parts[..|b.parts|] == b.parts
    ensures |r.parts[|b.parts|]| == |s|
    ensures forall i :: 0 <= i < |s| ==> r.parts[|b.parts|][i] == (s[i] as int) % 0x100
  {
    var r := WriteBytes(b, seq(|s|, i requires 0 <= i < |s| => CharByte(s[i])));
    assert r.parts[..|b.parts|] == b.parts;
    r
  }

  /** `Write(byte)` and `Write(char)`: a part of one byte. */
  function WriteByte(b: CommandBuffer, x: Byte): (r: CommandBuffer)
    ensures r.parts == b.parts + [[x]]
  {
    WriteBytes(b, [x])
  }

  function WriteChar(b: CommandBuffer, c: char): (r: CommandBuffer)
    ensures r.parts == b.parts + [[(c as int) % 0x100]]
  {
    WriteByte(b, CharByte(c))
  }

  /** The parts laid end to end. */
  function Flatten(parts: seq<seq<Byte>>): seq<Byte>
  {
    if parts == [] then [] else Flatten(parts[..|parts| - 1]) + parts[|parts| - 1]
  }

  /** The sum of the parts' lengths. */
  function TotalLength(parts: seq<seq<Byte>>): nat
  {
    if parts == [] then 0 else TotalLength(parts[..|parts| - 1]) + |parts[|parts| - 1]|
  }

  lemma {:induction false} FlattenLength(parts: seq<seq<Byte>>)
    ensures |Flatten(parts)| == TotalLength(parts)
    decreases |parts|
  {
    if parts != [] {
      FlattenLength(parts[..|parts| - 1]);
    }
  }

  /** A prefix of the parts is no longer than all of them. */
  lemma {:induction false} PrefixLength(parts: seq<seq<Byte>>, k: nat)
    requires k <= |parts|
    ensures TotalLength(parts[..k]) <= TotalLength(parts)
    decreases |parts| - k
  {
    if k < |parts| {
      assert parts[..k + 1][..k] == parts[..k];
      PrefixLength(parts, k + 1);
    } else {
      assert parts[..k] == parts;
    }
  }

  /** Flattening an appended part appends its bytes. */
  lemma FlattenSnoc(parts: seq<seq<Byte>>, s: seq<Byte>)
    ensures Flatten(parts + [s]) == Flatten(parts) + s
  {
    assert (parts + [s])[..|parts|] == parts;
  }

  /** `Get`: one pass adds up the lengths, a second copies each part to the
      next free position of a buffer of that length. */
  method Get(b: CommandBuffer) returns (result: seq<Byte>)
    ensures result == Flatten(b.parts)
    ensures |result| == TotalLength(b.parts)
  {
    var parts := b.parts;
    var length := 0;
    var k := 0;
    while k < |parts|
      invariant 0 <= k <= |parts|
      invariant length == TotalLength(parts[..k])
    {
      assert parts[..k + 1][..k] == parts[..k];
      length := length + |parts[k]|;
      k := k + 1;
    }
    assert parts[..|parts|] == parts;
    var buffer := new Byte[length];
    var next := 0;
    k := 0;
    FlattenLength(parts);
    while k < |parts|
      invariant 0 <= k <= |parts|
      invariant next == TotalLength(parts[..k]) <= length
      invariant buffer[..next] == Flatten(parts[..k])
    {
      assert parts[..k + 1][..k] == parts[..k];
      FlattenLength(parts[..k + 1]);
      FlattenLength(parts[..k]);
      PrefixLength(parts, k + 1);
      CopyPart(buffer, next, parts[k], Flatten(parts[..k]));
      next := next + |parts[k]|;
      k := k + 1;
    }
    result := buffer[..];
    assert buffer[..] == buffer[..next];
  }

  /** Copies one part into the buffer after the bytes already there. */
  method CopyPart(buffer: array<Byte>, next: nat, part: seq<Byte>, prefix: seq<Byte>)
    requires next + |part| <= buffer.Length && buffer[..next] == prefix
    modifies buffer
    ensures buffer[..next + |part|] == prefix + part
  {
    var j := 0;
    while j < |part|
      invariant 0 <= j <= |part|
      invariant buffer[..next + j] == prefix + part[..j]
    {
      buffer[next + j] := part[j];
      assert buffer[..next + j + 1] == buffer[..next + j] + [part[j]];
      assert part[..j + 1] == part[..j] + [part[j]];
      j := j + 1;
    }
    assert part[..|part|] == part;
  }

  /** What `Get` returns after a write: the earlier bytes, then the new part. */
  lemma GetAfterWrite(b: CommandBuffer, s: seq<Byte>, t: string)
    ensures Flatten(WriteBytes(b, s).parts) == Flatten(b.parts) + s
    ensures |Flatten(WriteString(b, t).parts)| == |Flatten(b.parts)| + |t|
    ensures forall i :: 0 <= i < |t| ==> Flatten(WriteString(b, t).parts)[|Flatten(b.parts)| + i] == (t[i] as int) % 0x100
  {
    FlattenSnoc(b.parts, s);
    var w := WriteString(b, t);
    var last := w.parts[|b.parts|];
    assert w.parts == b.parts + [last];
    FlattenSnoc(b.parts, last);
  }
}
