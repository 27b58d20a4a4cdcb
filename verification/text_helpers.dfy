/**
 The SDK's string helpers: trimming trailing line breaks from a system
 message, and rendering bytes as lowercase hexadecimal.
 */
module TextHelpers {
  import opened Wrappers
  import opened Bytes

  predicate IsLineBreak(c: char)
  {
    c == '\r' || c == '\n'
  }

  /** `StripCrnl`: drops characters from the end while the last one is a
      carriage return or a line feed. */
  function StripCrnl(s: string): (r: string)
    ensures |r| <= |s| && r == s[..|r|]
    ensures forall i :: |r| <= i < |s| ==> IsLineBreak(s[i])
    ensures r == [] || !IsLineBreak(r[|r| - 1])
    decreases |s|
  {
    if |s| > 0 && IsLineBreak(s[|s| - 1]) then StripCrnl(s[..|s| - 1]) else s
  }

  /** The three facts above pin the result down: any prefix that cuts off
      only line breaks and does not itself end in one is the stripped string. */
  lemma StripCrnlUnique(s: string, t: string)
    requires |t| <= |s| && t == s[..|t|]
    requires forall i :: |t| <= i < |s| ==> IsLineBreak(s[i])
    requires t == [] || !IsLineBreak(t[|t| - 1])
    ensures StripCrnl(s) == t
  {
    var r := StripCrnl(s);
    assert |r| < |t| ==> t[|t| - 1] == s[|t| - 1];
    assert |t| < |r| ==> r[|r| - 1] == s[|r| - 1];
  }

  /** Stripping twice strips nothing more. */
  lemma StripCrnlIdempotent(s: string)
    ensures StripCrnl(StripCrnl(s)) == StripCrnl(s)
  {
    var r := StripCrnl(s);
    StripCrnlUnique(r, r);
  }

  /** Appending line breaks to any text strips back to the same result. */
  lemma StripCrnlAppend(s: string, breaks: string)
    requires forall i :: 0 <= i < |breaks| ==> IsLineBreak(breaks[i])
    ensures StripCrnl(s + breaks) == StripCrnl(s)
  {
    var r := StripCrnl(s);
    var t := s + breaks;
    assert t[..|r|] == r;
    forall i | |r| <= i < |t| ensures IsLineBreak(t[i]) {
      if i >= |s| {
        assert t[i] == breaks[i - |s|];
      } else {
        assert t[i] == s[i];
      }
    }
    StripCrnlUnique(t, r);
  }

  const HexDigits: string := "0123456789abcdef"

  /** The lowercase hex digit of a value below 16. */
  function HexDigit(n: nat): (c: char)
    requires n < 16
    ensures ('0' <= c <= '9' && c as int - '0' as int == n) || ('a' <= c <= 'f' && c as int - 'a' as int + 10 == n)
  {
    HexDigits[n]
  }

  /** `BinaryToHex`: each byte as two lowercase hex digits (`%02x`), in order. */
  function BinaryToHex(data: seq<Byte>): (r: string)
    ensures |r| == 2 * |data|
  {
    if data == [] then ""
    else [HexDigit(data[0] / 16), HexDigit(data[0] % 16)] + BinaryToHex(data[1..])
  }

  /** Characters 2i and 2i+1 of the hex text are the digits of byte i. */
  lemma {:induction false} BinaryToHexDigits(data: seq<Byte>)
    ensures forall i :: 0 <= i < |data| ==>
      BinaryToHex(data)[2 * i] == HexDigit(data[i] / 16) && BinaryToHex(data)[2 * i + 1] == HexDigit(data[i] % 16)
    decreases |data|
  {
    if data != [] {
      BinaryToHexDigits(data[1..]);
      var rest := BinaryToHex(data[1..]);
      var r := BinaryToHex(data);
      assert r == [HexDigit(data[0] / 16), HexDigit(data[0] % 16)] + rest;
      forall i | 1 <= i < |data|
        ensures r[2 * i] == HexDigit(data[i] / 16) && r[2 * i + 1] == HexDigit(data[i] % 16)
      {
        assert r[2 * i] == rest[2 * (i - 1)] && r[2 * i + 1] == rest[2 * (i - 1) + 1];
        assert data[i] == data[1..][i - 1];
      }
    }
  }

  /** The value of a lowercase hex digit, or None. */
  function HexValue(c: char): (v: Option<nat>)
    ensures v.Some? ==> v.value < 16 && HexDigit(v.value) == c
  {
    if '0' <= c <= '9' then Some(c as int - '0' as int)
    else if 'a' <= c <= 'f' then Some(c as int - 'a' as int + 10)
    else None
  }

  /** Reads back lowercase hexadecimal text, two digits per byte; None for
      an odd length or a character that is not a lowercase hex digit. */
  function HexToBinary(s: string): (r: Option<seq<Byte>>)
    ensures r.Some? ==> 2 * |r.value| == |s|
    decreases |s|
  {
    if s == [] then Some([])
    else if |s| == 1 then None
    else
      match (HexValue(s[0]), HexValue(s[1]), HexToBinary(s[2..]))
      case (Some(hi), Some(lo), Some(rest)) => Some([16 * hi + lo] + rest)
      case _ => None
  }

  /** Hex text reads back as the bytes it was made from. */
  lemma HexDigitValue(n: nat)
    requires n < 16
    ensures HexValue(HexDigit(n)) == Some(n)
  {
  }

  lemma {:induction false} HexRoundTrip(data: seq<Byte>)
    ensures HexToBinary(BinaryToHex(data)) == Some(data)
    decreases |data|
  {
    if data != [] {
      var b := data[0];
      var rest := BinaryToHex(data[1..]);
      var s := [HexDigit(b / 16), HexDigit(b % 16)] + rest;
      assert BinaryToHex(data) == s;
      HexRoundTrip(data[1..]);
      HexDigitValue(b / 16);
      HexDigitValue(b % 16);
      hide BinaryToHex, HexDigit, HexValue;
      assert s[2..] == rest;
      assert [16 * (b / 16) + b % 16] + data[1..] == data;
    }
  }

  /** The string overload: the characters of a byte string, each taken as
      an unsigned byte. */
  function StringBytes(s: string): (r: seq<Byte>)
    ensures |r| == |s|
    ensures forall i :: 0 <= i < |s| ==> r[i] == (s[i] as int) % 0x100
  {
    seq(|s|, i requires 0 <= i < |s| => Truncate8(s[i] as int))
  }

  /** The string overload is the byte overload over the string's bytes:
      each character becomes the two digits of its low byte. */
  function BinaryToHexOfString(s: string): (r: string)
    ensures |r| == 2 * |s|
    ensures forall i :: 0 <= i < |s| ==> r[2 * i .. 2 * i + 2] == BinaryToHex([(s[i] as int) % 0x100])
  {
    var r := BinaryToHex(StringBytes(s));
    BinaryToHexDigits(StringBytes(s));
    assert forall i :: 0 <= i < |s| ==> r[2 * i .. 2 * i + 2] == [r[2 * i], r[2 * i + 1]];
    r
  }
}
