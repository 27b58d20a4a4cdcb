/** The indenting JSON writer and the proof that the reader takes a written document back
    to the value it was written from (for values the dialect can carry: no `false`, no
    empty object or repeated key, no exponent). */
module JsonWriter {
  import opened Wrappers
  import opened Json

  /** Four spaces per nesting level. */
  function Indent(level: nat): (r: string)
    ensures |r| == 4 * level
    ensures forall k :: 0 <= k < |r| ==> r[k] == ' '
  {
    if level == 0 then "" else "    " + Indent(level - 1)
  }

  /** Quote, backslash, backspace, line feed, carriage return and tab are escaped; every
      other character is written as it is. */
  function EscapeChar(c: char): (r: string)
    ensures |r| == 1 <==> r == [c]
    ensures |r| != 1 ==> |r| == 2 && r[0] == '\\' && SimpleEscape(r[1]) == Some(c) && r[1] != 'u'
    ensures r == [c] <==> c != '"' && c != '\\' && c != Backspace && c != '\n' && c != '\r' && c != '\t'
  {
    if c == '"' then "\\\""
    else if c == '\\' then "\\\\"
    else if c == Backspace then "\\b"
    else if c == '\n' then "\\n"
    else if c == '\r' then "\\r"
    else if c == '\t' then "\\t"
    else [c]
  }

  function Escape(t: string): (r: string)
    ensures |r| >= |t|
  {
    if t == [] then "" else EscapeChar(t[0]) + Escape(t[1..])
  }

  function Quote(t: string): (r: string)
    ensures |r| >= 2 && r[0] == '"'
  {
    "\"" + Escape(t) + "\""
  }

  /** The decimal digits of n, without leading zeros. */
  function DigitsOf(n: nat): (r: string)
    ensures |r| > 0 && AllDigits(r) && DigitsValue(r) == n
    ensures r[0] == '0' <==> n == 0
    ensures n == 0 ==> r == "0"
  {
    if n < 10 then [('0' as int + n) as char]
    else
      var init := DigitsOf(n / 10);
      var r := init + [('0' as int + n % 10) as char];
      assert r[..|r| - 1] == init;
      r
  }

  /** A number as its sign and digits. An exponent other than 0 is written after an "E";
      the runtime's own floating-point formatting is not part of this model. */
  function NumberText(n: Number): (r: string)
    ensures |r| > 0 && (r[0] == '-' || IsDigit(r[0]))
  {
    (if n.negative then "-" else "")
      + DigitsOf(n.mantissa)
      + (if n.exponent == 0 then "" else "E" + (if n.exponent < 0 then "-" else "") + DigitsOf(if n.exponent < 0 then -n.exponent else n.exponent))
  }

  /** A value written at a nesting level: arrays and objects put each element on its own
      line, indented one level deeper, separated by ",\n", and close on a line of their
      own at the outer level. */
  function Write(v: Value, level: nat): (r: string)
    decreases v
  {
    match v
    case Null => "null"
    case Bool(b) => if b then "true" else "false"
    case Num(n) => NumberText(n)
    case Str(t) => Quote(t)
    case Array(items) => "[\n" + WriteItems(items, level + 1, true) + "\n" + Indent(level) + "]"
    case Object(entries) => "{\n" + WriteEntries(entries, level + 1, true) + "\n" + Indent(level) + "}"
  }

  function WriteItems(items: seq<Value>, level: nat, first: bool): string
    decreases items
  {
    if items == [] then ""
    else (if first then "" else ",\n") + Indent(level) + Write(items[0], level) + WriteItems(items[1..], level, false)
  }

  function WriteEntries(entries: seq<(string, Value)>, level: nat, first: bool): string
    decreases entries
  {
    if entries == [] then ""
    else
      var e := entries[0];
      assert e in entries;
      assert e.1 < e;
      (if first then "" else ",\n") + Indent(level) + Quote(e.0) + ": " + Write(e.1, level)
        + WriteEntries(entries[1..], level, false)
  }

  /** A whole document: the value at level 0 and a final line feed. */
  function Serialize(v: Value): (r: string)
    ensures |r| > 1 && r[|r| - 1] == '\n'
  {
    WriteNonEmpty(v, 0);
    Write(v, 0) + "\n"
  }

  /** The values this writer and the reader agree on: `false` reads back as true, an
      empty object cannot be read, a repeated key raises, and the reader swallows the
      character after an exponent. */
  predicate WellFormed(v: Value)
    decreases v
  {
    match v
    case Null => true
    case Bool(b) => b
    case Num(n) => n.exponent == 0
    case Str(_) => true
    case Array(items) => forall i :: 0 <= i < |items| ==> WellFormed(items[i])
    case Object(entries) => WellKeyed(entries, {}) && forall e :: e in entries ==> WellFormed(e.1)
  }

  // ----- reading back what was written -----

  /** s holds w at pos. */
  predicate Has(s: string, pos: nat, w: string)
  {
    pos + |w| <= |s| && s[pos..pos + |w|] == w
  }

  lemma HasSplit(s: string, pos: nat, a: string, b: string)
    requires Has(s, pos, a + b)
    ensures Has(s, pos, a) && Has(s, pos + |a|, b)
  {
    assert s[pos..pos + |a|] == (a + b)[..|a|];
    assert s[pos + |a|..pos + |a| + |b|] == (a + b)[|a|..];
  }

  lemma HasChar(s: string, pos: nat, w: string, k: nat)
    requires Has(s, pos, w) && k < |w|
    ensures pos + |w| <= |s| && s[pos + k] == w[k]
  {
    assert s[pos..pos + |w|][k] == s[pos + k];
  }

  /** A position where a written value may end: the end, a comma or a line feed. */
  predicate Delimited(s: string, pos: nat)
  {
    pos <= |s| && (pos == |s| || s[pos] == ',' || s[pos] == '\n')
  }

  lemma {:induction false} SkipTo(s: string, pos: nat, stop: nat)
    requires pos <= stop < |s|
    requires forall k :: pos <= k < stop ==> IsWhitespace(s[k])
    requires !IsWhitespace(s[stop])
    ensures SkipWhitespace(s, pos) == stop
    decreases stop - pos
  {
    if pos < stop {
      SkipTo(s, pos + 1, stop);
    }
  }

  lemma {:induction false} SkipToEnd(s: string, pos: nat)
    requires pos <= |s|
    requires forall k :: pos <= k < |s| ==> IsWhitespace(s[k])
    ensures SkipWhitespace(s, pos) == |s|
    decreases |s| - pos
  {
    if pos < |s| {
      SkipToEnd(s, pos + 1);
    }
  }

  lemma WriteNonEmpty(v: Value, level: nat)
    ensures |Write(v, level)| > 0
    ensures var c := Write(v, level)[0];
      (v.Null? ==> c == 'n') && (v.Bool? && v.b ==> c == 't') && (v.Bool? && !v.b ==> c == 'f')
      && (v.Num? ==> c == '-' || IsDigit(c)) && (v.Str? ==> c == '"')
      && (v.Array? ==> c == '[') && (v.Object? ==> c == '{')
  {
  }

  /** A closing line: a line feed, spaces and the closing character. */
  lemma SkipClosing(s: string, pos: nat, close: nat, c: char)
    requires Has(s, pos, "\n" + Indent(close) + [c]) && !IsWhitespace(c)
    ensures pos + 2 + 4 * close <= |s|
    ensures SkipWhitespace(s, pos) == pos + 1 + 4 * close && s[pos + 1 + 4 * close] == c
    ensures forall k :: pos <= k < pos + 1 + 4 * close ==> IsWhitespace(s[k])
  {
    hide ParseValue, ReadArray, ReadObject, ArrayItems, ObjectEntries, ReadNumber, ReadString, ReadStringBody, ExpectWord, Expect, ReadCodePoint, Literal, Has;
    var w := "\n" + Indent(close) + [c];
    HasChar(s, pos, w, 1 + 4 * close);
    forall k | pos <= k < pos + 1 + 4 * close ensures IsWhitespace(s[k]) {
      HasChar(s, pos, w, k - pos);
    }
    SkipTo(s, pos, pos + 1 + 4 * close);
  }

  /** The reader takes an escaped string body and its closing quote back to the string. */
  lemma {:induction false} EscapeRoundTrip(t: string, s: string, pos: nat)
    requires Has(s, pos, Escape(t) + "\"")
    ensures ReadStringBody(s, pos) == Ok(Parsed(t, pos + |Escape(t)| + 1))
    decreases t
  {
    hide ParseValue, ReadArray, ReadObject, ArrayItems, ObjectEntries, ReadNumber, ReadString, ExpectWord, Expect, SkipWhitespace, ReadCodePoint, Literal, Has, ReadStringBody, Escape, EscapeChar;
    EscapeCons(t);
    if t == [] {
      HasChar(s, pos, Escape(t) + "\"", 0);
      ClosingQuote(s, pos);
    } else {
      var e := EscapeChar(t[0]);
      HasSplit(s, pos, e, Escape(t[1..]) + "\"");
      EscapeRoundTrip(t[1..], s, pos + |e|);
      EscapeStep(t[0], s, pos);
      assert [t[0]] + t[1..] == t;
    }
  }

  lemma EscapeCons(t: string)
    ensures t == [] ==> Escape(t) == []
    ensures t != [] ==> Escape(t) + "\"" == EscapeChar(t[0]) + (Escape(t[1..]) + "\"")
  {
  }

  lemma ClosingQuote(s: string, pos: nat)
    requires pos < |s| && s[pos] == '"'
    ensures ReadStringBody(s, pos) == Ok(Parsed("", pos + 1))
  {
  }

  /** The reader turns one escaped character back into the character. */
  lemma EscapeStep(c: char, s: string, pos: nat)
    requires Has(s, pos, EscapeChar(c))
    ensures ReadStringBody(s, pos) == Prepend(c, ReadStringBody(s, pos + |EscapeChar(c)|))
  {
    hide ParseValue, ReadArray, ReadObject, ArrayItems, ObjectEntries, ReadNumber, ReadString, ExpectWord, Expect, SkipWhitespace, ReadCodePoint, Literal, Has;
    var e := EscapeChar(c);
    HasChar(s, pos, e, 0);
    if |e| == 2 {
      HasChar(s, pos, e, 1);
    }
  }

  /** A quoted string, after optional whitespace, reads back to the string. */
  lemma QuoteRoundTrip(t: string, s: string, pos: nat, start: nat)
    requires Has(s, start, Quote(t))
    requires pos <= start && forall k :: pos <= k < start ==> IsWhitespace(s[k])
    ensures ReadString(s, pos) == Ok(Parsed(t, start + |Quote(t)|))
  {
    hide ParseValue, ReadArray, ReadObject, ArrayItems, ObjectEntries, ReadNumber, ReadStringBody, ExpectWord, Has;
    assert Quote(t) == "\"" + (Escape(t) + "\"");
    HasSplit(s, start, "\"", Escape(t) + "\"");
    HasChar(s, start, Quote(t), 0);
    SkipTo(s, pos, start);
    EscapeRoundTrip(t, s, start + 1);
  }

  lemma {:induction false} DigitRunTo(s: string, pos: nat, d: string)
    requires Has(s, pos, d) && AllDigits(d)
    requires pos + |d| == |s| || !IsDigit(s[pos + |d|])
    ensures DigitRun(s, pos) == pos + |d|
    decreases |d|
  {
    hide ParseValue, ReadArray, ReadObject, ArrayItems, ObjectEntries, ReadNumber, ReadString, ReadStringBody, ExpectWord, Expect, SkipWhitespace, ReadCodePoint, Literal, Has;
    if d != [] {
      HasChar(s, pos, d, 0);
      assert d == [d[0]] + d[1..];
      HasSplit(s, pos, [d[0]], d[1..]);
      DigitRunTo(s, pos + 1, d[1..]);
    }
  }

  lemma NumberRoundTrip(n: Number, s: string, pos: nat)
    requires n.exponent == 0
    requires Has(s, pos, NumberText(n)) && Delimited(s, pos + |NumberText(n)|)
    ensures ReadNumber(s, pos) == Ok(Parsed(Num(n), pos + |NumberText(n)|))
  {
    hide ParseValue, ReadArray, ReadObject, ArrayItems, ObjectEntries, ReadString, ReadStringBody, ExpectWord, Expect, ReadCodePoint, Literal,
      Has, DigitsOf, NumberText, ReadExponent, DigitRun;
    var sign := if n.negative then "-" else "";
    var d := DigitsOf(n.mantissa);
    NumberTextParts(n);
    HasSplit(s, pos, sign, d);
    var p := pos + |sign|;
    HasChar(s, p, d, 0);
    if n.negative {
      HasChar(s, pos, sign, 0);
    }
    HasSlice(s, p, d);
    if d[0] != '0' {
      DigitRunTo(s, p, d);
    }
  }

  lemma NumberTextParts(n: Number)
    requires n.exponent == 0
    ensures NumberText(n) == (if n.negative then "-" else "") + DigitsOf(n.mantissa)
  {
  }

  lemma HasSlice(s: string, pos: nat, w: string)
    requires Has(s, pos, w)
    ensures pos + |w| <= |s| && s[pos..pos + |w|] == w
  {
  }

  /** Which reader ParseValue hands over to, by the first character after whitespace. */
  lemma Dispatch(s: string, pos: nat, start: nat)
    requires pos <= start < |s| && SkipWhitespace(s, pos) == start
    ensures s[start] == '[' ==> ParseValue(s, pos) == ReadArray(s, start)
    ensures s[start] == '{' ==> ParseValue(s, pos) == ReadObject(s, start)
    ensures s[start] == '-' ==> ParseValue(s, pos) == ReadNumber(s, start)
    ensures IsDigit(s[start]) ==> ParseValue(s, pos) == ReadNumber(s, start)
    ensures s[start] == 'n' ==> ParseValue(s, pos) == Literal(s, start, "null", Null)
    ensures s[start] == 't' ==> ParseValue(s, pos) == Literal(s, start, "true", Bool(true))
    ensures s[start] == '"' && ReadString(s, start).Ok? ==>
      ParseValue(s, pos) == Ok(Parsed(Str(ReadString(s, start).value.value), ReadString(s, start).value.next))
  {
  }

  /** Reading a written value, which may be preceded by whitespace, gives the value back
      and stops right after it. */
  lemma {:induction false} ReadWritten(v: Value, level: nat, s: string, pos: nat, start: nat)
    requires WellFormed(v)
    requires Has(s, start, Write(v, level)) && Delimited(s, start + |Write(v, level)|)
    requires pos <= start && forall k :: pos <= k < start ==> IsWhitespace(s[k])
    ensures ParseValue(s, pos) == Ok(Parsed(v, start + |Write(v, level)|))
    decreases v, 2
  {
    hide ParseValue, ReadArray, ReadObject, ArrayItems, ObjectEntries, ReadNumber, ReadString, ReadStringBody, ExpectWord, Expect, SkipWhitespace, ReadCodePoint, Has, WriteItems, WriteEntries;
    var w := Write(v, level);
    WriteNonEmpty(v, level);
    HasChar(s, start, w, 0);
    SkipTo(s, pos, start);
    Dispatch(s, pos, start);
    if v.Null? {
      ExpectExact(s, start, "null");
    } else if v.Bool? {
      ExpectExact(s, start, "true");
    } else if v.Num? {
      NumberRoundTrip(v.n, s, start);
    } else if v.Str? {
      QuoteRoundTrip(v.s, s, start, start);
    } else if v.Array? {
      ReadWrittenArray(v, level, s, start);
    } else {
      ReadWrittenObject(v, level, s, start);
    }
  }

  lemma {:induction false} ReadWrittenArray(v: Value, level: nat, s: string, start: nat)
    requires v.Array? && WellFormed(v)
    requires Has(s, start, Write(v, level))
    ensures s[start] == '['
    ensures ReadArray(s, start) == Ok(Parsed(v, start + |Write(v, level)|))
    decreases v, 1
  {
    hide ParseValue, ReadObject, ArrayItems, ObjectEntries, ReadNumber, ReadString, ReadStringBody, ExpectWord, Expect, SkipWhitespace, ReadCodePoint, Literal, Has, WriteItems;
    var w := Write(v, level);
    var body := "\n" + WriteItems(v.items, level + 1, true);
    var close := "\n" + Indent(level) + "]";
    assert w == "[" + body + close;
    HasSplit(s, start, "[" + body, close);
    HasSplit(s, start, "[", body);
    HasChar(s, start, w, 0);
    ReadWrittenItems(v.items, level + 1, true, s, start + 1, level);
  }

  lemma {:induction false} ReadWrittenObject(v: Value, level: nat, s: string, start: nat)
    requires v.Object? && WellFormed(v)
    requires Has(s, start, Write(v, level))
    ensures s[start] == '{'
    ensures ReadObject(s, start) == Ok(Parsed(v, start + |Write(v, level)|))
    decreases v, 1
  {
    hide ParseValue, ReadArray, ArrayItems, ObjectEntries, ReadNumber, ReadString, ReadStringBody, ExpectWord, Expect, SkipWhitespace, ReadCodePoint, Literal, Has, WriteEntries;
    var w := Write(v, level);
    var body := "\n" + WriteEntries(v.entries, level + 1, true);
    var close := "\n" + Indent(level) + "}";
    assert w == "{" + body + close;
    HasSplit(s, start, "{" + body, close);
    HasSplit(s, start, "{", body);
    HasChar(s, start, w, 0);
    ReadWrittenEntries(v.entries, level + 1, s, start + 1, level, {});
  }

  lemma {:induction false} ExpectExact(s: string, pos: nat, word: string)
    requires Has(s, pos, word)
    requires forall k :: 0 <= k < |word| ==> !IsWhitespace(word[k])
    ensures ExpectWord(s, pos, word) == Ok(pos + |word|)
    decreases |word|
  {
    hide ParseValue, ReadArray, ReadObject, ArrayItems, ObjectEntries, ReadNumber, ReadString, ReadStringBody, ReadCodePoint, Literal, Has;
    if word != [] {
      HasChar(s, pos, word, 0);
      SkipTo(s, pos, pos);
      assert word == [word[0]] + word[1..];
      HasSplit(s, pos, [word[0]], word[1..]);
      ExpectExact(s, pos + 1, word[1..]);
    }
  }

  /** One step of the array reader: the closing bracket ends the list. */
  lemma ArrayItemsEnd(s: string, pos: nat, first: bool, p: nat)
    requires pos <= p < |s| && SkipWhitespace(s, pos) == p && s[p] == ']'
    ensures ArrayItems(s, pos, first) == Ok(Parsed([], p + 1))
  {
    hide ParseValue;
  }

  /** One step of the array reader: an item (after a comma unless it is the first), then
      the rest of the list. */
  lemma ArrayItemsCons(s: string, pos: nat, first: bool, q: nat, v: Value, next: nat, rest: seq<Value>, end: nat)
    requires pos <= |s| && q <= |s|
    requires first ==> SkipWhitespace(s, pos) == q && q < |s| && s[q] != ']'
    requires !first ==> pos < |s| && SkipWhitespace(s, pos) == pos && s[pos] == ',' && SkipWhitespace(s, pos + 1) == q
    requires ParseValue(s, q) == Ok(Parsed(v, next))
    requires ArrayItems(s, next, false) == Ok(Parsed(rest, end))
    ensures ArrayItems(s, pos, first) == Ok(Parsed([v] + rest, end))
  {
    hide ParseValue, SkipWhitespace;
  }

  /** Where the first written item lies: q is where the item reader starts, start where
      the item's text does. */
  lemma ItemLayout(items: seq<Value>, level: nat, first: bool, s: string, pos: nat, close: nat) returns (q: nat, start: nat)
    requires items != []
    requires Has(s, pos, (if first then "\n" else "") + WriteItems(items, level, first))
    requires Has(s, pos + |(if first then "\n" else "") + WriteItems(items, level, first)|, "\n" + Indent(close) + "]")
    ensures Has(s, start, Write(items[0], level)) && Delimited(s, start + |Write(items[0], level)|)
    ensures q <= start && forall k :: q <= k < start ==> IsWhitespace(s[k])
    ensures first ==> SkipWhitespace(s, pos) == q && q < |s| && s[q] != ']'
    ensures !first ==> pos < |s| && SkipWhitespace(s, pos) == pos && s[pos] == ',' && SkipWhitespace(s, pos + 1) == q
    ensures Has(s, start + |Write(items[0], level)|, WriteItems(items[1..], level, false))
    ensures start + |Write(items[0], level)| + |WriteItems(items[1..], level, false)|
      == pos + |(if first then "\n" else "") + WriteItems(items, level, first)|
  {
    hide ParseValue, ReadArray, ReadObject, ArrayItems, ObjectEntries, ReadNumber, ReadString, ReadStringBody, ExpectWord, Has, Write, WriteItems;
    var sep := if first then "\n" else ",\n";
    var w0 := Write(items[0], level);
    var rest := WriteItems(items[1..], level, false);
    WriteItemsHead(items, level, first);
    WriteNonEmpty(items[0], level);
    WriteItemsLead(items[1..], level);
    start := ElementLayout(s, pos, sep, level, w0, rest, "\n" + Indent(close) + "]");
    q := start;
  }

  lemma WriteItemsHead(items: seq<Value>, level: nat, first: bool)
    requires items != []
    ensures (if first then "\n" else "") + WriteItems(items, level, first)
      == (if first then "\n" else ",\n") + Indent(level) + Write(items[0], level) + WriteItems(items[1..], level, false)
  {
  }

  /** Where the pieces of one written element lie: a separator, the indentation, the
      element's text, then either a comma and further elements or the closing line. */
  lemma ElementLayout(s: string, pos: nat, sep: string, level: nat, w: string, rest: string, closing: string)
    returns (start: nat)
    requires sep == "\n" || sep == ",\n"
    requires |w| > 0 && w[0] != ']' && !IsWhitespace(w[0])
    requires rest == [] || rest[0] == ','
    requires |closing| > 0 && closing[0] == '\n'
    requires Has(s, pos, sep + Indent(level) + w + rest)
    requires Has(s, pos + |sep + Indent(level) + w + rest|, closing)
    ensures start == pos + |sep| + 4 * level
    ensures Has(s, start, w) && Delimited(s, start + |w|) && Has(s, start + |w|, rest)
    ensures forall k :: pos + |sep| - 1 <= k < start ==> IsWhitespace(s[k])
    ensures sep == "\n" ==> SkipWhitespace(s, pos) == start && start < |s| && s[start] != ']'
    ensures sep != "\n" ==> pos < |s| && SkipWhitespace(s, pos) == pos && s[pos] == ',' && SkipWhitespace(s, pos + 1) == start
  {
    hide Has;
    PieceLayout(s, pos, sep + Indent(level) + w + rest, sep, level, w, rest);
    start := pos + |sep| + 4 * level;
    var after := start + |w|;
    if rest == [] {
      HasChar(s, after, closing, 0);
    } else {
      HasChar(s, after, rest, 0);
    }
    if sep == "\n" {
      SkipTo(s, pos, start);
    } else {
      SkipTo(s, pos, pos);
      SkipTo(s, pos + 1, start);
    }
  }

  /** The items of a written array, the line feed before the first one included, read back
      up to the closing bracket. */
  lemma {:induction false} ReadWrittenItems(items: seq<Value>, level: nat, first: bool, s: string, pos: nat, close: nat)
    requires forall i :: 0 <= i < |items| ==> WellFormed(items[i])
    requires Has(s, pos, (if first then "\n" else "") + WriteItems(items, level, first))
    requires Has(s, pos + |(if first then "\n" else "") + WriteItems(items, level, first)|, "\n" + Indent(close) + "]")
    ensures ArrayItems(s, pos, first) ==
      Ok(Parsed(items, pos + |(if first then "\n" else "") + WriteItems(items, level, first)| + 2 + 4 * close))
    decreases items
  {
    hide ParseValue, ReadArray, ReadObject, ArrayItems, ObjectEntries, ReadNumber, ReadString, ReadStringBody, ExpectWord, Expect, SkipWhitespace, ReadCodePoint, Literal, Has, Write, WriteItems;
    var body := (if first then "\n" else "") + WriteItems(items, level, first);
    var end := pos + |body|;
    WriteItemsLead(items, level);
    if items == [] {
      HasChar(s, end, "\n" + Indent(close) + "]", 0);
      forall k | pos <= k < end ensures IsWhitespace(s[k]) {
        HasChar(s, pos, body, k - pos);
      }
      SkipClosing(s, end, close, ']');
      SkipTo(s, pos, end + 1 + 4 * close);
      ArrayItemsEnd(s, pos, first, end + 1 + 4 * close);
    } else {
      var q, start := ItemLayout(items, level, first, s, pos, close);
      var after := start + |Write(items[0], level)|;
      ReadWritten(items[0], level, s, q, start);
      var tail := items[1..];
      assert "" + WriteItems(tail, level, false) == WriteItems(tail, level, false);
      ReadWrittenItems(tail, level, false, s, after, close);
      ArrayItemsCons(s, pos, first, q, items[0], after, tail, end + 2 + 4 * close);
      assert [items[0]] + tail == items;
    }
  }

  /** Where the pieces of one written element lie: a separator, the indentation, the
      element's text and what follows it. */
  lemma PieceLayout(s: string, pos: nat, whole: string, sep: string, level: nat, w: string, rest: string)
    requires sep == "\n" || sep == ",\n"
    requires Has(s, pos, whole) && whole == sep + Indent(level) + w + rest && |w| > 0
    ensures Has(s, pos + |sep| + 4 * level, w) && Has(s, pos + |sep| + 4 * level + |w|, rest)
    ensures s[pos] == sep[0] && s[pos + |sep| + 4 * level] == w[0]
    ensures forall k :: pos + |sep| - 1 <= k < pos + |sep| + 4 * level ==> IsWhitespace(s[k])
  {
    hide Has;
    HasSplit(s, pos, sep + Indent(level) + w, rest);
    HasSplit(s, pos, sep + Indent(level), w);
    HasChar(s, pos, sep + Indent(level), 0);
    HasChar(s, pos + |sep| + 4 * level, w, 0);
    forall k | pos + |sep| - 1 <= k < pos + |sep| + 4 * level ensures IsWhitespace(s[k]) {
      HasChar(s, pos, sep + Indent(level), k - pos);
    }
  }

  lemma WriteItemsLead(items: seq<Value>, level: nat)
    ensures items == [] ==> WriteItems(items, level, true) == []
    ensures WriteItems(items, level, false) == [] <==> items == []
    ensures items != [] ==> WriteItems(items, level, false)[0] == ','
  {
  }

  lemma WriteEntriesLead(entries: seq<(string, Value)>, level: nat)
    ensures WriteEntries(entries, level, false) == [] <==> entries == []
    ensures entries != [] ==> WriteEntries(entries, level, false) == "," + "\n" + WriteEntries(entries, level, true)
  {
    hide Write, Quote, Indent;
    if entries != [] {
      var e := entries[0];
      var body := Indent(level) + Quote(e.0) + ": " + Write(e.1, level) + WriteEntries(entries[1..], level, false);
      assert WriteEntries(entries, level, false) == ",\n" + body;
      assert WriteEntries(entries, level, true) == "" + body;
    }
  }

  /** One step of the object reader: a key, a colon and a value, then the closing brace. */
  lemma ObjectEntriesLast(s: string, pos: nat, seen: set<string>, key: string, colon: nat, q: nat, v: Value, next: nat, p: nat)
    requires pos <= |s| && colon <= |s| && q <= |s|
    requires ReadString(s, pos) == Ok(Parsed(key, colon)) && Expect(s, colon, ':') == Ok(q)
    requires ParseValue(s, q) == Ok(Parsed(v, next)) && key !in seen
    requires SkipWhitespace(s, next) == p && p < |s| && s[p] == '}'
    ensures ObjectEntries(s, pos, seen) == Ok(Parsed([(key, v)], p + 1))
  {
    hide ParseValue, ReadString, Expect, SkipWhitespace;
  }

  /** One step of the object reader: a member, a comma and the remaining members. */
  lemma ObjectEntriesCons(s: string, pos: nat, seen: set<string>, key: string, colon: nat, q: nat, v: Value, next: nat, p: nat,
                          rest: seq<(string, Value)>, end: nat)
    requires pos <= |s| && colon <= |s| && q <= |s|
    requires ReadString(s, pos) == Ok(Parsed(key, colon)) && Expect(s, colon, ':') == Ok(q)
    requires ParseValue(s, q) == Ok(Parsed(v, next)) && key !in seen
    requires SkipWhitespace(s, next) == p && p < |s| && s[p] == ','
    requires ObjectEntries(s, p + 1, seen + {key}) == Ok(Parsed(rest, end))
    ensures ObjectEntries(s, pos, seen) == Ok(Parsed([(key, v)] + rest, end))
  {
    hide ParseValue, ReadString, Expect, SkipWhitespace;
  }

  lemma WriteEntriesHead(entries: seq<(string, Value)>, level: nat)
    requires entries != []
    ensures "\n" + WriteEntries(entries, level, true)
      == "\n" + Indent(level) + Quote(entries[0].0) + ": " + Write(entries[0].1, level) + WriteEntries(entries[1..], level, false)
  {
  }

  /** Where the first written member lies: its key is read back, the colon found, and the
      value's text starts at start. */
  lemma EntryLayout(entries: seq<(string, Value)>, level: nat, s: string, pos: nat, close: nat) returns (colon: nat, start: nat)
    requires entries != []
    requires Has(s, pos, "\n" + WriteEntries(entries, level, true))
    requires Has(s, pos + 1 + |WriteEntries(entries, level, true)|, "\n" + Indent(close) + "}")
    ensures Has(s, start, Write(entries[0].1, level)) && Delimited(s, start + |Write(entries[0].1, level)|)
    ensures colon + 1 <= start && forall k :: colon + 1 <= k < start ==> IsWhitespace(s[k])
    ensures ReadString(s, pos) == Ok(Parsed(entries[0].0, colon)) && Expect(s, colon, ':') == Ok(colon + 1)
    ensures Has(s, start + |Write(entries[0].1, level)|, WriteEntries(entries[1..], level, false))
    ensures start + |Write(entries[0].1, level)| + |WriteEntries(entries[1..], level, false)|
      == pos + 1 + |WriteEntries(entries, level, true)|
  {
    hide ParseValue, ReadArray, ReadObject, ArrayItems, ObjectEntries, ReadNumber, ReadString, Expect, ExpectWord, Has, Write, WriteEntries;
    WriteEntriesHead(entries, level);
    WriteNonEmpty(entries[0].1, level);
    WriteEntriesLead(entries[1..], level);
    colon, start := MemberLayout(s, pos, level, entries[0].0, Write(entries[0].1, level), WriteEntries(entries[1..], level, false),
      "\n" + Indent(close) + "}");
  }

  /** Where the pieces of one written member lie: a line feed, the indentation, the quoted
      key, a colon and a space, the value's text, then either a comma and further members
      or the closing line. */
  lemma MemberLayout(s: string, pos: nat, level: nat, key: string, w: string, rest: string, closing: string)
    returns (colon: nat, start: nat)
    requires |w| > 0 && !IsWhitespace(w[0])
    requires rest == [] || rest[0] == ','
    requires |closing| > 0 && closing[0] == '\n'
    requires Has(s, pos, "\n" + Indent(level) + Quote(key) + ": " + w + rest)
    requires Has(s, pos + |"\n" + Indent(level) + Quote(key) + ": " + w + rest|, closing)
    ensures start == colon + 2
    ensures Has(s, start, w) && Delimited(s, start + |w|) && Has(s, start + |w|, rest)
    ensures start + |w| + |rest| == pos + |"\n" + Indent(level) + Quote(key) + ": " + w + rest|
    ensures IsWhitespace(s[colon + 1])
    ensures ReadString(s, pos) == Ok(Parsed(key, colon)) && Expect(s, colon, ':') == Ok(colon + 1)
  {
    hide ParseValue, ReadArray, ReadObject, ArrayItems, ObjectEntries, ReadNumber, ReadString, ReadStringBody, ExpectWord, Has, Expect;
    var pre := "\n" + Indent(level) + Quote(key) + ": ";
    HasSplit(s, pos, pre + w, rest);
    HasSplit(s, pos, pre, w);
    colon := KeyLayout(s, pos, level, key);
    start := colon + 2;
    var after := start + |w|;
    if rest == [] {
      HasChar(s, after, closing, 0);
    } else {
      HasChar(s, after, rest, 0);
    }
  }

  /** A member's line up to its value: the key reads back and the colon follows it. */
  lemma KeyLayout(s: string, pos: nat, level: nat, key: string) returns (colon: nat)
    requires Has(s, pos, "\n" + Indent(level) + Quote(key) + ": ")
    ensures colon + 2 == pos + |"\n" + Indent(level) + Quote(key) + ": "|
    ensures IsWhitespace(s[colon + 1])
    ensures ReadString(s, pos) == Ok(Parsed(key, colon)) && Expect(s, colon, ':') == Ok(colon + 1)
  {
    hide ParseValue, ReadArray, ReadObject, ArrayItems, ObjectEntries, ReadNumber, ReadString, ReadStringBody, ExpectWord, Has;
    var head := "\n" + Indent(level);
    var q := Quote(key);
    HasSplit(s, pos, head + q, ": ");
    HasSplit(s, pos, head, q);
    var keyAt := pos + |head|;
    HasChar(s, pos, head, 0);
    forall k | pos <= k < keyAt ensures IsWhitespace(s[k]) {
      HasChar(s, pos, head, k - pos);
    }
    QuoteRoundTrip(key, s, pos, keyAt);
    colon := keyAt + |q|;
    HasChar(s, colon, ": ", 0);
    HasChar(s, colon, ": ", 1);
    SkipTo(s, colon, colon);
  }

  /** The members of a written object, the line feed before the first one included, read
      back up to the closing brace; keys are checked against those already read. */
  lemma {:induction false} ReadWrittenEntries(entries: seq<(string, Value)>, level: nat, s: string, pos: nat, close: nat, seen: set<string>)
    requires WellKeyed(entries, seen) && forall e :: e in entries ==> WellFormed(e.1)
    requires Has(s, pos, "\n" + WriteEntries(entries, level, true))
    requires Has(s, pos + 1 + |WriteEntries(entries, level, true)|, "\n" + Indent(close) + "}")
    ensures ObjectEntries(s, pos, seen) ==
      Ok(Parsed(entries, pos + 1 + |WriteEntries(entries, level, true)| + 2 + 4 * close))
    decreases entries
  {
    hide ParseValue, ReadArray, ReadObject, ArrayItems, ObjectEntries, ReadNumber, ReadString, ReadStringBody, ExpectWord, Expect, SkipWhitespace, ReadCodePoint, Literal, Has, Write, WriteEntries;
    var e := entries[0];
    assert e in entries;
    assert e.1 < e;
    var colon, start := EntryLayout(entries, level, s, pos, close);
    var after := start + |Write(e.1, level)|;
    ReadWritten(e.1, level, s, colon + 1, start);
    assert e.0 !in seen;
    var tail := entries[1..];
    var end := pos + 1 + |WriteEntries(entries, level, true)|;
    WriteEntriesLead(tail, level);
    if tail == [] {
      SkipClosing(s, after, close, '}');
      ObjectEntriesLast(s, pos, seen, e.0, colon, colon + 1, e.1, after, after + 1 + 4 * close);
      assert entries == [e];
    } else {
      assert forall x :: x in tail ==> x in entries;
      HasChar(s, after, WriteEntries(tail, level, false), 0);
      SkipTo(s, after, after);
      WellKeyedTail(entries, seen);
      assert WriteEntries(tail, level, false) == "," + ("\n" + WriteEntries(tail, level, true));
      HasSplit(s, after, ",", "\n" + WriteEntries(tail, level, true));
      ReadWrittenEntries(tail, level, s, after + 1, close, seen + {e.0});
      ObjectEntriesCons(s, pos, seen, e.0, colon, colon + 1, e.1, after, after, tail, end + 2 + 4 * close);
      assert [e] + tail == entries;
    }
  }

  lemma WellKeyedTail(entries: seq<(string, Value)>, seen: set<string>)
    requires WellKeyed(entries, seen) && |entries| > 1
    ensures WellKeyed(entries[1..], seen + {entries[0].0})
  {
    var tail := entries[1..];
    forall i | 0 <= i < |tail| ensures tail[i].0 !in seen + {entries[0].0} {
      assert tail[i] == entries[i + 1];
    }
    forall i, j | 0 <= i < j < |tail| ensures tail[i].0 != tail[j].0 {
      assert tail[i] == entries[i + 1] && tail[j] == entries[j + 1];
    }
  }

  /** Reading a serialized document gives back the value it was written from. */
  lemma SerializeRoundTrip(v: Value)
    requires WellFormed(v)
    ensures ParseDocument(Serialize(v)) == Ok(v)
  {
    hide ReadArray, ReadObject, ArrayItems, ObjectEntries, ReadNumber, ReadString, ReadStringBody, ExpectWord, Expect, ReadCodePoint, Literal, Write;
    var s := Serialize(v);
    var w := Write(v, 0);
    assert s[0..|w|] == w;
    ReadWritten(v, 0, s, 0, 0);
    SkipToEnd(s, |w|);
  }
}
