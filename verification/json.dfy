/** The JSON dialect read by the configuration tool: a recursive-descent reader over a
    string of characters. The reader keeps the dialect's departures from RFC 8259 as they
    are: only space, line feed and tab are whitespace, an object needs at least one
    member, "\u" takes four decimal digits, and the literal `false` reads as true. */
module Json {
  import opened Wrappers
  import opened Bytes

  /** A number is the exact decimal (-1 if negative) * mantissa * 10^exponent. */
  datatype Number = Number(negative: bool, mantissa: nat, exponent: int)

  /** A value; an object keeps its members in insertion order. */
  datatype Value =
    | Null
    | Bool(b: bool)
    | Num(n: Number)
    | Str(s: string)
    | Array(items: seq<Value>)
    | Object(entries: seq<(string, Value)>)

  /** ParseError is the reader's own exception; DuplicateKey is the exception a dictionary
      raises when a key is added twice, and NullReference the one raised when a null
      value's type is asked for. */
  datatype JsonError = ParseError | DuplicateKey | NullReference

  /** A reader's result: what was read and the position just after it. */
  datatype Parsed<T> = Parsed(value: T, next: nat)

  const Backspace: char := 8 as char

  predicate IsWhitespace(c: char) { c == ' ' || c == '\n' || c == '\t' }

  predicate IsDigit(c: char) { '0' <= c <= '9' }

  predicate AllDigits(d: string) { forall k :: 0 <= k < |d| ==> IsDigit(d[k]) }

  function DigitValue(c: char): (v: nat)
    requires IsDigit(c)
    ensures v < 10
  {
    (c as int) - ('0' as int)
  }

  function Pow10(n: nat): (r: nat)
    ensures r >= 1
  {
    if n == 0 then 1 else 10 * Pow10(n - 1)
  }

  /** The value of a string of decimal digits, most significant first. */
  function DigitsValue(d: string): (v: nat)
    requires AllDigits(d)
    ensures v < Pow10(|d|)
    decreases |d|
  {
    if d == [] then 0 else DigitsValue(d[..|d| - 1]) * 10 + DigitValue(d[|d| - 1])
  }

  /** The position of the first character at or after pos that is not whitespace. */
  function SkipWhitespace(s: string, pos: nat): (r: nat)
    requires pos <= |s|
    ensures pos <= r <= |s|
    ensures r == |s| || !IsWhitespace(s[r])
    decreases |s| - pos
  {
    if pos < |s| && IsWhitespace(s[pos]) then SkipWhitespace(s, pos + 1) else pos
  }

  /** Everything SkipWhitespace skips is whitespace. */
  lemma {:induction false} SkippedAreWhitespace(s: string, pos: nat)
    requires pos <= |s|
    ensures forall k :: pos <= k < SkipWhitespace(s, pos) ==> IsWhitespace(s[k])
    decreases |s| - pos
  {
    if pos < |s| && IsWhitespace(s[pos]) {
      SkippedAreWhitespace(s, pos + 1);
    }
  }

  /** Skip whitespace, then consume one character, which must be c. */
  function Expect(s: string, pos: nat, c: char): (r: Result<nat, JsonError>)
    requires pos <= |s|
    ensures r.Ok? ==> pos < r.value <= |s| && s[r.value - 1] == c
    ensures r.Err? ==> r.error == ParseError
  {
    var p := SkipWhitespace(s, pos);
    if p < |s| && s[p] == c then Ok(p + 1) else Err(ParseError)
  }

  /** Expect each character of word in turn; whitespace may precede every one of them. */
  function ExpectWord(s: string, pos: nat, word: string): (r: Result<nat, JsonError>)
    requires pos <= |s|
    ensures r.Ok? ==> pos + |word| <= r.value <= |s|
    ensures r.Err? ==> r.error == ParseError
    decreases |word|
  {
    if word == [] then Ok(pos)
    else
      match Expect(s, pos, word[0])
      case Err(e) => Err(e)
      case Ok(p) => ExpectWord(s, p, word[1..])
  }

  /** The first position at or after pos that does not hold a digit. */
  function DigitRun(s: string, pos: nat): (r: nat)
    requires pos <= |s|
    ensures pos <= r <= |s|
    ensures AllDigits(s[pos..r])
    ensures r == |s| || !IsDigit(s[r])
    decreases |s| - pos
  {
    if pos < |s| && IsDigit(s[pos]) then
      var r := DigitRun(s, pos + 1);
      assert s[pos..r] == [s[pos]] + s[pos + 1..r];
      r
    else pos
  }

  /** The character an escape other than "\u" stands for: the escape letter itself for
      a quote, a backslash or a slash, and a control character for b, n, r and t. */
  function SimpleEscape(c: char): (r: Option<char>)
    ensures r.Some? <==> c in "\"\\/bnrt"
    ensures r == Some(c) <==> c in "\"\\/"
  {
    if c == '"' || c == '\\' || c == '/' then Some(c)
    else if c == 'b' then Some(Backspace)
    else if c == 'n' then Some('\n')
    else if c == 'r' then Some('\r')
    else if c == 't' then Some('\t')
    else None
  }

  /** The four decimal digits of a "\u" escape, read most significant first. */
  function ReadCodePoint(s: string, pos: nat): (r: Result<Parsed<nat>, JsonError>)
    requires pos <= |s|
    ensures r.Ok? <==> pos + 4 <= |s| && AllDigits(s[pos..pos + 4])
    ensures r.Ok? ==> r.value == Parsed(DigitsValue(s[pos..pos + 4]), pos + 4)
    ensures r.Ok? ==> r.value.value < 10000
    ensures r.Err? ==> r.error == ParseError
  {
    assert Pow10(4) == 10 * Pow10(3) == 100 * Pow10(2) == 1000 * Pow10(1) == 10000;
    if pos + 4 <= |s| && AllDigits(s[pos..pos + 4]) then Ok(Parsed(DigitsValue(s[pos..pos + 4]), pos + 4))
    else Err(ParseError)
  }

  /** The characters of a string after its opening quote, up to and including the closing
      quote. */
  function ReadStringBody(s: string, pos: nat): (r: Result<Parsed<string>, JsonError>)
    requires pos <= |s|
    ensures r.Ok? ==> pos < r.value.next <= |s| && s[r.value.next - 1] == '"'
    ensures r.Err? ==> r.error == ParseError
    decreases |s| - pos
  {
    if pos == |s| then Err(ParseError)
    else if s[pos] == '"' then Ok(Parsed("", pos + 1))
    else if s[pos] != '\\' then Prepend(s[pos], ReadStringBody(s, pos + 1))
    else if pos + 1 == |s| then Err(ParseError)
    else if s[pos + 1] == 'u' then
      match ReadCodePoint(s, pos + 2)
      case Err(e) => Err(e)
      case Ok(code) =>
        Prepend(code.value as char, ReadStringBody(s, code.next))
    else
      match SimpleEscape(s[pos + 1])
      case None => Err(ParseError)
      case Some(c) => Prepend(c, ReadStringBody(s, pos + 2))
  }

  function Prepend(c: char, r: Result<Parsed<string>, JsonError>): Result<Parsed<string>, JsonError>
  {
    match r
    case Err(e) => Err(e)
    case Ok(p) => Ok(Parsed([c] + p.value, p.next))
  }

  /** A quoted string, after optional whitespace. */
  function ReadString(s: string, pos: nat): (r: Result<Parsed<string>, JsonError>)
    requires pos <= |s|
    ensures r.Ok? ==> pos + 2 <= r.value.next <= |s|
    ensures r.Err? ==> r.error == ParseError
  {
    match Expect(s, pos, '"')
    case Err(e) => Err(e)
    case Ok(p) => ReadStringBody(s, p)
  }

  /** A number token. The integral part is "0" or a non-zero digit followed by digits; a
      fraction contributes the characters "46" (the character code of '.') and its digits
      to the mantissa; the loop that reads exponent digits also consumes the character
      that ends them. */
  function ReadNumber(s: string, pos: nat): (r: Result<Parsed<Value>, JsonError>)
    requires pos < |s|
    ensures r.Ok? ==> pos < r.value.next <= |s| && r.value.value.Num?
    ensures r.Err? ==> r.error == ParseError
  {
    var negative := s[pos] == '-';
    var p := if negative then pos + 1 else pos;
    if p == |s| || !IsDigit(s[p]) then Err(ParseError)
    else
      var q := if s[p] == '0' then p + 1 else DigitRun(s, p);
      var integral := s[p..q];
      if q < |s| && s[q] == '.' then
        if q + 1 == |s| || !IsDigit(s[q + 1]) then Err(ParseError)
        else
          var f := DigitRun(s, q + 1);
          ReadExponent(s, f, negative, integral + "46" + s[q + 1..f])
      else ReadExponent(s, q, negative, integral)
  }

  function ReadExponent(s: string, pos: nat, negative: bool, digits: string): (r: Result<Parsed<Value>, JsonError>)
    requires pos <= |s| && AllDigits(digits)
    ensures r.Ok? ==> pos <= r.value.next <= |s|
    ensures r.Ok? ==> r.value.value.Num? && r.value.value.n.negative == negative
    ensures r.Ok? ==> r.value.value.n.mantissa == DigitsValue(digits)
    ensures (pos == |s| || (s[pos] != 'e' && s[pos] != 'E')) ==> r == Ok(Parsed(Num(Number(negative, DigitsValue(digits), 0)), pos))
    ensures r.Err? ==> r.error == ParseError
  {
    if pos < |s| && (s[pos] == 'e' || s[pos] == 'E') then
      var signed := pos + 1 < |s| && (s[pos + 1] == '+' || s[pos + 1] == '-');
      var t := if signed then pos + 2 else pos + 1;
      if t == |s| || !IsDigit(s[t]) then Err(ParseError)
      else
        var u := DigitRun(s, t);
        var magnitude := DigitsValue(s[t..u]);
        var exponent: int := if signed && s[pos + 1] == '-' then -(magnitude as int) else magnitude;
        Ok(Parsed(Num(Number(negative, DigitsValue(digits), exponent)), if u < |s| then u + 1 else u))
    else Ok(Parsed(Num(Number(negative, DigitsValue(digits), 0)), pos))
  }

  /** One value, after optional whitespace. */
  function ParseValue(s: string, pos: nat): (r: Result<Parsed<Value>, JsonError>)
    requires pos <= |s|
    ensures r.Err? ==> r.error != NullReference
    ensures r.Ok? ==> pos < r.value.next <= |s|
    ensures r.Ok? && r.value.value.Object? ==> WellKeyed(r.value.value.entries, {})
    decreases |s| - pos, 2
  {
    var p := SkipWhitespace(s, pos);
    if p == |s| then Err(ParseError)
    else if s[p] == '"' then
      match ReadString(s, p)
      case Err(e) => Err(e)
      case Ok(t) => Ok(Parsed(Str(t.value), t.next))
    else if s[p] == '{' then ReadObject(s, p)
    else if s[p] == '[' then ReadArray(s, p)
    else if s[p] == '-' || IsDigit(s[p]) then ReadNumber(s, p)
    else if s[p] == 'n' then Literal(s, p, "null", Null)
    else if s[p] == 't' then Literal(s, p, "true", Bool(true))
    else if s[p] == 'f' then Literal(s, p, "false", Bool(true))
    else Err(ParseError)
  }

  function Literal(s: string, pos: nat, word: string, v: Value): (r: Result<Parsed<Value>, JsonError>)
    requires pos <= |s| && |word| > 0
    ensures r.Err? ==> r.error != NullReference
    ensures r.Ok? ==> pos < r.value.next <= |s| && r.value.value == v
  {
    match ExpectWord(s, pos, word)
    case Err(e) => Err(e)
    case Ok(p) => Ok(Parsed(v, p))
  }

  function ReadArray(s: string, pos: nat): (r: Result<Parsed<Value>, JsonError>)
    requires pos < |s| && s[pos] == '['
    ensures r.Err? ==> r.error != NullReference
    ensures r.Ok? ==> pos < r.value.next <= |s| && r.value.value.Array?
    decreases |s| - pos, 1
  {
    match ArrayItems(s, pos + 1, true)
    case Err(e) => Err(e)
    case Ok(items) => Ok(Parsed(Array(items.value), items.next))
  }

  /** The items of an array up to and including its closing bracket. Every item but the
      first must be preceded by a comma; a closing bracket may end the list wherever an
      item could start, except right after a comma. */
  function ArrayItems(s: string, pos: nat, first: bool): (r: Result<Parsed<seq<Value>>, JsonError>)
    requires pos <= |s|
    ensures r.Err? ==> r.error != NullReference
    ensures r.Ok? ==> pos < r.value.next <= |s| && s[r.value.next - 1] == ']'
    decreases |s| - pos, 3
  {
    var p := SkipWhitespace(s, pos);
    if p < |s| && s[p] == ']' then Ok(Parsed([], p + 1))
    else if !first && p == |s| then Err(ParseError)
    else if !first && s[p] != ',' then Err(ParseError)
    else
      var q := if first then p else SkipWhitespace(s, p + 1);
      match ParseValue(s, q)
      case Err(e) => Err(e)
      case Ok(v) =>
        match ArrayItems(s, v.next, false)
        case Err(e) => Err(e)
        case Ok(rest) => Ok(Parsed([v.value] + rest.value, rest.next))
  }

  /** Keys that are pairwise distinct and not among those already read. */
  predicate WellKeyed(entries: seq<(string, Value)>, seen: set<string>)
  {
    |entries| > 0
    && (forall i, j :: 0 <= i < j < |entries| ==> entries[i].0 != entries[j].0)
    && (forall i :: 0 <= i < |entries| ==> entries[i].0 !in seen)
  }

  lemma WellKeyedCons(key: string, v: Value, rest: seq<(string, Value)>, seen: set<string>)
    requires key !in seen && WellKeyed(rest, seen + {key})
    ensures WellKeyed([(key, v)] + rest, seen)
  {
    var all := [(key, v)] + rest;
    forall i, j | 0 <= i < j < |all| ensures all[i].0 != all[j].0 {
      assert all[j] == rest[j - 1];
      if i > 0 { assert all[i] == rest[i - 1]; }
    }
    forall i | 0 <= i < |all| ensures all[i].0 !in seen {
      if i > 0 { assert all[i] == rest[i - 1]; }
    }
  }

  function ReadObject(s: string, pos: nat): (r: Result<Parsed<Value>, JsonError>)
    requires pos < |s| && s[pos] == '{'
    ensures r.Err? ==> r.error != NullReference
    ensures r.Ok? ==> pos < r.value.next <= |s| && r.value.value.Object?
    ensures r.Ok? ==> WellKeyed(r.value.value.entries, {})
    decreases |s| - pos, 1
  {
    match ObjectEntries(s, pos + 1, {})
    case Err(e) => Err(e)
    case Ok(entries) => Ok(Parsed(Object(entries.value), entries.next))
  }

  /** The members of an object up to and including its closing brace. Each member is a
      string key, a colon and a value, followed by a comma or the closing brace; adding a
      key already in seen raises DuplicateKey at once. */
  function ObjectEntries(s: string, pos: nat, seen: set<string>): (r: Result<Parsed<seq<(string, Value)>>, JsonError>)
    requires pos <= |s|
    ensures r.Err? ==> r.error != NullReference
    ensures r.Ok? ==> pos < r.value.next <= |s| && s[r.value.next - 1] == '}'
    ensures r.Ok? ==> WellKeyed(r.value.value, seen)
    decreases |s| - pos, 3
  {
    match ReadString(s, pos)
    case Err(e) => Err(e)
    case Ok(key) =>
      match Expect(s, key.next, ':')
      case Err(e) => Err(e)
      case Ok(p) =>
        match ParseValue(s, p)
        case Err(e) => Err(e)
        case Ok(v) =>
          if key.value in seen then Err(DuplicateKey)
          else
            var q := SkipWhitespace(s, v.next);
            if q == |s| then Err(ParseError)
            else if s[q] == '}' then Ok(Parsed([(key.value, v.value)], q + 1))
            else if s[q] != ',' then Err(ParseError)
            else
              match ObjectEntries(s, q + 1, seen + {key.value})
              case Err(e) => Err(e)
              case Ok(rest) =>
                WellKeyedCons(key.value, v.value, rest.value, seen);
                Ok(Parsed([(key.value, v.value)] + rest.value, rest.next))
  }

  /** A whole document: one value, then nothing but whitespace. */
  function ParseDocument(s: string): (r: Result<Value, JsonError>)
    ensures r.Ok? ==> ParseValue(s, 0).Ok? && r.value == ParseValue(s, 0).value.value
    ensures r.Ok? ==> forall k :: ParseValue(s, 0).value.next <= k < |s| ==> IsWhitespace(s[k])
    ensures ParseValue(s, 0).Err? ==> r == Err(ParseValue(s, 0).error)
  {
    match ParseValue(s, 0)
    case Err(e) => Err(e)
    case Ok(v) =>
      SkippedAreWhitespace(s, v.next);
      if SkipWhitespace(s, v.next) < |s| then Err(ParseError) else Ok(v.value)
  }

  /** Parsing with an expected outer kind: a null document raises NullReference when its
      type is asked for, and a document of another kind gives the empty container. */
  function ParseObjectDocument(s: string): (r: Result<seq<(string, Value)>, JsonError>)
    ensures ParseDocument(s) == Ok(Null) <==> r == Err(NullReference)
    ensures r.Ok? && ParseDocument(s).Ok? && ParseDocument(s).value.Object? ==> r.value == ParseDocument(s).value.entries
    ensures r.Ok? && r.value != [] ==> ParseDocument(s) == Ok(Object(r.value))
  {
    match ParseDocument(s)
    case Err(e) => Err(e)
    case Ok(Null) => Err(NullReference)
    case Ok(Object(entries)) => Ok(entries)
    case Ok(_) => Ok([])
  }

  function ParseArrayDocument(s: string): (r: Result<seq<Value>, JsonError>)
    ensures ParseDocument(s) == Ok(Null) <==> r == Err(NullReference)
    ensures r.Ok? && r.value != [] ==> ParseDocument(s) == Ok(Array(r.value))
  {
    match ParseDocument(s)
    case Err(e) => Err(e)
    case Ok(Null) => Err(NullReference)
    case Ok(Array(items)) => Ok(items)
    case Ok(_) => Ok([])
  }

  // ----- typed access (the Get extensions on lists and dictionaries) -----

  /** The kinds a parsed value can have; null has none. */
  datatype Kind = BoolKind | NumberKind | StringKind | ListKind | DictKind

  function KindOf(v: Value): Option<Kind>
  {
    match v
    case Null => None
    case Bool(_) => Some(BoolKind)
    case Num(_) => Some(NumberKind)
    case Str(_) => Some(StringKind)
    case Array(_) => Some(ListKind)
    case Object(_) => Some(DictKind)
  }

  /** What a typed Get finds: Ok(None) means "use the default" (absent, out of range or of
      another kind), Ok(Some(v)) a value of the wanted kind, and a null value raises. */
  function Typed(found: Option<Value>, kind: Kind): (r: Result<Option<Value>, JsonError>)
    ensures r.Err? ==> r.error == NullReference
    ensures r.Ok? && r.value.Some? ==> found == r.value && KindOf(r.value.value) == Some(kind)
    ensures r.Err? <==> found == Some(Null)
    ensures r == Ok(None) <==> found.None? || (found.value != Null && KindOf(found.value) != Some(kind))
  {
    match found
    case None => Ok(None)
    case Some(v) => if v == Null then Err(NullReference) else if KindOf(v) == Some(kind) then Ok(Some(v)) else Ok(None)
  }

  function At(items: seq<Value>, idx: int): (r: Option<Value>)
    ensures r.Some? <==> 0 <= idx < |items|
    ensures r.Some? ==> r.value == items[idx]
  {
    if 0 <= idx < |items| then Some(items[idx]) else None
  }

  /** The value of the first member with this key. */
  function Lookup(entries: seq<(string, Value)>, key: string): (r: Option<Value>)
    ensures r.Some? <==> exists i :: 0 <= i < |entries| && entries[i].0 == key
    ensures r.Some? ==> exists i :: 0 <= i < |entries| && entries[i] == (key, r.value)
  {
    if entries == [] then None
    else if entries[0].0 == key then Some(entries[0].1)
    else
      var r := Lookup(entries[1..], key);
      assert forall i :: 1 <= i < |entries| ==> entries[i] == entries[1..][i - 1];
      r
  }

  /** The first member with the key is the one found. */
  lemma {:induction false} LookupAt(entries: seq<(string, Value)>, i: nat, key: string)
    requires i < |entries| && entries[i].0 == key
    requires forall k :: 0 <= k < i ==> entries[k].0 != key
    ensures Lookup(entries, key) == Some(entries[i].1)
    decreases i
  {
    if i > 0 {
      assert entries[1..][i - 1] == entries[i];
      LookupAt(entries[1..], i - 1, key);
    }
  }

  /** m * 10^e, and m / 10^e rounded down. */
  function Scale(m: nat, e: nat): nat
  {
    if e == 0 then m else 10 * Scale(m, e - 1)
  }

  function Shrink(m: nat, e: nat): nat
  {
    if e == 0 then m else Shrink(m / 10, e - 1)
  }

  /** The magnitude of a number rounded toward zero. */
  function Magnitude(n: Number): nat
  {
    if n.exponent >= 0 then Scale(n.mantissa, n.exponent) else Shrink(n.mantissa, -n.exponent)
  }

  /** The conversion of a number to an integer, which rounds toward zero. */
  function TruncateToInt(n: Number): (r: int)
    ensures n.exponent == 0 ==> r == (if n.negative then -(n.mantissa as int) else n.mantissa)
    ensures (r < 0 ==> n.negative) && (r > 0 ==> !n.negative)
  {
    if n.negative then -(Magnitude(n) as int) else Magnitude(n)
  }

  /** Get<int> on a list: the element's number rounded toward zero. */
  function GetIntAt(items: seq<Value>, idx: int, default: int): (r: Result<int, JsonError>)
    ensures r.Err? ==> r.error == NullReference
    ensures r.Err? <==> 0 <= idx < |items| && items[idx] == Null
    ensures r.Ok? && 0 <= idx < |items| && items[idx].Num? ==> r.value == TruncateToInt(items[idx].n)
    ensures r.Ok? && !(0 <= idx < |items| && items[idx].Num?) ==> r.value == default
  {
    match Typed(At(items, idx), NumberKind)
    case Err(e) => Err(e)
    case Ok(None) => Ok(default)
    case Ok(Some(v)) => Ok(TruncateToInt(v.n))
  }

  /** Get<Byte> on a list: the element's number rounded toward zero, low 8 bits kept. */
  function GetByteAt(items: seq<Value>, idx: int, default: Byte): (r: Result<Byte, JsonError>)
    ensures r.Err? ==> r.error == NullReference
    ensures r.Err? <==> 0 <= idx < |items| && items[idx] == Null
    ensures r.Ok? && 0 <= idx < |items| && items[idx].Num? ==> r.value == Truncate8(TruncateToInt(items[idx].n))
    ensures r.Ok? && !(0 <= idx < |items| && items[idx].Num?) ==> r.value == default
  {
    match GetIntAt(items, idx, default)
    case Err(e) => Err(e)
    case Ok(v) => Ok(Truncate8(v))
  }

  function GetStringAt(items: seq<Value>, idx: int, default: string): (r: Result<string, JsonError>)
    ensures r.Err? ==> r.error == NullReference
    ensures r.Err? <==> 0 <= idx < |items| && items[idx] == Null
    ensures r.Ok? && 0 <= idx < |items| && items[idx].Str? ==> r.value == items[idx].s
    ensures r.Ok? && !(0 <= idx < |items| && items[idx].Str?) ==> r.value == default
  {
    match Typed(At(items, idx), StringKind)
    case Err(e) => Err(e)
    case Ok(None) => Ok(default)
    case Ok(Some(v)) => Ok(v.s)
  }

  /** Get<bool> on a dictionary. */
  function GetBool(entries: seq<(string, Value)>, key: string, default: bool): (r: Result<bool, JsonError>)
    ensures r.Err? ==> r.error == NullReference
    ensures r.Err? <==> Lookup(entries, key) == Some(Null)
    ensures r.Ok? && Lookup(entries, key).Some? && Lookup(entries, key).value.Bool? ==> r.value == Lookup(entries, key).value.b
    ensures r.Ok? && !(Lookup(entries, key).Some? && Lookup(entries, key).value.Bool?) ==> r.value == default
  {
    match Typed(Lookup(entries, key), BoolKind)
    case Err(e) => Err(e)
    case Ok(None) => Ok(default)
    case Ok(Some(v)) => Ok(v.b)
  }

  /** Get<List<object>> on a dictionary, with a default that may itself be null (None). */
  function GetList(entries: seq<(string, Value)>, key: string, default: Option<seq<Value>>): (r: Result<Option<seq<Value>>, JsonError>)
    ensures r.Err? ==> r.error == NullReference
    ensures r.Err? <==> Lookup(entries, key) == Some(Null)
    ensures r.Ok? && Lookup(entries, key).Some? && Lookup(entries, key).value.Array? ==> r.value == Some(Lookup(entries, key).value.items)
    ensures r.Ok? && !(Lookup(entries, key).Some? && Lookup(entries, key).value.Array?) ==> r.value == default
  {
    match Typed(Lookup(entries, key), ListKind)
    case Err(e) => Err(e)
    case Ok(None) => Ok(default)
    case Ok(Some(v)) => Ok(Some(v.items))
  }
}
