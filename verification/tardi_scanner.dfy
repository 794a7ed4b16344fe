/** The stand-alone scanner crate: splits source text into whitespace-separated
    words and double-quoted strings, recording each value's byte position and
    byte length, and reads numbers with radix prefixes and width suffixes. */
module TardiScanner {
  import opened Base

  /** The semantic data of a scanned value */
  datatype ValueData =
    | Bool(b: bool)
    | I8(n: int) | I16(n: int) | I32(n: int) | I64(n: int) | I128(n: int) | Isize(n: int)
    | U8(n: int) | U16(n: int) | U32(n: int) | U64(n: int) | U128(n: int) | Usize(n: int)
    | Word(word: string)
    | String(s: string)

  /** A scanned value: its data, its source text, its byte index and byte length */
  datatype Value = Value(data: ValueData, text: string, index: Option<nat>, length: Option<nat>)

  const I128_MIN: int := -0x8000_0000_0000_0000_0000_0000_0000_0000
  const I128_MAX: int := 0x7FFF_FFFF_FFFF_FFFF_FFFF_FFFF_FFFF_FFFF

  // ---------------------------------------------------------------------
  // Numbers

  /** The integer types a `:suffix` can select */
  datatype IntType = I8T | I16T | I32T | I64T | I128T | IsizeT | U8T | U16T | U32T | U64T | U128T | UsizeT

  /** The suffix table: each type is written in lower case or with a capital */
  function SuffixType(code: string): (t: Option<IntType>)
  {
    if code == "i8" || code == "I8" then Some(I8T)
    else if code == "i16" || code == "I16" then Some(I16T)
    else if code == "i32" || code == "I32" then Some(I32T)
    else if code == "i64" || code == "I64" then Some(I64T)
    else if code == "i128" || code == "I128" then Some(I128T)
    else if code == "isize" || code == "Isize" then Some(IsizeT)
    else if code == "u8" || code == "U8" then Some(U8T)
    else if code == "u16" || code == "U16" then Some(U16T)
    else if code == "u32" || code == "U32" then Some(U32T)
    else if code == "u64" || code == "U64" then Some(U64T)
    else if code == "u128" || code == "U128" then Some(U128T)
    else if code == "usize" || code == "Usize" then Some(UsizeT)
    else None
  }

  /** `i as T` from an i128, on a 64-bit target */
  function Cast(t: IntType, i: int): (d: ValueData)
  {
    match t
    case I8T => I8(Truncate(i, 0x100, true))
    case I16T => I16(Truncate(i, 0x1_0000, true))
    case I32T => I32(Truncate(i, 0x1_0000_0000, true))
    case I64T => I64(Truncate(i, TWO_64, true))
    case I128T => I128(i)
    case IsizeT => Isize(Truncate(i, TWO_64, true))
    case U8T => U8(Truncate(i, 0x100, false))
    case U16T => U16(Truncate(i, 0x1_0000, false))
    case U32T => U32(Truncate(i, 0x1_0000_0000, false))
    case U64T => U64(Truncate(i, TWO_64, false))
    case U128T => U128(Truncate(i, 2 * (I128_MAX + 1), false))
    case UsizeT => Usize(Truncate(i, TWO_64, false))
  }

  /** `s` with every occurrence of `c` removed (`str::replace(c, "")`) */
  function Remove(s: string, c: char): (r: string)
    ensures |r| <= |s|
  {
    if s == [] then []
    else (if s[0] == c then [] else [s[0]]) + Remove(s[1..], c)
  }

  predicate HasPrefix2(s: string, a: string, b: string) {
    IsPrefix(a, s) || IsPrefix(b, s)
  }

  /** An i128 with a `0x`, `0o` or `0b` radix prefix, or a decimal that is
      retried with `_` and `,` separators removed */
  function ParseSignedNumber(buffer: string): (r: Option<int>)
    ensures r.Some? ==> I128_MIN <= r.value <= I128_MAX
  {
    if HasPrefix2(buffer, "0x", "0X") then ParseInt(buffer[2..], 16, I128_MIN, I128_MAX)
    else if HasPrefix2(buffer, "0o", "0O") then ParseInt(buffer[2..], 8, I128_MIN, I128_MAX)
    else if HasPrefix2(buffer, "0b", "0B") then ParseInt(buffer[2..], 2, I128_MIN, I128_MAX)
    else match ParseInt(buffer, 10, I128_MIN, I128_MAX)
      case Some(v) => Some(v)
      case None => ParseInt(Remove(Remove(buffer, '_'), ','), 10, I128_MIN, I128_MAX)
  }

  /** A number with an optional `:type` suffix; an unknown suffix re-parses the
      whole buffer as an isize */
  function ParseFullNumber(buffer: string): (r: Option<ValueData>)
    ensures r.Some? ==> IsNumeric(r.value)
    ensures ':' !in buffer ==> r == ParseTyped(buffer, IsizeT)
  {
    var split := SplitOnceChar(buffer, ':');
    if split.Some? && SuffixType(split.value.1).Some? then
      ParseTyped(split.value.0, SuffixType(split.value.1).value)
    else
      ParseTyped(buffer, IsizeT)
  }

  /** `parse_signed_number(numeric).map(|i| T(i as t))` */
  function ParseTyped(numeric: string, t: IntType): (r: Option<ValueData>)
    ensures r.Some? <==> ParseSignedNumber(numeric).Some?
    ensures r.Some? ==> IsNumeric(r.value)
    ensures t == I128T && r.Some? ==> r.value == I128(ParseSignedNumber(numeric).value)
  {
    match ParseSignedNumber(numeric)
    case Some(i) => Some(Cast(t, i))
    case None => None
  }

  /** Data that holds a number of one of the integer types */
  predicate IsNumeric(d: ValueData) { !(d.Bool? || d.Word? || d.String?) }

  predicate NumberStart(c: char) { IsAsciiDigit(c) || c == '-' || c == '+' }

  /** The data of a non-empty word: a number when it starts like one and parses */
  function ClassifyWord(buffer: string): (d: ValueData)
    requires buffer != []
  {
    if NumberStart(buffer[0]) && ParseFullNumber(buffer).Some? then ParseFullNumber(buffer).value
    else Word(buffer)
  }

  // ---------------------------------------------------------------------
  // Positions

  /** The first index at or after `p` whose whitespace-ness is `ws`, or the end */
  function FirstFrom(input: string, p: nat, ws: bool): (q: nat)
    requires p <= |input|
    ensures p <= q <= |input|
    ensures forall i :: p <= i < q ==> IsWhitespace(input[i]) != ws
    ensures q == |input| || IsWhitespace(input[q]) == ws
    decreases |input| - p
  {
    if p == |input| || IsWhitespace(input[p]) == ws then p else FirstFrom(input, p + 1, ws)
  }

  lemma {:induction false} FirstFromUnique(input: string, p: nat, ws: bool, q: nat)
    requires p <= q <= |input|
    requires forall i :: p <= i < q ==> IsWhitespace(input[i]) != ws
    requires q == |input| || IsWhitespace(input[q]) == ws
    ensures q == FirstFrom(input, p, ws)
    decreases q - p
  {
    if p < q {
      FirstFromUnique(input, p + 1, ws, q);
    }
  }

  /** The byte offset of the char at index `p` */
  function ByteIndex(input: string, p: nat): nat
    requires p <= |input|
  {
    ByteLen(input[..p])
  }

  /** The word starting at `p` (none when `p` is at whitespace or the end),
      and where scanning stops */
  function WordAt(input: string, p: nat): (r: (Option<Value>, nat))
    requires p <= |input|
  {
    var q := FirstFrom(input, p, true);
    if q == p then (None, q)
    else
      var text := input[p..q];
      (Some(Value(ClassifyWord(text), text, Some(ByteIndex(input, p)), Some(ByteLen(text)))), q)
  }

  /** The body of a string whose next unread char is at `i`, with `acc`
      already read: the unescaped data and the index just past the closing
      quote (or the end of input) */
  function BodyFrom(input: string, i: nat, acc: string): (r: (string, nat))
    requires i <= |input|
    ensures i <= r.1 <= |input|
    ensures i < |input| ==> i < r.1
    decreases |input| - i
  {
    if i == |input| then (acc, i)
    else if input[i] == '"' then (acc, i + 1)
    else if input[i] == '\\' then
      if i + 1 == |input| then (acc, i + 1)
      else BodyFrom(input, i + 2, acc + [input[i + 1]])
    else BodyFrom(input, i + 1, acc + [input[i]])
  }

  /** The string whose opening char is at `p` */
  function StringAt(input: string, p: nat): (r: (Option<Value>, nat))
    requires p <= |input|
  {
    if p == |input| then (None, p)
    else
      var (d, e) := BodyFrom(input, p + 1, "");
      var text := input[p..e];
      (Some(Value(String(d), text, Some(ByteIndex(input, p)), Some(ByteLen(text)))), e)
  }

  /** Extending the text read so far by the char at `q` */
  lemma TextSnoc(input: string, p0: nat, q: nat, buffer: string, length: nat)
    requires p0 <= q < |input| && buffer == input[p0..q] && length == ByteLen(buffer)
    ensures buffer + [input[q]] == input[p0..q + 1]
    ensures length + Utf8Len(input[q]) == ByteLen(input[p0..q + 1])
  {
    assert input[p0..q + 1] == input[p0..q] + [input[q]];
    ByteLenSnoc(buffer, input[q]);
  }

  /** The index of the next unread char, as seen at the head of the string loop */
  function Following(input: string, p: nat): nat
    requires p <= |input|
  {
    if p < |input| then p + 1 else p
  }

  /** One step of the iterator from cursor `p`: the value and the new cursor */
  function NextAt(input: string, p: nat): (r: (Option<Value>, nat))
    requires p <= |input|
    ensures p <= r.1 <= |input|
    ensures r.0.None? <==> forall i :: p <= i < |input| ==> IsWhitespace(input[i])
    ensures r.0.Some? ==> p < r.1 && r.0.value.text != [] && !IsWhitespace(r.0.value.text[0])
  {
    var q := FirstFrom(input, p, false);
    if q < |input| && input[q] == '"' then StringAt(input, q) else WordAt(input, q)
  }

  /** Everything the iterator yields from cursor `p` */
  function ScanFrom(input: string, p: nat): seq<Value>
    requires p <= |input|
    decreases |input| - p
  {
    var (v, q) := NextAt(input, p);
    if v.None? || q <= p then [] else [v.value] + ScanFrom(input, q)
  }

  // ---------------------------------------------------------------------
  // The scanner

  class Scanner {
    const input: string
    /** index (in chars) of the last char read; `|input|` once the chars run out */
    var pos: nat

    ghost predicate Valid()
      reads this
    {
      pos <= |input|
    }

    /** The `(byte index, char)` pair last read, as `CharIndices` yields it */
    function Last(): (r: Option<(nat, char)>)
      reads this
      requires Valid()
      ensures r.Some? <==> pos < |input|
    {
      if pos < |input| then Some((ByteIndex(input, pos), input[pos])) else None
    }

    constructor FromString(input: string)
      ensures Valid() && this.input == input && pos == 0
    {
      this.input := input;
      pos := 0;
    }

    method ReadChar()
      requires Valid()
      modifies this
      ensures Valid()
      ensures pos == if old(pos) < |input| then old(pos) + 1 else old(pos)
    {
      if pos < |input| {
        pos := pos + 1;
      }
    }

    method SkipWhitespace()
      requires Valid()
      modifies this
      ensures Valid() && pos == FirstFrom(input, old(pos), false)
    {
      ghost var p0 := pos;
      while pos < |input| && IsWhitespace(input[pos])
        invariant p0 <= pos <= |input|
        invariant forall i :: p0 <= i < pos ==> IsWhitespace(input[i])
        decreases |input| - pos
      {
        ReadChar();
      }
      FirstFromUnique(input, p0, false, pos);
    }

    method ReadWord() returns (v: Option<Value>)
      requires Valid()
      modifies this
      ensures Valid() && (v, pos) == WordAt(input, old(pos))
    {
      ghost var p0 := pos;
      var start := if pos < |input| then ByteIndex(input, pos) else 0;
      var length := 0;
      var buffer := "";
      while pos < |input| && !IsWhitespace(input[pos])
        invariant p0 <= pos <= |input|
        invariant forall i :: p0 <= i < pos ==> !IsWhitespace(input[i])
        invariant buffer == input[p0..pos]
        invariant length == ByteLen(buffer)
        decreases |input| - pos
      {
        ByteLenSnoc(buffer, input[pos]);
        buffer := buffer + [input[pos]];
        length := length + Utf8Len(input[pos]);
        ReadChar();
      }
      FirstFromUnique(input, p0, true, pos);
      if buffer == [] {
        return None;
      }
      v := Some(Value(ClassifyWord(buffer), buffer, Some(start), Some(length)));
    }

    method ReadString() returns (v: Option<Value>)
      requires Valid()
      modifies this
      ensures Valid() && (v, pos) == StringAt(input, old(pos))
    {
      ghost var p0 := pos;
      if pos == |input| {
        return None;
      }
      var buffer := [input[pos]];
      var data := "";
      var start := ByteIndex(input, pos);
      var length := Utf8Len(input[pos]);
      assert ByteLen(buffer) == length by { assert buffer[..0] == []; }
      ghost var whole := BodyFrom(input, p0 + 1, "");
      var done := false;
      while !done
        invariant p0 <= pos <= |input|
        invariant !done ==> BodyFrom(input, Following(input, pos), data) == whole
        invariant done ==> whole == (data, pos)
        invariant buffer == input[p0..if done then pos else Following(input, pos)]
        invariant length == ByteLen(buffer)
        decreases |input| - pos, !done
      {
        data, buffer, length, done := ReadStringChar(p0, data, buffer, length);
      }
      v := Some(Value(String(data), buffer, Some(start), Some(length)));
    }

    /** One pass of the string loop: read a char and act on it (closing quote,
        escape, plain char or end of input) */
    method ReadStringChar(ghost p0: nat, data: string, buffer: string, length: nat)
      returns (data': string, buffer': string, length': nat, done: bool)
      requires Valid() && p0 <= pos && buffer == input[p0..Following(input, pos)] && length == ByteLen(buffer)
      modifies this
      ensures Valid() && old(pos) <= pos
      ensures done ==> BodyFrom(input, Following(input, old(pos)), data) == (data', pos)
      ensures done ==> buffer' == input[p0..pos]
      ensures !done ==> (old(pos) < pos
        && BodyFrom(input, Following(input, pos), data') == BodyFrom(input, Following(input, old(pos)), data)
        && buffer' == input[p0..Following(input, pos)])
      ensures length' == ByteLen(buffer')
    {
      data', buffer', length', done := data, buffer, length, false;
      ReadChar();
      if pos == |input| {
        return data', buffer', length', true;
      }
      var c := input[pos];
      TextSnoc(input, p0, pos, buffer', length');
      buffer' := buffer' + [c];
      length' := length' + Utf8Len(c);
      if c == '"' {
        ReadChar();
        done := true;
      } else if c == '\\' {
        ReadChar();
        if pos < |input| {
          var c1 := input[pos];
          TextSnoc(input, p0, pos, buffer', length');
          data' := data' + [c1];
          buffer' := buffer' + [c1];
          length' := length' + Utf8Len(c1);
        }
      } else {
        data' := data' + [c];
      }
    }

    /** `Iterator::next`: skip whitespace, then a string or a word */
    method Next() returns (v: Option<Value>)
      requires Valid()
      modifies this
      ensures Valid() && (v, pos) == NextAt(input, old(pos))
    {
      SkipWhitespace();
      if pos < |input| && input[pos] == '"' {
        v := ReadString();
      } else {
        v := ReadWord();
      }
    }
  }

  // ---------------------------------------------------------------------
  // Properties

  /** A step yields a value exactly when something other than whitespace is
      left, and a step that yields a value moves the cursor. */
  lemma NextYieldsIffNotBlank(input: string, p: nat)
    requires p <= |input|
    ensures NextAt(input, p).0.None? <==> AllWhitespace(input[p..])
    ensures NextAt(input, p).0.Some? ==> NextAt(input, p).1 > p
  {
    var q := FirstFrom(input, p, false);
    if q < |input| {
      assert input[p..][q - p] == input[q];
      if input[q] != '"' {
        assert FirstFrom(input, q, true) != q;
      }
    } else {
      assert forall i :: 0 <= i < |input[p..]| ==> input[p..][i] == input[p + i];
    }
  }

  /** Empty or all-whitespace input yields no values at all. */
  lemma BlankInputYieldsNothing(input: string)
    ensures ScanFrom(input, 0) == [] <==> AllWhitespace(input)
  {
    NextYieldsIffNotBlank(input, 0);
    assert input[0..] == input;
  }

  /** A word's text is non-empty and free of whitespace, it is followed by
      whitespace or the end of input, its index is the byte offset of its
      first char and its length is the byte length of its text. */
  lemma WordShape(input: string, p: nat)
    requires p <= |input|
    requires WordAt(input, p).0.Some?
    ensures var (v, q) := WordAt(input, p);
      && v.value.text != [] && NoWhitespace(v.value.text)
      && v.value.text == input[p..q]
      && (q == |input| || IsWhitespace(input[q]))
      && v.value.index == Some(ByteLen(input[..p]))
      && v.value.length == Some(ByteLen(v.value.text))
      && ByteLen(input[..q]) == ByteLen(input[..p]) + ByteLen(v.value.text)
  {
    var q := FirstFrom(input, p, true);
    assert input[..q] == input[..p] + input[p..q];
    ByteLenAppend(input[..p], input[p..q]);
  }

  /** An escaped body followed by a quote reads back as its data, and ends
      just past the closing quote. */
  lemma {:induction false} BodyOfEscaped(input: string, i: nat, acc: string, d: string)
    requires TextAt(input, i, Escape(d) + ['"'])
    ensures BodyFrom(input, i, acc) == (acc + d, i + |Escape(d)| + 1)
    decreases d
  {
    if d == [] {
      assert Escape(d) + ['"'] == ['"'];
      assert acc + d == acc;
    } else {
      var head := EscapeChar(d[0]);
      EscapedSplit(input, i, d);
      if |head| == 2 {
        assert TextAt(input, i + 1, head[1..]);
      }
      BodyOfEscaped(input, i + |head|, acc + [d[0]], d[1..]);
      EscapeLength(d);
      assert acc + [d[0]] + d[1..] == acc + d;
    }
  }

  /** A quoted, escaped string in the input: its body and its text */
  lemma QuotedParts(input: string, p: nat, d: string)
    requires TextAt(input, p, ['"'] + (Escape(d) + ['"']))
    ensures p + |Escape(d)| + 2 <= |input|
    ensures BodyFrom(input, p + 1, "") == (d, p + |Escape(d)| + 2)
    ensures input[p..p + |Escape(d)| + 2] == ['"'] + (Escape(d) + ['"'])
  {
    TextSplit(input, p, ['"'], Escape(d) + ['"']);
    BodyOfEscaped(input, p + 1, "", d);
    assert "" + d == d;
    TextAtSlice(input, p, ['"'] + (Escape(d) + ['"']));
  }

  /** Round trip: a quoted, escaped string scans back to its data, with the
      quotes and backslashes kept in its text. */
  lemma StringRoundTrip(input: string, p: nat, d: string)
    requires TextAt(input, p, ['"'] + (Escape(d) + ['"']))
    ensures p + |Escape(d)| + 2 <= |input|
    ensures var e := p + |Escape(d)| + 2;
      && StringAt(input, p) == (Some(Value(String(d), input[p..e], Some(ByteIndex(input, p)), Some(ByteLen(input[p..e])))), e)
      && input[p..e] == ['"'] + (Escape(d) + ['"'])
  {
    QuotedParts(input, p, d);
  }

  /** A `0x`/`0X`, `0o`/`0O` or `0b`/`0B` prefix selects radix 16, 8 or 2 for
      the rest of the buffer. */
  lemma RadixPrefixes(digits: string)
    ensures ParseSignedNumber("0x" + digits) == ParseInt(digits, 16, I128_MIN, I128_MAX)
    ensures ParseSignedNumber("0X" + digits) == ParseInt(digits, 16, I128_MIN, I128_MAX)
    ensures ParseSignedNumber("0o" + digits) == ParseInt(digits, 8, I128_MIN, I128_MAX)
    ensures ParseSignedNumber("0O" + digits) == ParseInt(digits, 8, I128_MIN, I128_MAX)
    ensures ParseSignedNumber("0b" + digits) == ParseInt(digits, 2, I128_MIN, I128_MAX)
    ensures ParseSignedNumber("0B" + digits) == ParseInt(digits, 2, I128_MIN, I128_MAX)
  {
    assert ("0x" + digits)[2..] == digits;
    assert ("0X" + digits)[2..] == digits;
    assert ("0o" + digits)[2..] == digits;
    assert ("0O" + digits)[2..] == digits;
    assert ("0b" + digits)[2..] == digits;
    assert ("0B" + digits)[2..] == digits;
  }

  /** Plain decimal digits read back as the number they show. */
  lemma DecimalRoundTrip(n: nat)
    requires n <= I128_MAX
    ensures ParseSignedNumber(ShowNat(n)) == Some(n)
  {
    var s := ShowNat(n);
    DigitsValueShowNat(n);
    DecimalParses(s);
  }

  /** A string of decimal digits is read by the plain decimal parse. */
  lemma DecimalParses(s: string)
    requires |s| > 0 && AllDigits(s, 10) && DigitsValue(s, 10) <= I128_MAX
    ensures ParseSignedNumber(s) == Some(DigitsValue(s, 10))
  {
    NotRadixPrefixed(s);
    UnsignedDigits(s);
  }

  lemma NotRadixPrefixed(s: string)
    requires |s| > 1 ==> DigitValue(s[1]) < 10 || s[1] == '_' || s[1] == ','
    ensures !HasPrefix2(s, "0x", "0X") && !HasPrefix2(s, "0o", "0O") && !HasPrefix2(s, "0b", "0B")
  {
    if |s| >= 2 {
      assert s[..2][1] == s[1];
    }
  }

  lemma UnsignedDigits(s: string)
    requires |s| > 0 && AllDigits(s, 10) && DigitsValue(s, 10) <= I128_MAX
    ensures ParseInt(s, 10, I128_MIN, I128_MAX) == Some(DigitsValue(s, 10))
  {
    assert DigitValue(s[0]) < 10;
  }

  /** Decimal digits with any number of `_` and `,` separators among them */
  predicate DigitsAndSeparators(s: string) {
    forall i :: 0 <= i < |s| ==> DigitValue(s[i]) < 10 || s[i] == '_' || s[i] == ','
  }

  /** A decimal written with `_` and `,` separators anywhere after its first
      digit (`1_000_000`, `1,000,000`) reads as its digits with every
      separator removed. */
  lemma SeparatorsIgnored(s: string)
    requires |s| > 0 && DigitValue(s[0]) < 10 && DigitsAndSeparators(s)
    requires DigitsValue(Remove(Remove(s, '_'), ','), 10) <= I128_MAX
    ensures ParseSignedNumber(s) == Some(DigitsValue(Remove(Remove(s, '_'), ','), 10))
  {
    var d := Remove(Remove(s, '_'), ',');
    NotRadixPrefixed(s);
    if AllDigits(s, 10) {
      NoSeparators(s);
      UnsignedDigits(s);
    } else {
      SeparatedFails(s);
      SeparatorsRemoved(s);
      UnsignedDigits(d);
    }
  }

  /** A digit-led string with a non-digit in it is no plain decimal. */
  lemma SeparatedFails(s: string)
    requires |s| > 0 && DigitValue(s[0]) < 10 && !AllDigits(s, 10)
    ensures ParseInt(s, 10, I128_MIN, I128_MAX) == None
  {
    assert s[0] != '+' && s[0] != '-';
  }

  /** Removing both separators leaves a non-empty digit string. */
  lemma SeparatorsRemoved(s: string)
    requires |s| > 0 && DigitValue(s[0]) < 10 && DigitsAndSeparators(s)
    ensures |Remove(Remove(s, '_'), ',')| > 0 && AllDigits(Remove(Remove(s, '_'), ','), 10)
  {
    var u := Remove(s, '_');
    var d := Remove(u, ',');
    RemoveFrom(s, '_');
    RemoveFrom(u, ',');
    RemoveHead(s, '_');
    RemoveHead(u, ',');
    forall k | 0 <= k < |d|
      ensures DigitValue(d[k]) < 10
    {
      var j :| 0 <= j < |u| && u[j] == d[k];
      var i :| 0 <= i < |s| && s[i] == u[j];
    }
  }

  /** Every char left by `Remove` comes from the input and is not the removed one. */
  lemma {:induction false} RemoveFrom(s: string, c: char)
    ensures forall k :: 0 <= k < |Remove(s, c)| ==>
      Remove(s, c)[k] != c && exists i :: 0 <= i < |s| && s[i] == Remove(s, c)[k]
  {
    if s != [] {
      RemoveFrom(s[1..], c);
      var r := Remove(s, c);
      var t := Remove(s[1..], c);
      var h := if s[0] == c then [] else [s[0]];
      assert r == h + t;
      forall k | 0 <= k < |r|
        ensures r[k] != c && exists i :: 0 <= i < |s| && s[i] == r[k]
      {
        if k < |h| {
          assert s[0] == r[k];
        } else {
          assert r[k] == t[k - |h|];
          var i :| 0 <= i < |s[1..]| && s[1..][i] == t[k - |h|];
          assert s[i + 1] == r[k];
        }
      }
    }
  }

  /** A first char other than the removed one stays first. */
  lemma RemoveHead(s: string, c: char)
    requires s != [] && s[0] != c
    ensures Remove(s, c) != [] && Remove(s, c)[0] == s[0]
  {
  }

  lemma AllDigitsAppend(x: string, y: string)
    requires AllDigits(x, 10) && AllDigits(y, 10)
    ensures AllDigits(x + y, 10)
  {
    assert forall i :: 0 <= i < |x + y| ==> (x + y)[i] == if i < |x| then x[i] else y[i - |x|];
  }

  lemma RemoveSplits(x: string, sep: char, y: string)
    requires sep == '_' || sep == ','
    requires AllDigits(x, 10) && AllDigits(y, 10)
    ensures Remove(Remove(x + [sep] + y, '_'), ',') == x + y
  {
    NoSeparators(x);
    NoSeparators(y);
    RemoveOne(x, sep, y, '_');
    if sep == '_' {
      RemoveAppend(x, y, ',');
    } else {
      RemoveOne(x, sep, y, ',');
    }
  }

  lemma RemoveOne(x: string, sep: char, y: string, c: char)
    requires Remove(x, c) == x && Remove(y, c) == y
    ensures Remove(x + [sep] + y, c) == if sep == c then x + y else x + [sep] + y
  {
    var u := [sep] + y;
    assert x + [sep] + y == x + u;
    RemoveAppend(x, u, c);
    RemoveCons(sep, y, c);
    if sep == c {
      assert [] + Remove(y, c) == y;
    }
  }

  lemma RemoveCons(c0: char, t: string, c: char)
    ensures Remove([c0] + t, c) == (if c0 == c then [] else [c0]) + Remove(t, c)
  {
    assert ([c0] + t)[1..] == t;
  }

  lemma {:induction false} NoSeparators(x: string)
    requires AllDigits(x, 10)
    ensures Remove(x, '_') == x && Remove(x, ',') == x
  {
    if x != [] {
      assert DigitValue(x[0]) < 10;
      NoSeparators(x[1..]);
      assert [x[0]] + x[1..] == x;
    }
  }

  lemma {:induction false} RemoveAppend(s: string, t: string, c: char)
    ensures Remove(s + t, c) == Remove(s, c) + Remove(t, c)
  {
    if s != [] {
      assert (s + t)[1..] == s[1..] + t;
      RemoveAppend(s[1..], t, c);
    } else {
      assert s + t == t;
    }
  }

  /** A known `:type` suffix casts the number to that type; an unknown suffix
      never reads as a number, so such a buffer becomes a word. */
  lemma SuffixSelectsWidth(numeric: string, code: string)
    requires ':' !in numeric
    ensures var r := ParseFullNumber(numeric + [':'] + code);
      && (SuffixType(code).Some? && ParseSignedNumber(numeric).Some? ==>
            r == Some(Cast(SuffixType(code).value, ParseSignedNumber(numeric).value)))
      && (SuffixType(code).None? ==> r == None)
  {
    var buffer := numeric + [':'] + code;
    assert SplitOnceChar(buffer, ':') == Some((numeric, code)) by {
      var sp := SplitOnceChar(buffer, ':');
      assert ':' in buffer by { assert buffer[|numeric|] == ':'; }
      SplitUnique(sp.value.0, sp.value.1, numeric, code, ':');
    }
    if SuffixType(code).None? {
      ColonNeverParses(buffer, |numeric|);
    }
  }

  lemma ColonNeverParses(buffer: string, k: nat)
    requires k < |buffer| && buffer[k] == ':'
    ensures ParseSignedNumber(buffer) == None
  {
    assert DigitValue(':') == 36;
    if HasPrefix2(buffer, "0x", "0X") || HasPrefix2(buffer, "0o", "0O") || HasPrefix2(buffer, "0b", "0B") {
      assert k >= 2;
      NoDigitsWithColon(buffer[2..], k - 2);
    } else {
      NoDigitsWithColon(buffer, k);
      RemoveKeeps(buffer, '_', k);
      var once := Remove(buffer, '_');
      var i :| 0 <= i < |once| && once[i] == ':';
      RemoveKeeps(once, ',', i);
      var twice := Remove(once, ',');
      var j :| 0 <= j < |twice| && twice[j] == ':';
      NoDigitsWithColon(twice, j);
    }
  }

  lemma NoDigitsWithColon(s: string, k: nat)
    requires k < |s| && s[k] == ':'
    ensures forall radix :: radix <= 16 ==> ParseInt(s, radix, I128_MIN, I128_MAX) == None
  {
    forall radix | radix <= 16
      ensures ParseInt(s, radix, I128_MIN, I128_MAX) == None
    {
      if |s| > 0 && (s[0] == '+' || s[0] == '-') {
        assert k >= 1;
        assert s[1..][k - 1] == ':';
      }
    }
  }

  lemma {:induction false} RemoveKeeps(s: string, c: char, k: nat)
    requires k < |s| && s[k] != c
    ensures exists i :: 0 <= i < |Remove(s, c)| && Remove(s, c)[i] == s[k]
  {
    if k == 0 {
      assert Remove(s, c)[0] == s[0];
    } else {
      RemoveKeeps(s[1..], c, k - 1);
      var i :| 0 <= i < |Remove(s[1..], c)| && Remove(s[1..], c)[i] == s[k];
      var head := if s[0] == c then [] else [s[0]];
      assert Remove(s, c) == head + Remove(s[1..], c);
      assert Remove(s, c)[|head| + i] == s[k];
    }
  }

  /** A word becomes `Word(text)` exactly when it does not start with a digit,
      `+` or `-`, or does not parse as a number. */
  lemma WordFallback(buffer: string)
    requires buffer != []
    ensures ClassifyWord(buffer) == Word(buffer)
        <==> !NumberStart(buffer[0]) || ParseFullNumber(buffer).None?
  {
    if NumberStart(buffer[0]) && ParseFullNumber(buffer).Some? {
      assert !ParseFullNumber(buffer).value.Word?;
    }
  }
}
