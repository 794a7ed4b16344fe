/** Shared vocabulary: failure-compatible wrappers, Rust's fixed-width
    integers, UTF-8 widths, Rust's whitespace classes and Rust's
    `from_str_radix` integer parser. */
module Base {

  datatype Option<T> = None | Some(value: T)

  datatype Result<T, E> = Ok(value: T) | Err(error: E)

  // ---------------------------------------------------------------------
  // Fixed-width integers

  const I64_MIN: int := -0x8000_0000_0000_0000
  const I64_MAX: int := 0x7FFF_FFFF_FFFF_FFFF
  const TWO_64: int := 0x1_0000_0000_0000_0000

  predicate InI64(x: int) { I64_MIN <= x <= I64_MAX }

  /** Rust's `i64` */
  type Int64 = x: int | -0x8000_0000_0000_0000 <= x <= 0x7FFF_FFFF_FFFF_FFFF

  /** Two's-complement truncation of `x` to a width whose number of values
      is `modulus`, read back as signed or unsigned: Rust's `as` cast between
      integer types. */
  function Truncate(x: int, modulus: nat, signed: bool): (r: int)
    requires modulus >= 2 && modulus % 2 == 0
    ensures signed ==> -(modulus / 2) <= r < modulus / 2
    ensures !signed ==> 0 <= r < modulus
    ensures !signed && 0 <= x < modulus ==> r == x
    ensures signed && -(modulus / 2) <= x < modulus / 2 ==> r == x
  {
    var half := modulus / 2;
    if !signed && 0 <= x < modulus then x
    else if signed && -half <= x < half then x
    else
      var m := x % modulus;
      if signed && m >= half then m - modulus else m
  }

  /** Wrapping (release-build) i64 arithmetic */
  function WrapI64(x: int): (r: Int64)
    ensures InI64(x) ==> r == x
  {
    Truncate(x, TWO_64, true)
  }

  /** Wrapping keeps the value modulo 2^64. */
  lemma WrapCongruent(x: int)
    ensures (WrapI64(x) - x) % TWO_64 == 0
  {
  }

  /** Integers equal modulo 2^64 wrap to the same i64. */
  lemma WrapEqual(x: int, y: int)
    requires (x - y) % TWO_64 == 0
    ensures WrapI64(x) == WrapI64(y)
  {
    WrapCongruent(x);
    WrapCongruent(y);
    var d := WrapI64(x) - WrapI64(y);
    assert d % TWO_64 == 0;
    assert -TWO_64 < d < TWO_64;
  }

  /** `i as usize` on a 64-bit target */
  function AsUsize(i: Int64): (r: nat)
    ensures 0 <= i ==> r == i
    ensures i < 0 ==> r >= TWO_64 / 2
  {
    if i < 0 then i + TWO_64 else i
  }

  /** Rust's `/` on integers truncates toward zero. */
  function TruncDiv(a: int, b: int): (q: int)
    requires b != 0
    ensures (a >= 0 && b > 0) ==> q == a / b
  {
    var q0 := Abs(a) / Abs(b);
    if (a < 0) == (b < 0) then q0 else -q0
  }

  function Abs(x: int): (r: nat)
    ensures r == x || r == -x
  {
    if x < 0 then -x else x
  }

  // ---------------------------------------------------------------------
  // Characters and UTF-8

  /** `char::len_utf8` */
  function Utf8Len(c: char): (n: nat)
    ensures 1 <= n <= 4
    ensures n == 1 <==> (c as int) < 0x80
  {
    if (c as int) < 0x80 then 1
    else if (c as int) < 0x800 then 2
    else if (c as int) < 0x1_0000 then 3
    else 4
  }

  /** `str::len`: the UTF-8 byte length of a string */
  function ByteLen(s: string): (n: nat)
    ensures n >= |s|
  {
    if s == [] then 0 else ByteLen(s[..|s| - 1]) + Utf8Len(s[|s| - 1])
  }

  lemma {:induction false} ByteLenAppend(s: string, t: string)
    ensures ByteLen(s + t) == ByteLen(s) + ByteLen(t)
  {
    if t == [] {
      assert s + t == s;
    } else {
      var u := t[..|t| - 1];
      assert (s + t)[..|s + t| - 1] == s + u;
      ByteLenAppend(s, u);
    }
  }

  lemma ByteLenSnoc(s: string, c: char)
    ensures ByteLen(s + [c]) == ByteLen(s) + Utf8Len(c)
  {
    assert (s + [c])[..|s|] == s;
  }

  /** Rust's `char::is_whitespace`: the Unicode White_Space property */
  predicate IsWhitespace(c: char) {
    var n := c as int;
    (0x09 <= n <= 0x0D) || n == 0x20 || n == 0x85 || n == 0xA0 || n == 0x1680
    || (0x2000 <= n <= 0x200A) || n == 0x2028 || n == 0x2029 || n == 0x202F
    || n == 0x205F || n == 0x3000
  }

  /** Rust's `char::is_ascii_whitespace` (note: not U+000B) */
  predicate IsAsciiWhitespace(c: char) {
    c == ' ' || c == '\t' || c == '\n' || c as int == 0x0C || c == '\r'
  }

  predicate IsAsciiDigit(c: char) { '0' <= c <= '9' }

  predicate IsAsciiHexDigit(c: char) {
    ('0' <= c <= '9') || ('a' <= c <= 'f') || ('A' <= c <= 'F')
  }

  predicate NoWhitespace(s: string) {
    forall i :: 0 <= i < |s| ==> !IsWhitespace(s[i])
  }

  predicate AllWhitespace(s: string) {
    forall i :: 0 <= i < |s| ==> IsWhitespace(s[i])
  }

  /** The number of newlines in a text: its line number, counting from 0 */
  function Newlines(s: string): nat
  {
    if s == [] then 0 else Newlines(s[..|s| - 1]) + (if s[|s| - 1] == '\n' then 1 else 0)
  }

  /** The number of chars after the last newline */
  function ColumnOf(s: string): nat
  {
    if s == [] then 0 else if s[|s| - 1] == '\n' then 0 else ColumnOf(s[..|s| - 1]) + 1
  }

  // ---------------------------------------------------------------------
  // Integer parsing: Rust's `from_str_radix` (and so `str::parse`)

  /** `char::to_digit(radix)` */
  function DigitValue(c: char): (d: nat)
  {
    if '0' <= c <= '9' then c as int - '0' as int
    else if 'a' <= c <= 'z' then c as int - 'a' as int + 10
    else if 'A' <= c <= 'Z' then c as int - 'A' as int + 10
    else 36
  }

  predicate AllDigits(ds: string, radix: nat) {
    forall i :: 0 <= i < |ds| ==> DigitValue(ds[i]) < radix
  }

  /** The value of a digit string, most significant digit first */
  function DigitsValue(ds: string, radix: nat): (v: nat)
  {
    if ds == [] then 0
    else DigitsValue(ds[..|ds| - 1], radix) * radix + DigitValue(ds[|ds| - 1])
  }

  /** `iN::from_str_radix(s, radix)` for a type whose range is `lo..=hi`: an
      optional `+` (or `-` for a signed type), then at least one digit of the
      radix, and the value must fit. */
  function ParseInt(s: string, radix: nat, lo: int, hi: int): (r: Option<int>)
    ensures r.Some? ==> lo <= r.value <= hi
    ensures r.Some? ==> |s| > 0
  {
    var neg := |s| > 0 && s[0] == '-' && lo < 0;
    var ds := if |s| > 0 && (s[0] == '+' || neg) then s[1..] else s;
    if ds == [] || !AllDigits(ds, radix) then None
    else
      var d: int := DigitsValue(ds, radix);
      var v := if neg then -d else d;
      if lo <= v <= hi then Some(v) else None
  }

  /** `str::parse::<i64>()` */
  function ParseI64(s: string): (r: Option<int>)
    ensures r.Some? ==> InI64(r.value)
  {
    ParseInt(s, 10, I64_MIN, I64_MAX)
  }

  /** Decimal digits of a natural number, for the parse round trip */
  function ShowNat(n: nat): (s: string)
    ensures |s| > 0 && AllDigits(s, 10)
    decreases n
  {
    if n < 10 then [('0' as int + n) as char]
    else ShowNat(n / 10) + [('0' as int + n % 10) as char]
  }

  lemma {:induction false} DigitsValueShowNat(n: nat)
    ensures DigitsValue(ShowNat(n), 10) == n
    decreases n
  {
    if n >= 10 {
      var s := ShowNat(n);
      assert s[..|s| - 1] == ShowNat(n / 10);
      DigitsValueShowNat(n / 10);
    }
  }

  /** Reading back what is written: a natural number in range parses from
      its decimal digits... */
  lemma ParseNat(n: nat)
    requires n <= I64_MAX
    ensures ParseI64(ShowNat(n)) == Some(n)
  {
    DigitsValueShowNat(n);
    assert ShowNat(n)[0] != '+' && ShowNat(n)[0] != '-';
  }

  /** ... and its negation from them after a `-`. */
  lemma ParseNegated(n: nat)
    requires n <= -I64_MIN
    ensures ParseI64("-" + ShowNat(n)) == Some(-(n as int))
  {
    DigitsValueShowNat(n);
    assert ("-" + ShowNat(n))[1..] == ShowNat(n);
  }

  /** An integer's decimal form, as `Display` writes it */
  function ShowInt(x: int): string
  {
    if x < 0 then "-" + ShowNat(-x) else ShowNat(x)
  }

  /** Every i64 parses from its decimal form. */
  lemma ParseI64RoundTrip(x: Int64)
    ensures ParseI64(ShowInt(x)) == Some(x)
  {
    if x < 0 {
      ParseNegated(-(x as int));
    } else {
      ParseNat(x);
    }
  }

  // ---------------------------------------------------------------------
  // Substring search (byte offsets of `str::find` are computed from these)

  predicate IsPrefix(p: string, s: string) { |p| <= |s| && s[..|p|] == p }

  predicate IsSuffix(p: string, s: string) { |p| <= |s| && s[|s| - |p|..] == p }

  predicate OccursAt(sub: string, s: string, i: nat) {
    i + |sub| <= |s| && s[i..i + |sub|] == sub
  }

  lemma OccursAtTail(sub: string, s: string, j: nat)
    requires 1 <= j
    ensures OccursAt(sub, s, j) <==> |s| > 0 && OccursAt(sub, s[1..], j - 1)
  {
    if j + |sub| <= |s| {
      assert forall k :: j <= k < j + |sub| ==> s[1..][k - 1] == s[k];
      assert s[j..j + |sub|] == s[1..][j - 1..j - 1 + |sub|];
    }
  }

  /** Index (in chars) of the first occurrence of `sub` in `s` */
  function Find(s: string, sub: string): (r: Option<nat>)
    ensures r.Some? ==> OccursAt(sub, s, r.value)
    ensures r.Some? ==> forall j :: 0 <= j < r.value ==> !OccursAt(sub, s, j)
    ensures r.None? ==> forall j :: 0 <= j <= |s| ==> !OccursAt(sub, s, j)
    decreases |s|
  {
    if IsPrefix(sub, s) then Some(0)
    else if s == [] then None
    else match Find(s[1..], sub)
      case None =>
        NoneShifts(s, sub);
        None
      case Some(k) =>
        SomeShifts(s, sub, k);
        Some(k + 1)
  }

  /** No occurrence at the start or in the tail means none at all. */
  lemma NoneShifts(s: string, sub: string)
    requires s != [] && !IsPrefix(sub, s)
    requires forall j :: 0 <= j <= |s[1..]| ==> !OccursAt(sub, s[1..], j)
    ensures forall j :: 0 <= j <= |s| ==> !OccursAt(sub, s, j)
  {
    assert |sub| > |s| || s[0..|sub|] == s[..|sub|];
    forall j | 1 <= j <= |s|
      ensures !OccursAt(sub, s, j)
    {
      OccursAtTail(sub, s, j);
    }
  }

  /** The first occurrence in the tail, shifted by one, is the first in
      the whole when there is none at the start. */
  lemma SomeShifts(s: string, sub: string, k: nat)
    requires s != [] && !IsPrefix(sub, s)
    requires OccursAt(sub, s[1..], k) && forall j :: 0 <= j < k ==> !OccursAt(sub, s[1..], j)
    ensures OccursAt(sub, s, k + 1) && forall j :: 0 <= j < k + 1 ==> !OccursAt(sub, s, j)
  {
    assert |sub| > |s| || s[0..|sub|] == s[..|sub|];
    OccursAtTail(sub, s, k + 1);
    forall j | 1 <= j <= k
      ensures !OccursAt(sub, s, j)
    {
      OccursAtTail(sub, s, j);
    }
  }

  /** Index (in chars) of the first `c` in `s` */
  function IndexOfChar(s: string, c: char): (r: Option<nat>)
    ensures r.Some? ==> r.value < |s| && s[r.value] == c && c !in s[..r.value]
    ensures r.None? <==> c !in s
    decreases |s|
  {
    if s == [] then None
    else if s[0] == c then Some(0)
    else match IndexOfChar(s[1..], c)
      case None => None
      case Some(k) =>
        assert s[..k + 1] == [s[0]] + s[1..][..k];
        Some(k + 1)
  }

  /** The text before and after the first `c` (`str::split_once`) */
  function SplitOnceChar(s: string, c: char): (r: Option<(string, string)>)
  {
    match IndexOfChar(s, c)
    case None => None
    case Some(k) => Some((s[..k], s[k + 1..]))
  }

  /** `split_once` splits at the first `c`, and fails exactly when there is none. */
  lemma SplitOnceSpec(s: string, c: char)
    ensures SplitOnceChar(s, c).Some? ==>
      SplitOnceChar(s, c).value.0 + [c] + SplitOnceChar(s, c).value.1 == s && c !in SplitOnceChar(s, c).value.0
    ensures SplitOnceChar(s, c).None? <==> c !in s
  {
    match IndexOfChar(s, c)
    case None =>
    case Some(k) =>
      assert s[..k] + [c] + s[k + 1..] == s;
  }

  lemma SplitUnique(a: string, b: string, x: string, y: string, c: char)
    requires a + [c] + b == x + [c] + y
    requires c !in a && c !in x
    ensures a == x && b == y
  {
    var s := a + [c] + b;
    assert forall i :: 0 <= i < |a| ==> s[i] == a[i];
    assert forall i :: 0 <= i < |x| ==> s[i] == x[i];
    assert s[|a|] == c;
    assert s[|x|] == c;
    assert |a| == |x|;
    assert a == s[..|a|];
    assert x == s[..|x|];
    assert b == s[|a| + 1..];
    assert y == (x + [c] + y)[|x| + 1..];
  }

  /** Splitting at the first `c` recovers the two sides when the left one has no `c`. */
  lemma SplitOnceAt(x: string, c: char, y: string)
    requires c !in x
    ensures SplitOnceChar(x + [c] + y, c) == Some((x, y))
  {
    var s := x + [c] + y;
    assert s[|x|] == c;
    var r := SplitOnceChar(s, c);
    SplitOnceSpec(s, c);
    SplitUnique(r.value.0, r.value.1, x, y, c);
  }

  /** The escaped form of one char: `"` and `\` get a backslash. */
  function EscapeChar(c: char): (e: string)
    ensures 1 <= |e| <= 2 && e[|e| - 1] == c
  {
    if c == '"' || c == '\\' then ['\\', c] else [c]
  }

  /** The escaped form of string data */
  function Escape(d: string): (e: string)
    ensures |e| >= |d|
  {
    if d == [] then [] else EscapeChar(d[0]) + Escape(d[1..])
  }

  lemma EscapeLength(d: string)
    requires d != []
    ensures |Escape(d)| == |EscapeChar(d[0])| + |Escape(d[1..])|
  {
  }

  /** `t` occurs in `s` at index `i` */
  predicate TextAt(s: string, i: nat, t: string)
    decreases t
  {
    t == [] || (i < |s| && s[i] == t[0] && TextAt(s, i + 1, t[1..]))
  }

  lemma {:induction false} TextSplit(s: string, i: nat, h: string, t: string)
    requires TextAt(s, i, h + t)
    ensures TextAt(s, i, h) && TextAt(s, i + |h|, t)
    decreases h
  {
    if h != [] {
      assert (h + t)[0] == h[0] && (h + t)[1..] == h[1..] + t;
      TextSplit(s, i + 1, h[1..], t);
    } else {
      assert h + t == t;
    }
  }

  lemma {:induction false} TextAtSlice(s: string, i: nat, t: string)
    requires i <= |s| && TextAt(s, i, t)
    ensures i + |t| <= |s| && s[i..i + |t|] == t
    decreases t
  {
    if t != [] {
      TextAtSlice(s, i + 1, t[1..]);
      assert s[i..i + |t|] == [s[i]] + s[i + 1..i + |t|];
    }
  }

  /** The first escaped char of a non-empty body, and the rest of it */
  lemma EscapedSplit(s: string, i: nat, d: string)
    requires d != [] && TextAt(s, i, Escape(d) + ['"'])
    ensures TextAt(s, i, EscapeChar(d[0]))
    ensures TextAt(s, i + |EscapeChar(d[0])|, Escape(d[1..]) + ['"'])
  {
    assert Escape(d) + ['"'] == EscapeChar(d[0]) + (Escape(d[1..]) + ['"']);
    TextSplit(s, i, EscapeChar(d[0]), Escape(d[1..]) + ['"']);
  }

  // ---------------------------------------------------------------------
  // `str::replace`

  /** `str::replace(pat, to)`: every non-overlapping occurrence of `pat`,
      left to right, replaced by `to`; an empty pattern matches before every
      char and at the end. */
  function ReplaceAll(s: string, pat: string, to: string): string
    decreases |s|
  {
    if pat == [] then
      if s == [] then to else to + [s[0]] + ReplaceAll(s[1..], pat, to)
    else if |s| < |pat| then s
    else if s[..|pat|] == pat then to + ReplaceAll(s[|pat|..], pat, to)
    else [s[0]] + ReplaceAll(s[1..], pat, to)
  }

  /** Replacing one char distributes over concatenation. */
  lemma {:induction false} ReplaceCharAppend(x: string, y: string, p: char, to: string)
    ensures ReplaceAll(x + y, [p], to) == ReplaceAll(x, [p], to) + ReplaceAll(y, [p], to)
    decreases |x|
  {
    if x != [] {
      assert (x + y)[1..] == x[1..] + y;
      assert (x + y)[..1] == x[..1];
      ReplaceCharAppend(x[1..], y, p, to);
    } else {
      assert x + y == y;
    }
  }
}
