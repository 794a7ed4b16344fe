/** The word scanner: reads whitespace-separated words and classifies each by
    `TokenType::from_str` (keywords, signed radix integers, rationals, decimal
    integers and floats, words), scans strings with escapes and `\u{…}` code
    points, skips comments, keeps doc comments, and tracks line and column. */
module WordScanner {
  import opened Base

  datatype TokenType =
    | Integer(i: int)
    | Float(text: string)          // the value of a float is not modelled
    | Rational(num: int, den: int)
    | String(s: string)
    | Boolean(b: bool)
    | Word(w: string)
    | Plus | Minus | Star | Slash
    | EqualEqual | BangEqual | Less | Greater | LessEqual | GreaterEqual | Bang
    | OpenBrace | CloseBrace | OpenParen | CloseParen | OpenBracket | CloseBracket
    | Colon | Semicolon | LongDash
    | Comment
    | DocComment(doc: string)
    | EOF

  datatype Token = Token(tokenType: TokenType, start: nat, lineNo: nat, column: nat, length: nat)

  datatype Error = EndOfFile(expected: TokenType) | InvalidUnicodeChar

  // ---------------------------------------------------------------------
  // Classifying a word

  /** The fixed punctuation and keyword words */
  function Keyword(word: string): (r: Option<TokenType>)
  {
    if word == "+" then Some(Plus)
    else if word == "-" then Some(Minus)
    else if word == "*" then Some(Star)
    else if word == "/" then Some(Slash)
    else if word == "true" then Some(Boolean(true))
    else if word == "false" then Some(Boolean(false))
    else if word == "==" then Some(EqualEqual)
    else if word == "!=" then Some(BangEqual)
    else if word == "<" then Some(Less)
    else if word == ">" then Some(Greater)
    else if word == "<=" then Some(LessEqual)
    else if word == ">=" then Some(GreaterEqual)
    else if word == "!" then Some(Bang)
    else if word == "{" then Some(OpenBrace)
    else if word == "}" then Some(CloseBrace)
    else if word == "(" then Some(OpenParen)
    else if word == ")" then Some(CloseParen)
    else if word == "[" then Some(OpenBracket)
    else if word == "]" then Some(CloseBracket)
    else if word == ":" then Some(Colon)
    else if word == ";" then Some(Semicolon)
    else if word == "--" then Some(LongDash)
    else None
  }

  /** One leading sign is stripped: `-` gives -1, `+` or none gives 1. */
  function ParseMultiplier(word: string): (r: (string, int))
    ensures r.1 == 1 || r.1 == -1
    ensures r.1 == -1 <==> IsPrefix("-", word)
    ensures r.0 == if IsPrefix("-", word) || IsPrefix("+", word) then word[1..] else word
  {
    if IsPrefix("-", word) then (word[1..], -1)
    else if IsPrefix("+", word) then (word[1..], 1)
    else (word, 1)
  }

  function UnwrapOr(o: Option<int>, d: int): int {
    if o.Some? then o.value else d
  }

  /** The whole part and the numerator of `whole+numer`, `whole-numer` or
      `numer`; a part that does not parse counts as 0. */
  function WholeAndNumerator(left: string): (r: (int, int))
  {
    match SplitOnceChar(left, '+')
    case Some((w, n)) => (UnwrapOr(ParseI64(w), 0), UnwrapOr(ParseI64(n), 0))
    case None =>
      match SplitOnceChar(left, '-')
      case Some((w, n)) => (UnwrapOr(ParseI64(w), 0), WrapI64(-UnwrapOr(ParseI64(n), 0)))
      case None => (0, UnwrapOr(ParseI64(left), 0))
  }

  /** `whole+numer/den`, `whole-numer/den` or `numer/den`; the denominator must
      parse; i64 arithmetic wraps. */
  function ParseRational(multiplier: int, numberWord: string): (r: Option<TokenType>)
    ensures r.Some? ==> r.value.Rational?
  {
    match SplitOnceChar(numberWord, '/')
    case None => None
    case Some((left, denText)) =>
      match ParseI64(denText)
      case None => None
      case Some(den) =>
        var signum := if den < 0 then -1 else 1;
        var whole := WholeAndNumerator(left).0;
        var numer := WholeAndNumerator(left).1;
        if whole == 0 then Some(Rational(WrapI64(signum * multiplier * numer), WrapI64(Abs(den))))
        else Some(Rational(WrapI64(signum * multiplier * whole * den + numer), WrapI64(Abs(den))))
  }

  /** `k` copies of `p`, one after another */
  function Repeat(p: string, k: nat): (r: string)
    ensures |r| == k * |p|
  {
    if k == 0 then [] else p + Repeat(p, k - 1)
  }

  /** `str::trim_start_matches(prefix)`: every repetition of the prefix is
      removed, and what follows is kept (`TrimRemovesCopies`) */
  function TrimStartMatches(s: string, prefix: string): (r: string)
    requires prefix != []
    ensures |r| <= |s| && !IsPrefix(prefix, r)
    decreases |s|
  {
    if IsPrefix(prefix, s) then TrimStartMatches(s[|prefix|..], prefix) else s
  }

  /** What the trim removes is a whole number of copies of the prefix. */
  lemma {:induction false} TrimRemovesCopies(s: string, prefix: string) returns (k: nat)
    requires prefix != []
    ensures s == Repeat(prefix, k) + TrimStartMatches(s, prefix)
    decreases |s|
  {
    var r := TrimStartMatches(s, prefix);
    if IsPrefix(prefix, s) {
      var rest := s[|prefix|..];
      var j := TrimRemovesCopies(rest, prefix);
      k := j + 1;
      assert r == TrimStartMatches(rest, prefix);
      assert Repeat(prefix, k) == prefix + Repeat(prefix, j);
      calc {
        s;
        prefix + rest;
        prefix + (Repeat(prefix, j) + r);
        (prefix + Repeat(prefix, j)) + r;
      }
    } else {
      k := 0;
      assert Repeat(prefix, 0) + r == r;
    }
  }

  /** So the trimmed text is a suffix of the input. */
  lemma TrimIsSuffix(s: string, prefix: string)
    requires prefix != []
    ensures IsSuffix(TrimStartMatches(s, prefix), s)
  {
    var k := TrimRemovesCopies(s, prefix);
    SuffixOfConcat(Repeat(prefix, k), TrimStartMatches(s, prefix));
  }

  lemma SuffixOfConcat(a: string, b: string)
    ensures IsSuffix(b, a + b)
  {
    assert (a + b)[|a|..] == b;
  }

  /** A radix literal after either prefix (both trimmed), times the sign */
  function ParseWithRadix(multiplier: int, numberWord: string, prefix1: string, prefix2: string, radix: nat): (r: Option<TokenType>)
    requires prefix1 != [] && prefix2 != []
    ensures r.Some? ==> r.value.Integer?
  {
    if IsPrefix(prefix1, numberWord) || IsPrefix(prefix2, numberWord) then
      var intText := TrimStartMatches(TrimStartMatches(numberWord, prefix1), prefix2);
      match ParseInt(intText, radix, I64_MIN, I64_MAX)
      case Some(n) => Some(Integer(WrapI64(multiplier * n)))
      case None => None
    else None
  }

  function ToLowerAscii(s: string): (r: string)
    ensures |r| == |s|
  {
    if s == [] then []
    else [if 'A' <= s[0] <= 'Z' then (s[0] as int + 32) as char else s[0]] + ToLowerAscii(s[1..])
  }

  predicate IsDecimalMantissa(m: string) {
    match IndexOfChar(m, '.')
    case None => m != [] && AllDigits(m, 10)
    case Some(k) => |m| > 1 && AllDigits(m[..k], 10) && AllDigits(m[k + 1..], 10)
  }

  predicate IsExponent(e: string) {
    var ds := if |e| > 0 && (e[0] == '+' || e[0] == '-') then e[1..] else e;
    ds != [] && AllDigits(ds, 10)
  }

  /** The syntax `str::parse::<f64>` accepts */
  predicate IsF64Literal(s: string) {
    var t := if |s| > 0 && (s[0] == '+' || s[0] == '-') then s[1..] else s;
    var lower := ToLowerAscii(t);
    if lower == "inf" || lower == "infinity" || lower == "nan" then true
    else match IndexOfChar(lower, 'e')
      case None => IsDecimalMantissa(t)
      case Some(k) => IsDecimalMantissa(t[..k]) && IsExponent(t[k + 1..])
  }

  predicate StartsWithDigit(s: string) { |s| > 0 && IsAsciiDigit(s[0]) }

  /** `str::trim_matches('"')`: quotes removed from both ends */
  function TrimQuotes(s: string): (r: string)
    ensures |r| <= |s|
    decreases |s|
  {
    if |s| > 0 && s[0] == '"' then TrimQuotes(s[1..])
    else if |s| > 0 && s[|s| - 1] == '"' then TrimQuotes(s[..|s| - 1])
    else s
  }

  /** `TokenType::from_str`; it never fails. */
  function FromStr(word: string): (t: TokenType)
    ensures Keyword(word).Some? ==> t == Keyword(word).value
    ensures t.Integer? ==> InI64(t.i)
    ensures t.Float? ==> t.text == word
    ensures t.String? ==> IsPrefix("\"", word)
    ensures t.Word? ==> t.w == word
    ensures !t.EOF? && !t.Comment? && !t.DocComment?
  {
    if Keyword(word).Some? then Keyword(word).value
    else
      var (numberWord, multiplier) := ParseMultiplier(word);
      var hex := ParseWithRadix(multiplier, numberWord, "0x", "0X", 16);
      var oct := ParseWithRadix(multiplier, numberWord, "0o", "0O", 8);
      var bin := ParseWithRadix(multiplier, numberWord, "0b", "0B", 2);
      var rational :=
        if StartsWithDigit(numberWord) && '/' in numberWord then ParseRational(multiplier, numberWord) else None;
      if hex.Some? then hex.value
      else if oct.Some? then oct.value
      else if bin.Some? then bin.value
      else if rational.Some? then rational.value
      else if ParseI64(numberWord).Some? then Integer(WrapI64(ParseI64(numberWord).value * multiplier))
      else if IsF64Literal(numberWord) then Float(word)
      else if IsPrefix("\"", word) then String(TrimQuotes(word))
      else Word(word)
  }

  // ---------------------------------------------------------------------
  // Scanner state and the line/column bookkeeping

  /** Where a token started: the index of its first char, and the line and
      column after reading it */
  datatype Pos = Pos(index: nat, lineNo: nat, column: nat)

  /** The scanner's cursor: `index` is one past the last char read */
  datatype State = State(index: nat, lineNo: nat, column: nat, pastEof: bool)

  function Min(a: nat, b: nat): nat { if a < b then a else b }

  /** The line number counts the newlines read so far and the column counts the
      chars read since the last one; once past the end of input, the cursor
      is beyond the last char. */
  predicate Consistent(input: string, s: State) {
    var read := input[..Min(s.index, |input|)];
    s.lineNo == Newlines(read) && s.column == ColumnOf(read) && (s.pastEof ==> s.index > |input|)
  }

  function InitialState(): State { State(0, 0, 0, false) }

  /** A measure of the input left to read */
  function Remaining(input: string, s: State): nat {
    if s.index <= |input| then |input| + 1 - s.index else 0
  }

  /** `next_char`: the index always moves by one; a newline moves to the next
      line at column 0, any other char moves the column by one. */
  function NextCharOf(input: string, s: State): (r: (State, Option<char>))
    ensures r.0.index == s.index + 1 && r.0.pastEof == s.pastEof
    ensures r.1.Some? <==> s.index < |input|
    ensures r.1.Some? ==> r.1.value == input[s.index]
    ensures Consistent(input, s) ==> Consistent(input, r.0)
  {
    if s.index < |input| then
      var c := input[s.index];
      assert input[..s.index + 1] == input[..s.index] + [c];
      if c == '\n' then (s.(index := s.index + 1, lineNo := s.lineNo + 1, column := 0), Some(c))
      else (s.(index := s.index + 1, column := s.column + 1), Some(c))
    else (s.(index := s.index + 1), None)
  }

  /** The char last read (`current`) */
  function CurrentOf(input: string, s: State): (r: Option<char>)
    requires s.index >= 1
  {
    if s.index - 1 < |input| then Some(input[s.index - 1]) else None
  }

  /** `n` calls of `next_char` */
  function NextCharsOf(input: string, s: State, n: nat): (r: State)
    ensures r.index == s.index + n && r.pastEof == s.pastEof
    ensures Consistent(input, s) ==> Consistent(input, r)
    decreases n
  {
    if n == 0 then s else NextCharsOf(input, NextCharOf(input, s).0, n - 1)
  }

  /** `skip_whitespace`: reads up to and including the first non-whitespace
      char (or one read past the end) */
  function SkipWhitespaceOf(input: string, s: State): (r: State)
    ensures r.index > s.index && r.pastEof == s.pastEof
    ensures Consistent(input, s) ==> Consistent(input, r)
    decreases Remaining(input, s)
  {
    var (s1, c) := NextCharOf(input, s);
    if c.Some? && IsWhitespace(c.value) then SkipWhitespaceOf(input, s1) else s1
  }

  /** The loop of `word`: the word's text (`acc`, then the chars up to the
      next whitespace), and the state after that whitespace char (or one read
      past the end) */
  function WordScanOf(input: string, s: State, acc: string): (r: (string, State))
    ensures r.1.index > s.index && r.1.pastEof == s.pastEof
    ensures s.index <= |input| ==> r.1.index <= |input| + 1
    ensures Consistent(input, s) ==> Consistent(input, r.1)
    decreases Remaining(input, s)
  {
    var (s1, c) := NextCharOf(input, s);
    if c.Some? && !IsWhitespace(c.value) then WordScanOf(input, s1, acc + [c.value]) else (acc, s1)
  }

  /** The loop of `comment`: reads up to and including a newline or carriage return */
  function CommentEndOf(input: string, s: State): (r: State)
    ensures r.index > s.index && r.pastEof == s.pastEof
    ensures Consistent(input, s) ==> Consistent(input, r)
    decreases Remaining(input, s)
  {
    var (s1, c) := NextCharOf(input, s);
    if c.Some? && c.value != '\n' && c.value != '\r' then CommentEndOf(input, s1) else s1
  }

  /** The loop of `doc_comment`: the chars read, the line ending included */
  function DocBodyOf(input: string, s: State, acc: string): (r: (string, State))
    ensures r.1.index > s.index && r.1.pastEof == s.pastEof
    ensures Consistent(input, s) ==> Consistent(input, r.1)
    decreases Remaining(input, s)
  {
    var (s1, c) := NextCharOf(input, s);
    if c.None? then (acc, s1)
    else if c.value == '\n' || c.value == '\r' then (acc + [c.value], s1)
    else DocBodyOf(input, s1, acc + [c.value])
  }

  /** The char an escape stands for: `\n`, `\t` and `\r` are control chars,
      anything else stands for itself (`\u` is handled apart). */
  function Unescape(c: char): char {
    if c == 'n' then '\n' else if c == 't' then '\t' else if c == 'r' then '\r' else c
  }

  predicate IsScalarValue(v: int) { 0 <= v < 0xD800 || 0xE000 <= v < 0x11_0000 }

  /** `string_until(terminator)` with `acc` already read */
  function StringUntilOf(input: string, s: State, term: string, acc: string): (r: (Result<string, Error>, State))
    requires term != []
    ensures r.1.index > s.index && r.1.pastEof == s.pastEof
    decreases Remaining(input, s), 1
  {
    var (s1, current) := NextCharOf(input, s);
    if current.None? then (Ok(acc), s1)
    else if IsPrefix(term, input[s1.index - 1..]) then (Ok(acc), NextCharsOf(input, s1, |term| - 1))
    else if current.value == '\\' then
      match EscapedCharOf(input, s1)
      case (Err(e), s3) => (Err(e), s3)
      case (Ok(ch), s3) => StringUntilOf(input, s3, term, acc + [ch])
    else StringUntilOf(input, s1, term, acc + [current.value])
  }

  /** The char an escape stands for, from the state after its backslash:
      a backslash at the end of input is an unterminated string. */
  function EscapedCharOf(input: string, s: State): (r: (Result<char, Error>, State))
    ensures r.1.index > s.index && r.1.pastEof == s.pastEof
    decreases Remaining(input, s), 0
  {
    var (s1, next) := NextCharOf(input, s);
    if next.None? then (Err(EndOfFile(String(""))), s1)
    else if next.value == 'u' then UnicodeOf(input, s1)
    else (Ok(Unescape(next.value)), s1)
  }

  /** `unicode`: `{`, hex digits up to `}`, and a valid code point */
  function UnicodeOf(input: string, s: State): (r: (Result<char, Error>, State))
    ensures r.1.index > s.index && r.1.pastEof == s.pastEof
    decreases Remaining(input, s), 0
  {
    var (s1, bracket) := NextCharOf(input, s);
    if bracket != Some('{') then (Err(InvalidUnicodeChar), s1)
    else
      var (hex, s2) := StringUntilOf(input, s1, "}", "");
      if hex.Err? then (Err(hex.error), s2)
      else if !(forall i :: 0 <= i < |hex.value| ==> IsAsciiHexDigit(hex.value[i])) then (Err(InvalidUnicodeChar), s2)
      else match ParseInt(hex.value, 16, 0, 0xFFFF_FFFF)
        case None => (Err(InvalidUnicodeChar), s2)
        case Some(v) => if IsScalarValue(v) then (Ok(v as char), s2) else (Err(InvalidUnicodeChar), s2)
  }

  /** Reading a string keeps the line and column in step with the input. */
  lemma {:induction false} StringUntilConsistent(input: string, s: State, term: string, acc: string)
    requires term != []
    ensures Consistent(input, s) ==> Consistent(input, StringUntilOf(input, s, term, acc).1)
    decreases Remaining(input, s), 1
  {
    var (s1, current) := NextCharOf(input, s);
    if current.Some? && !IsPrefix(term, input[s1.index - 1..]) {
      if current.value == '\\' {
        EscapedCharConsistent(input, s1);
        match EscapedCharOf(input, s1)
        case (Err(_), _) =>
        case (Ok(ch), s3) => StringUntilConsistent(input, s3, term, acc + [ch]);
      } else {
        StringUntilConsistent(input, s1, term, acc + [current.value]);
      }
    }
  }

  lemma {:induction false} EscapedCharConsistent(input: string, s: State)
    ensures Consistent(input, s) ==> Consistent(input, EscapedCharOf(input, s).1)
    decreases Remaining(input, s), 0
  {
    var (s1, next) := NextCharOf(input, s);
    if next == Some('u') {
      UnicodeConsistent(input, s1);
    }
  }

  lemma {:induction false} UnicodeConsistent(input: string, s: State)
    ensures Consistent(input, s) ==> Consistent(input, UnicodeOf(input, s).1)
    decreases Remaining(input, s), 0
  {
    var (s1, bracket) := NextCharOf(input, s);
    if bracket == Some('{') {
      StringUntilConsistent(input, s1, "}", "");
    }
  }

  function TokenAt(tt: TokenType, p: Pos, s: State): (t: Token)
    requires p.index < s.index
  {
    Token(tt, p.index, p.lineNo, p.column, s.index - p.index - 1)
  }

  /** `word`, from the state after its first char */
  function WordOf(input: string, s: State, p: Pos): (r: (Result<Option<Token>, Error>, State))
    requires p.index + 1 == s.index <= |input|
    ensures r.1.index > s.index && r.1.pastEof == s.pastEof
    ensures Consistent(input, s) ==> Consistent(input, r.1)
  {
    var (text, s1) := WordScanOf(input, s, [input[p.index]]);
    (Ok(Some(TokenAt(FromStr(text), p, s1))), s1)
  }

  function TokenOfString(r: (Result<string, Error>, State), p: Pos): (t: (Result<Option<Token>, Error>, State))
    requires p.index < r.1.index
  {
    match r.0
    case Err(e) => (Err(e), r.1)
    case Ok(w) => (Ok(Some(TokenAt(String(w), p, r.1))), r.1)
  }

  /** A string (`"` … `"`) or long string (`"""` … `"""`), from the state
      after its first quote */
  function QuotedOf(input: string, s: State, p: Pos): (r: (Result<Option<Token>, Error>, State))
    requires 1 <= s.index <= |input| && p.index < s.index
    ensures r.1.index > s.index && r.1.pastEof == s.pastEof
    ensures Consistent(input, s) ==> Consistent(input, r.1)
  {
    if IsPrefix("\"\"\"", input[s.index - 1..]) then
      StringUntilConsistent(input, NextCharsOf(input, s, 2), "\"\"\"", "");
      TokenOfString(StringUntilOf(input, NextCharsOf(input, s, 2), "\"\"\"", ""), p)
    else
      StringUntilConsistent(input, s, "\"", "");
      TokenOfString(StringUntilOf(input, s, "\"", ""), p)
  }

  /** A doc comment, from the state after its first `#` */
  function DocCommentOf(input: string, s: State, p: Pos): (r: (Result<Option<Token>, Error>, State))
    requires p.index < s.index
    ensures r.1.index > s.index && r.1.pastEof == s.pastEof
    ensures Consistent(input, s) ==> Consistent(input, r.1)
  {
    var s2 := NextCharOf(input, s).0;
    var (doc, s3) := DocBodyOf(input, s2, "");
    (Ok(Some(TokenAt(DocComment(doc), p, s3))), s3)
  }

  /** `next`: skip whitespace, then a string, long string, doc comment, comment
      (skipped) or word; at the end one EOF token, then nothing */
  function NextOf(input: string, s: State): (r: (Result<Option<Token>, Error>, State))
    ensures r.1.index > s.index
    ensures s.pastEof ==> r.1.pastEof
    ensures Consistent(input, s) ==> Consistent(input, r.1)
    ensures r.0.Ok? && r.0.value.Some? ==>
      Remaining(input, r.1) < Remaining(input, s) || (!s.pastEof && r.1.pastEof)
    decreases Remaining(input, s), 1
  {
    TokenAfterOf(input, SkipWhitespaceOf(input, s))
  }

  /** `next` from the first char after the whitespace (already read) */
  function TokenAfterOf(input: string, s: State): (r: (Result<Option<Token>, Error>, State))
    requires s.index >= 1
    ensures r.1.index >= s.index
    ensures s.pastEof ==> r.1.pastEof
    ensures Consistent(input, s) ==> Consistent(input, r.1)
    ensures r.0.Ok? && r.0.value.Some? ==>
      Remaining(input, r.1) < Remaining(input, s) || (Remaining(input, s) == 0 && !s.pastEof && r.1.pastEof)
    decreases Remaining(input, s), 0
  {
    var p := Pos(s.index - 1, s.lineNo, s.column);
    match CurrentOf(input, s)
    case Some(current) =>
      if current == '"' then QuotedOf(input, s, p)
      else if current == '#' then
        if s.index < |input| && input[s.index] == '#' then DocCommentOf(input, s, p)
        else NextOf(input, CommentEndOf(input, s))
      else WordOf(input, s, p)
    case None =>
      if !s.pastEof then (Ok(Some(TokenAt(EOF, p, s))), s.(pastEof := true))
      else (Ok(None), s)
  }

  /** `scan_until(close)` as written: the tokens before `close`, but an error
      whenever the cursor has passed the last char afterwards */
  function ScanUntilOf(input: string, s: State, close: TokenType, acc: seq<Token>): (r: (Result<seq<Token>, Error>, State))
    decreases Remaining(input, s), if s.pastEof then 0 else 1
  {
    var (next, s1) := NextOf(input, s);
    if next.Err? then (Err(next.error), s1)
    else if next.value.Some? && next.value.value.tokenType != close then
      ScanUntilOf(input, s1, close, acc + [next.value.value])
    else if s1.index - 1 >= |input| then (Err(EndOfFile(close)), s1)
    else (Ok(acc), s1)
  }

  /** `scan_until(close)` as documented: the tokens before `close`, and
      `EndOfFile(close)` only when the input runs out before it */
  function ScanUntilFixed(input: string, s: State, close: TokenType, acc: seq<Token>): (r: (Result<seq<Token>, Error>, State))
    decreases Remaining(input, s), if s.pastEof then 0 else 1
  {
    var (next, s1) := NextOf(input, s);
    if next.Err? then (Err(next.error), s1)
    else if next.value.None? then (Err(EndOfFile(close)), s1)
    else if next.value.value.tokenType != close then ScanUntilFixed(input, s1, close, acc + [next.value.value])
    else (Ok(acc), s1)
  }

  /** Every token from `s` on, up to the first error */
  function TokensOf(input: string, s: State): (r: Result<seq<Token>, Error>)
    decreases Remaining(input, s), if s.pastEof then 0 else 1
  {
    var (next, s1) := NextOf(input, s);
    if next.Err? then Err(next.error)
    else if next.value.None? then Ok([])
    else match TokensOf(input, s1)
      case Err(e) => Err(e)
      case Ok(rest) => Ok([next.value.value] + rest)
  }

  // ---------------------------------------------------------------------
  // The scanner

  class Scanner {
    const input: string
    var index: nat
    var lineNo: nat
    var column: nat
    var start: Option<Pos>
    var pastEof: bool

    function Cursor(): State
      reads this
    {
      State(index, lineNo, column, pastEof)
    }

    ghost predicate Valid()
      reads this
    {
      Consistent(input, Cursor())
    }

    constructor FromString(input: string)
      ensures Valid() && this.input == input && Cursor() == InitialState() && start == None
    {
      this.input := input;
      index := 0;
      lineNo := 0;
      column := 0;
      start := None;
      pastEof := false;
    }

    method NextChar() returns (c: Option<char>)
      requires Valid()
      modifies this
      ensures Valid() && (Cursor(), c) == NextCharOf(input, old(Cursor())) && start == old(start)
    {
      ghost var s := Cursor();
      c := if index < |input| then Some(input[index]) else None;
      index := index + 1;
      if c.Some? {
        if c.value == '\n' {
          lineNo := lineNo + 1;
          column := 0;
        } else {
          column := column + 1;
        }
      }
      assert Cursor() == NextCharOf(input, s).0;
      assert c == NextCharOf(input, s).1;
    }

    method SkipWhitespace()
      requires Valid()
      modifies this
      ensures Valid() && Cursor() == SkipWhitespaceOf(input, old(Cursor())) && start == old(start)
    {
      ghost var target := SkipWhitespaceOf(input, Cursor());
      while true
        invariant Valid() && SkipWhitespaceOf(input, Cursor()) == target && start == old(start)
        decreases Remaining(input, Cursor())
      {
        var current := NextChar();
        if current.None? || !IsWhitespace(current.value) {
          break;
        }
      }
    }

    method SaveStart()
      requires index >= 1
      modifies this
      ensures Cursor() == old(Cursor()) && start == Some(Pos(index - 1, lineNo, column))
    {
      start := Some(Pos(index - 1, lineNo, column));
    }

    method TokenFromStart(tokenType: TokenType) returns (t: Token)
      requires start.Some? && start.value.index < index
      modifies this
      ensures Cursor() == old(Cursor()) && start == None && t == TokenAt(tokenType, old(start).value, Cursor())
    {
      var pos := start.value;
      start := None;
      t := Token(tokenType, pos.index, pos.lineNo, pos.column, index - pos.index - 1);
    }

    method NextChars(n: nat)
      requires Valid()
      modifies this
      ensures Valid() && Cursor() == NextCharsOf(input, old(Cursor()), n) && start == old(start)
    {
      for i := 0 to n
        invariant Valid() && Cursor() == NextCharsOf(input, old(Cursor()), i) && start == old(start)
      {
        var _ := NextChar();
        NextCharsSnoc(input, old(Cursor()), i);
      }
    }

    method StringUntil(term: string) returns (r: Result<string, Error>)
      requires Valid() && term != []
      modifies this
      ensures Valid() && (r, Cursor()) == StringUntilOf(input, old(Cursor()), term, "") && start == old(start)
      decreases Remaining(input, Cursor()), 1
    {
      var word := "";
      ghost var target := StringUntilOf(input, Cursor(), term, "");
      while true
        invariant Valid() && StringUntilOf(input, Cursor(), term, word) == target && start == old(start)
        decreases Remaining(input, Cursor())
      {
        var current := NextChar();
        if current.None? {
          return Ok(word);
        }
        if IsPrefix(term, input[index - 1..]) {
          NextChars(|term| - 1);
          return Ok(word);
        }
        if current.value == '\\' {
          var charToPush := EscapedChar();
          if charToPush.Err? {
            return Err(charToPush.error);
          }
          word := word + [charToPush.value];
        } else {
          word := word + [current.value];
        }
      }
    }

    /** The escape after a backslash */
    method EscapedChar() returns (r: Result<char, Error>)
      requires Valid()
      modifies this
      ensures Valid() && (r, Cursor()) == EscapedCharOf(input, old(Cursor())) && start == old(start)
      decreases Remaining(input, Cursor()), 0
    {
      var next := NextChar();
      if next.None? {
        return Err(EndOfFile(String("")));
      }
      if next.value == 'u' {
        r := Unicode();
      } else {
        r := Ok(Unescape(next.value));
      }
    }

    method Unicode() returns (r: Result<char, Error>)
      requires Valid()
      modifies this
      ensures Valid() && (r, Cursor()) == UnicodeOf(input, old(Cursor())) && start == old(start)
      decreases Remaining(input, Cursor()), 0
    {
      var bracket := NextChar();
      if bracket != Some('{') {
        return Err(InvalidUnicodeChar);
      }
      var hexStr := StringUntil("}");
      if hexStr.Err? {
        return Err(hexStr.error);
      }
      if !(forall i :: 0 <= i < |hexStr.value| ==> IsAsciiHexDigit(hexStr.value[i])) {
        return Err(InvalidUnicodeChar);
      }
      var hexValue := ParseInt(hexStr.value, 16, 0, 0xFFFF_FFFF);
      if hexValue.None? || !IsScalarValue(hexValue.value) {
        return Err(InvalidUnicodeChar);
      }
      return Ok(hexValue.value as char);
    }

    method Comment()
      requires Valid()
      modifies this
      ensures Valid() && Cursor() == CommentEndOf(input, old(Cursor())) && start == old(start)
    {
      ghost var target := CommentEndOf(input, Cursor());
      while true
        invariant Valid() && CommentEndOf(input, Cursor()) == target && start == old(start)
        decreases Remaining(input, Cursor())
      {
        var current := NextChar();
        if current.None? || current.value == '\n' || current.value == '\r' {
          break;
        }
      }
    }

    method DocBody() returns (buffer: string)
      requires Valid()
      modifies this
      ensures Valid() && (buffer, Cursor()) == DocBodyOf(input, old(Cursor()), "") && start == old(start)
    {
      buffer := "";
      ghost var target := DocBodyOf(input, Cursor(), "");
      while true
        invariant Valid() && DocBodyOf(input, Cursor(), buffer) == target && start == old(start)
        decreases Remaining(input, Cursor())
      {
        var current := NextChar();
        if current.None? {
          break;
        }
        buffer := buffer + [current.value];
        if current.value == '\n' || current.value == '\r' {
          break;
        }
      }
    }

    /** The loop of `word`, and the word's text from its saved start */
    method WordText() returns (word: string)
      requires Valid() && start.Some? && start.value.index + 1 == index <= |input|
      modifies this
      ensures Valid() && start == old(start)
      ensures (word, Cursor()) == WordScanOf(input, old(Cursor()), [input[old(start).value.index]])
    {
      ghost var target := WordScanOf(input, Cursor(), [input[start.value.index]]);
      assert input[start.value.index..index] == [input[start.value.index]];
      while true
        invariant Valid() && start == old(start) && start.value.index < index <= |input|
        invariant WordScanOf(input, Cursor(), input[start.value.index..index]) == target
        decreases Remaining(input, Cursor())
      {
        ghost var read := input[start.value.index..index];
        var current := NextChar();
        if current.None? || IsWhitespace(current.value) {
          assert target == (read, Cursor());
          break;
        }
        assert input[start.value.index..index] == read + [current.value];
      }
      word := input[start.value.index..index - 1];
    }

    method Word() returns (r: Result<Option<Token>, Error>)
      requires Valid() && start.Some? && start.value.index + 1 == index <= |input|
      modifies this
      ensures Valid() && (r, Cursor()) == WordOf(input, old(Cursor()), old(start).value) && start == None
    {
      var word := WordText();
      var token := TokenFromStart(FromStr(word));
      return Ok(Some(token));
    }

    /** `next` */
    method Next() returns (r: Result<Option<Token>, Error>)
      requires Valid()
      modifies this
      ensures Valid() && (r, Cursor()) == NextOf(input, old(Cursor()))
      ensures r.Ok? && r.value.Some? ==> start == None
      decreases Remaining(input, Cursor()), 1
    {
      SkipWhitespace();
      r := TokenAfter();
    }

    /** `next` once the whitespace is skipped */
    method TokenAfter() returns (r: Result<Option<Token>, Error>)
      requires Valid() && index >= 1
      modifies this
      ensures Valid() && (r, Cursor()) == TokenAfterOf(input, old(Cursor()))
      ensures r.Ok? && r.value.Some? ==> start == None
      decreases Remaining(input, Cursor()), 0
    {
      SaveStart();
      if index - 1 < |input| {
        var current := input[index - 1];
        if current == '"' {
          r := Quoted();
        } else if current == '#' {
          if index < |input| && input[index] == '#' {
            r := DocCommentToken();
          } else {
            Comment();
            var _ := TokenFromStart(TokenType.Comment);
            r := Next();
          }
        } else {
          r := Word();
        }
      } else if !pastEof {
        pastEof := true;
        var token := TokenFromStart(EOF);
        r := Ok(Some(token));
      } else {
        r := Ok(None);
      }
    }

    /** The string branch of `next` */
    method Quoted() returns (r: Result<Option<Token>, Error>)
      requires Valid() && 1 <= index <= |input| && start.Some? && start.value.index < index
      modifies this
      ensures Valid() && (r, Cursor()) == QuotedOf(input, old(Cursor()), old(start).value)
      ensures r.Ok? ==> start == None
    {
      if IsPrefix("\"\"\"", input[index - 1..]) {
        NextChars(2);
        var word := StringUntil("\"\"\"");
        r := StringToken(word);
      } else {
        var word := StringUntil("\"");
        r := StringToken(word);
      }
    }

    /** The doc-comment branch of `next` */
    method DocCommentToken() returns (r: Result<Option<Token>, Error>)
      requires Valid() && start.Some? && start.value.index < index
      modifies this
      ensures Valid() && (r, Cursor()) == DocCommentOf(input, old(Cursor()), old(start).value)
      ensures start == None
    {
      var _ := NextChar();
      var doc := DocBody();
      var token := TokenFromStart(DocComment(doc));
      r := Ok(Some(token));
    }

    /** Ends a string token (`long_string` and `string`) */
    method StringToken(word: Result<string, Error>) returns (r: Result<Option<Token>, Error>)
      requires start.Some? && start.value.index < index
      modifies this
      ensures (r, Cursor()) == TokenOfString((word, old(Cursor())), old(start).value)
      ensures Cursor() == old(Cursor()) && start == (if word.Err? then old(start) else None)
    {
      if word.Err? {
        return Err(word.error);
      }
      var token := TokenFromStart(String(word.value));
      return Ok(Some(token));
    }

    /** `scan_until(close)`, as documented: the tokens before the next
        `close`, and `EndOfFile(close)` when the input runs out first */
    method ScanUntil(close: TokenType) returns (r: Result<seq<Token>, Error>)
      requires Valid()
      modifies this
      ensures Valid() && (r, Cursor()) == ScanUntilFixed(input, old(Cursor()), close, [])
    {
      var tokens := [];
      ghost var target := ScanUntilFixed(input, Cursor(), close, []);
      while true
        invariant Valid() && ScanUntilFixed(input, Cursor(), close, tokens) == target
        decreases Remaining(input, Cursor()), if pastEof then 0 else 1
      {
        var next := Next();
        if next.Err? {
          return Err(next.error);
        }
        if next.value.None? {
          return Err(EndOfFile(close));
        }
        if next.value.value.tokenType == close {
          return Ok(tokens);
        }
        tokens := tokens + [next.value.value];
      }
    }
  }

  lemma NextCharsSnoc(input: string, s: State, i: nat)
    ensures NextCharsOf(input, s, i + 1) == NextCharOf(input, NextCharsOf(input, s, i)).0
    decreases i
  {
    if i > 0 {
      NextCharsSnoc(input, NextCharOf(input, s).0, i - 1);
    }
  }

  /** `scan`: every token of the input, the EOF token last */
  method Scan(input: string) returns (r: Result<seq<Token>, Error>)
    ensures r == TokensOf(input, InitialState())
  {
    var scanner := new Scanner.FromString(input);
    var tokens := [];
    assert forall rest: seq<Token> :: tokens + rest == rest;
    while true
      invariant scanner.Valid() && scanner.input == input
      invariant match TokensOf(input, scanner.Cursor())
        case Err(e) => TokensOf(input, InitialState()) == Err(e)
        case Ok(rest) => TokensOf(input, InitialState()) == Ok(tokens + rest)
      decreases Remaining(input, scanner.Cursor()), if scanner.pastEof then 0 else 1
    {
      var token := scanner.Next();
      if token.Err? {
        return Err(token.error);
      }
      if token.value.None? {
        assert tokens + [] == tokens;
        break;
      }
      assert forall rest :: tokens + ([token.value.value] + rest) == (tokens + [token.value.value]) + rest;
      tokens := tokens + [token.value.value];
    }
    return Ok(tokens);
  }

  // ---------------------------------------------------------------------
  // Properties of word classification

  /** The fixed words win over every other reading. */
  lemma KeywordsFirst(word: string)
    requires Keyword(word).Some?
    ensures FromStr(word) == Keyword(word).value
    ensures FromStr(word) != Word(word)
  {
  }

  lemma DecimalDigitsAreAscii(d: string)
    requires AllDigits(d, 10)
    ensures forall i :: 0 <= i < |d| ==> IsAsciiDigit(d[i])
  {
    forall i | 0 <= i < |d|
      ensures IsAsciiDigit(d[i])
    {
      assert DigitValue(d[i]) < 10;
    }
  }

  lemma {:induction false} ToLowerDigits(d: string)
    requires forall i :: 0 <= i < |d| ==> IsAsciiDigit(d[i])
    ensures ToLowerAscii(d) == d
  {
    if d != [] {
      ToLowerDigits(d[1..]);
    }
  }

  lemma DecimalNotKeyword(sign: string, d: string)
    requires sign == "" || sign == "+" || sign == "-"
    requires d != [] && forall i :: 0 <= i < |d| ==> IsAsciiDigit(d[i])
    ensures Keyword(sign + d) == None
  {
    var word := sign + d;
    assert word[|word| - 1] == d[|d| - 1];
    assert IsAsciiDigit(word[|word| - 1]);
  }

  lemma DecimalNoRadix(m: int, d: string)
    requires d != [] && forall i :: 0 <= i < |d| ==> IsAsciiDigit(d[i])
    ensures ParseWithRadix(m, d, "0x", "0X", 16) == None
    ensures ParseWithRadix(m, d, "0o", "0O", 8) == None
    ensures ParseWithRadix(m, d, "0b", "0B", 2) == None
  {
    assert |d| >= 2 ==> IsAsciiDigit(d[1]);
  }

  lemma DecimalIsF64(d: string)
    requires d != [] && forall i :: 0 <= i < |d| ==> IsAsciiDigit(d[i])
    ensures IsF64Literal(d)
  {
    ToLowerDigits(d);
    assert IndexOfChar(d, 'e') == None && IndexOfChar(d, '.') == None;
    assert forall i :: 0 <= i < |d| ==> DigitValue(d[i]) < 10;
  }

  lemma SignSplit(sign: string, d: string)
    requires sign == "" || sign == "+" || sign == "-"
    requires d != [] && IsAsciiDigit(d[0])
    ensures ParseMultiplier(sign + d) == (d, if sign == "-" then -1 else 1)
  {
    assert (sign + d)[|sign|..] == d;
  }

  /** A run of decimal digits after an optional sign: no fixed word, no radix
      prefix, no fraction; it is an integer when it fits in an i64 and a float
      otherwise. */
  lemma DecimalWord(sign: string, d: string)
    requires sign == "" || sign == "+" || sign == "-"
    requires d != [] && AllDigits(d, 10)
    ensures FromStr(sign + d) ==
      if ParseI64(d).Some? then Integer(if sign == "-" then -ParseI64(d).value else ParseI64(d).value)
      else Float(sign + d)
  {
    DecimalDigitsAreAscii(d);
    DecimalNotKeyword(sign, d);
    SignSplit(sign, d);
    DecimalNoRadix(if sign == "-" then -1 else 1, d);
    DecimalIsF64(d);
  }

  /** Decimal integers, with an optional sign, are read as their i64 value. */
  lemma SignedDecimal(sign: string, n: nat)
    requires sign == "" || sign == "+" || sign == "-"
    requires n <= I64_MAX
    ensures FromStr(sign + ShowNat(n)) == Integer(if sign == "-" then -(n as int) else n)
  {
    ParseNat(n);
    DecimalWord(sign, ShowNat(n));
  }

  /** A decimal integer beyond the i64 range (i64::MIN written out among them)
      is read as a float. */
  lemma BeyondI64(sign: string, n: nat)
    requires sign == "" || sign == "+" || sign == "-"
    requires n > I64_MAX
    ensures FromStr(sign + ShowNat(n)) == Float(sign + ShowNat(n))
  {
    DigitsValueShowNat(n);
    DecimalWord(sign, ShowNat(n));
  }

  /** The two spellings of each radix prefix */
  function RadixPrefixes(radix: nat): (string, string) {
    if radix == 16 then ("0x", "0X") else if radix == 8 then ("0o", "0O") else ("0b", "0B")
  }

  lemma TrimAbsent(s: string, p: string)
    requires p != [] && !IsPrefix(p, s)
    ensures TrimStartMatches(s, p) == s
  {
  }

  lemma TrimOnce(p: string, ds: string)
    requires p != [] && !IsPrefix(p, ds)
    ensures TrimStartMatches(p + ds, p) == ds
  {
    assert IsPrefix(p, p + ds);
    assert (p + ds)[|p|..] == ds;
  }

  /** Both trims remove exactly the prefix in front of the digits. */
  lemma RadixTrim(prefix: string, radix: nat, ds: string)
    requires radix == 16 || radix == 8 || radix == 2
    requires prefix == RadixPrefixes(radix).0 || prefix == RadixPrefixes(radix).1
    requires AllDigits(ds, radix)
    ensures TrimStartMatches(TrimStartMatches(prefix + ds, RadixPrefixes(radix).0), RadixPrefixes(radix).1) == ds
  {
    var (lower, upper) := RadixPrefixes(radix);
    assert |ds| >= 2 ==> DigitValue(ds[1]) < radix;
    assert !IsPrefix(lower, ds) && !IsPrefix(upper, ds);
    if prefix == lower {
      TrimOnce(lower, ds);
      TrimAbsent(ds, upper);
    } else {
      assert (upper + ds)[1] == upper[1];
      TrimAbsent(upper + ds, lower);
      TrimOnce(upper, ds);
    }
  }

  /** Unsigned digits that fit are read as their value. */
  lemma DigitsParse(ds: string, radix: nat)
    requires ds != [] && AllDigits(ds, radix) && radix <= 36 && DigitsValue(ds, radix) <= I64_MAX
    ensures ParseInt(ds, radix, I64_MIN, I64_MAX) == Some(DigitsValue(ds, radix))
  {
    assert DigitValue(ds[0]) < radix;
  }

  /** Digits after a radix prefix, read in that radix */
  lemma RadixHit(m: int, prefix: string, radix: nat, ds: string)
    requires radix == 16 || radix == 8 || radix == 2
    requires prefix == RadixPrefixes(radix).0 || prefix == RadixPrefixes(radix).1
    requires ds != [] && AllDigits(ds, radix) && DigitsValue(ds, radix) <= I64_MAX
    ensures ParseWithRadix(m, prefix + ds, RadixPrefixes(radix).0, RadixPrefixes(radix).1, radix)
      == Some(Integer(WrapI64(m * DigitsValue(ds, radix))))
  {
    assert (prefix + ds)[..2] == prefix;
    RadixTrim(prefix, radix, ds);
    DigitsParse(ds, radix);
  }

  /** A word whose second char is not that of a radix's prefixes is not read in that radix. */
  lemma RadixMiss(m: int, word: string, radix: nat)
    requires radix == 16 || radix == 8 || radix == 2
    requires |word| >= 2 && word[1] != RadixPrefixes(radix).0[1] && word[1] != RadixPrefixes(radix).1[1]
    ensures ParseWithRadix(m, word, RadixPrefixes(radix).0, RadixPrefixes(radix).1, radix) == None
  {
  }

  lemma RadixSign(sign: string, prefix: string, radix: nat, ds: string)
    requires sign == "" || sign == "+" || sign == "-"
    requires radix == 16 || radix == 8 || radix == 2
    requires prefix == RadixPrefixes(radix).0 || prefix == RadixPrefixes(radix).1
    requires ds != []
    ensures Keyword(sign + prefix + ds) == None
    ensures ParseMultiplier(sign + prefix + ds) == (prefix + ds, if sign == "-" then -1 else 1)
  {
    var word := sign + prefix + ds;
    assert word[|sign|] == '0' && word[|sign| + 1] == prefix[1];
    assert word[|sign|..] == prefix + ds;
  }

  /** Radix literals (`0x`, `0o`, `0b`, either case), after an optional sign,
      are read as their i64 value; hexadecimal is tried first, so `0x0b1` is
      0xb1. */
  lemma RadixWord(sign: string, prefix: string, radix: nat, ds: string)
    requires sign == "" || sign == "+" || sign == "-"
    requires radix == 16 || radix == 8 || radix == 2
    requires prefix == RadixPrefixes(radix).0 || prefix == RadixPrefixes(radix).1
    requires ds != [] && AllDigits(ds, radix) && DigitsValue(ds, radix) <= I64_MAX
    ensures FromStr(sign + prefix + ds) ==
      Integer(if sign == "-" then -(DigitsValue(ds, radix) as int) else DigitsValue(ds, radix))
  {
    var m := if sign == "-" then -1 else 1;
    RadixSign(sign, prefix, radix, ds);
    RadixHit(m, prefix, radix, ds);
    if radix != 16 {
      RadixMiss(m, prefix + ds, 16);
    }
    if radix == 2 {
      RadixMiss(m, prefix + ds, 8);
    }
  }

  // Rationals

  /** The plain `numer/den` branch of `parse_rational` */
  lemma RationalOfParts(m: int, left: string, denText: string, a: int, den: int)
    requires '/' !in left && '+' !in left && '-' !in left
    requires ParseI64(denText) == Some(den) && ParseI64(left) == Some(a)
    ensures ParseRational(m, left + "/" + denText)
      == Some(Rational(WrapI64((if den < 0 then -1 else 1) * m * a), WrapI64(Abs(den))))
  {
    assert left + "/" + denText == left + ['/'] + denText;
    SplitOnceAt(left, '/', denText);
    SplitOnceSpec(left, '+');
    SplitOnceSpec(left, '-');
  }

  /** Multiplying by two signs */
  lemma SignProduct(s: int, m: int, a: int)
    requires (s == 1 || s == -1) && (m == 1 || m == -1)
    ensures s * m * a == if (s == -1) != (m == -1) then -a else a
  {
    if s == 1 {
      if m == 1 { } else { }
    } else {
      if m == 1 { } else { }
    }
  }

  /** A word's sign, its number part, and the fixed words it cannot be */
  lemma SignedDigits(sign: string, nw: string)
    requires sign == "" || sign == "+" || sign == "-"
    requires nw != [] && IsAsciiDigit(nw[0])
    ensures Keyword(sign + nw) == None
    ensures ParseMultiplier(sign + nw) == (nw, if sign == "-" then -1 else 1)
  {
    var word := sign + nw;
    assert word[|sign|] == nw[0];
    DigitNotKeyword(word, |sign|);
    assert word[|sign|..] == nw;
  }

  /** A word whose char at `k` is a decimal digit is no fixed word. */
  lemma DigitNotKeyword(word: string, k: nat)
    requires k < |word| && IsAsciiDigit(word[k])
    ensures Keyword(word) == None
  {
  }

  /** The rational branch of `from_str` */
  lemma RationalBranch(word: string, nw: string, m: int)
    requires Keyword(word) == None && ParseMultiplier(word) == (nw, m)
    requires ParseWithRadix(m, nw, "0x", "0X", 16) == None
    requires ParseWithRadix(m, nw, "0o", "0O", 8) == None
    requires ParseWithRadix(m, nw, "0b", "0B", 2) == None
    requires StartsWithDigit(nw) && '/' in nw && ParseRational(m, nw).Some?
    ensures FromStr(word) == ParseRational(m, nw).value
  {
  }

  /** `numer/den` in the number part */
  lemma FractionNumber(m: int, numText: string, denText: string, a: int, den: int)
    requires m == 1 || m == -1
    requires numText != [] && forall i :: 0 <= i < |numText| ==> IsAsciiDigit(numText[i])
    requires ParseI64(numText) == Some(a) && ParseI64(denText) == Some(den)
    ensures ParseRational(m, numText + "/" + denText)
      == Some(Rational(WrapI64(if (den < 0) != (m == -1) then -a else a), WrapI64(Abs(den))))
  {
    assert '/' !in numText && '+' !in numText && '-' !in numText;
    RationalOfParts(m, numText, denText, a, den);
    var s := if den < 0 then -1 else 1;
    SignProduct(s, m, a);
  }

  /** No radix prefix applies to a number part that starts with digits and
      then `sep`. */
  lemma NumberNoRadix(m: int, digits: string, sep: char, rest: string, nw: string)
    requires digits != [] && forall i :: 0 <= i < |digits| ==> IsAsciiDigit(digits[i])
    requires !IsAsciiDigit(sep) && sep != 'x' && sep != 'X' && sep != 'o' && sep != 'O' && sep != 'b' && sep != 'B'
    requires nw == digits + [sep] + rest
    ensures IsAsciiDigit(nw[0]) && nw[|digits|] == sep
    ensures ParseWithRadix(m, nw, "0x", "0X", 16) == None
    ensures ParseWithRadix(m, nw, "0o", "0O", 8) == None
    ensures ParseWithRadix(m, nw, "0b", "0B", 2) == None
  {
    assert nw[0] == digits[0] && nw[|digits|] == sep;
    assert nw[1] == if |digits| >= 2 then digits[1] else sep;
    RadixMiss(m, nw, 16);
    RadixMiss(m, nw, 8);
    RadixMiss(m, nw, 2);
  }

  /** A signed fraction takes the rational branch of `from_str`. */
  lemma FractionBranch(sign: string, numText: string, denText: string, a: int, den: int)
    requires sign == "" || sign == "+" || sign == "-"
    requires numText != [] && forall i :: 0 <= i < |numText| ==> IsAsciiDigit(numText[i])
    requires ParseI64(numText) == Some(a) && ParseI64(denText) == Some(den)
    ensures Some(FromStr(sign + (numText + "/" + denText)))
      == ParseRational(if sign == "-" then -1 else 1, numText + "/" + denText)
  {
    var m := if sign == "-" then -1 else 1;
    var nw := numText + "/" + denText;
    FractionNumber(m, numText, denText, a, den);
    NumberNoRadix(m, numText, '/', denText, nw);
    SignedDigits(sign, nw);
    RationalBranch(sign + nw, nw, m);
  }

  /** Fractions `numer/den` are read as rationals: the denominator becomes
      its absolute value, and its sign and the word's sign go to the
      numerator (i64 arithmetic wraps). */
  lemma SimpleFraction(sign: string, numText: string, denText: string, a: int, den: int)
    requires sign == "" || sign == "+" || sign == "-"
    requires numText != [] && forall i :: 0 <= i < |numText| ==> IsAsciiDigit(numText[i])
    requires ParseI64(numText) == Some(a) && ParseI64(denText) == Some(den)
    ensures FromStr(sign + (numText + "/" + denText))
      == Rational(WrapI64(if (den < 0) != (sign == "-") then -a else a), WrapI64(Abs(den)))
  {
    FractionBranch(sign, numText, denText, a, den);
    FractionNumber(if sign == "-" then -1 else 1, numText, denText, a, den);
  }

  // ---------------------------------------------------------------------
  // Properties of the token stream

  /** A token's line and column are those after reading its first char (or
      the end of input), and every token but EOF starts inside the input. */
  predicate Placed(input: string, t: Token) {
    var read := input[..Min(t.start + 1, |input|)];
    && t.lineNo == Newlines(read) && t.column == ColumnOf(read)
    && (t.tokenType == EOF <==> t.start >= |input|)
    && (t.tokenType == EOF ==> t.length == 0)
  }

  /** What one call of `next` from `s` gives: nothing exactly when past the
      end, else a placed token starting at `from` or later and ending before
      the new cursor, which is EOF exactly when it is the step that passes the end. */
  predicate StepFacts(input: string, from: int, s: State, r: (Result<Option<Token>, Error>, State)) {
    && (r.0 == Ok(None) <==> s.pastEof)
    && (r.0.Ok? && r.0.value.Some? ==>
          var t := r.0.value.value;
          && Placed(input, t)
          && from <= t.start && t.start + t.length + 1 == r.1.index
          && (t.tokenType == EOF <==> r.1.pastEof))
  }

  /** A word never reads as the end of input, a comment or a doc comment. */
  lemma WordsAreNotMarkers(word: string)
    ensures !FromStr(word).EOF? && !FromStr(word).Comment? && !FromStr(word).DocComment?
  {
  }

  /** A token other than EOF that starts at a char of the input and ends by
      the end of input */
  lemma TokenFacts(input: string, s: State, p: Pos, tt: TokenType, s1: State)
    requires Consistent(input, s) && !s.pastEof && !s1.pastEof && tt != EOF
    requires 1 <= s.index <= |input| && p == Pos(s.index - 1, s.lineNo, s.column)
    requires s.index < s1.index
    ensures StepFacts(input, s.index - 1, s, (Ok(Some(TokenAt(tt, p, s1))), s1))
  {
  }

  lemma WordFacts(input: string, s: State, p: Pos)
    requires Consistent(input, s) && !s.pastEof
    requires 1 <= s.index <= |input| && p == Pos(s.index - 1, s.lineNo, s.column)
    ensures StepFacts(input, s.index - 1, s, WordOf(input, s, p))
  {
    var (text, s1) := WordScanOf(input, s, [input[p.index]]);
    WordsAreNotMarkers(text);
    TokenFacts(input, s, p, FromStr(text), s1);
  }

  lemma QuotedFacts(input: string, s: State, p: Pos)
    requires Consistent(input, s) && !s.pastEof
    requires 1 <= s.index <= |input| && p == Pos(s.index - 1, s.lineNo, s.column)
    ensures StepFacts(input, s.index - 1, s, QuotedOf(input, s, p))
  {
  }

  lemma DocFacts(input: string, s: State, p: Pos)
    requires Consistent(input, s) && !s.pastEof
    requires 1 <= s.index < |input| && p == Pos(s.index - 1, s.lineNo, s.column)
    ensures StepFacts(input, s.index - 1, s, DocCommentOf(input, s, p))
  {
  }

  lemma EofFacts(input: string, s: State)
    requires Consistent(input, s) && s.index >= 1 && CurrentOf(input, s).None?
    ensures StepFacts(input, s.index - 1, s, TokenAfterOf(input, s))
  {
  }

  lemma {:induction false} NextFacts(input: string, s: State)
    requires Consistent(input, s)
    ensures StepFacts(input, s.index, s, NextOf(input, s))
    decreases Remaining(input, s), 1
  {
    TokenAfterFacts(input, SkipWhitespaceOf(input, s));
  }

  lemma {:induction false} TokenAfterFacts(input: string, s: State)
    requires Consistent(input, s) && s.index >= 1
    ensures StepFacts(input, s.index - 1, s, TokenAfterOf(input, s))
    decreases Remaining(input, s), 0
  {
    var p := Pos(s.index - 1, s.lineNo, s.column);
    match CurrentOf(input, s)
    case Some(current) =>
      if current == '"' {
        QuotedFacts(input, s, p);
      } else if current == '#' {
        if s.index < |input| && input[s.index] == '#' {
          DocFacts(input, s, p);
        } else {
          NextFacts(input, CommentEndOf(input, s));
        }
      } else {
        WordFacts(input, s, p);
      }
    case None =>
      EofFacts(input, s);
  }

  /** The tokens from `s` on end with exactly one EOF (none once past the
      end), follow each other without overlapping, and are all placed. */
  predicate StreamFacts(input: string, s: State, ts: seq<Token>) {
    && (s.pastEof ==> ts == [])
    && (!s.pastEof ==> |ts| > 0 && ts[|ts| - 1].tokenType == EOF)
    && (forall i :: 0 <= i < |ts| - 1 ==> ts[i].tokenType != EOF)
    && (forall i :: 0 <= i < |ts| ==> Placed(input, ts[i]) && s.index <= ts[i].start)
    && (forall i :: 0 <= i < |ts| - 1 ==> ts[i].start + ts[i].length < ts[i + 1].start)
  }

  lemma StreamCons(input: string, s: State, t: Token, s1: State, rest: seq<Token>)
    requires StepFacts(input, s.index, s, (Ok(Some(t)), s1)) && s.pastEof == false
    requires StreamFacts(input, s1, rest)
    ensures StreamFacts(input, s, [t] + rest)
  {
    var ts := [t] + rest;
    assert forall i :: 0 < i < |ts| ==> ts[i] == rest[i - 1];
  }

  lemma {:induction false} TokensFacts(input: string, s: State)
    requires Consistent(input, s)
    ensures TokensOf(input, s).Ok? ==> StreamFacts(input, s, TokensOf(input, s).value)
    decreases Remaining(input, s), if s.pastEof then 0 else 1
  {
    var (next, s1) := NextOf(input, s);
    NextFacts(input, s);
    if next.Ok? && next.value.Some? {
      TokensFacts(input, s1);
      if TokensOf(input, s1).Ok? {
        StreamCons(input, s, next.value.value, s1, TokensOf(input, s1).value);
      }
    }
  }

  /** `scan` gives the tokens of the whole input, the last of them the one EOF. */
  lemma ScanFacts(input: string)
    ensures TokensOf(input, InitialState()).Ok? ==> StreamFacts(input, InitialState(), TokensOf(input, InitialState()).value)
  {
    TokensFacts(input, InitialState());
  }

  // ---------------------------------------------------------------------
  // Strings

  lemma {:induction false} NextCharsAdd(input: string, s: State, a: nat, b: nat)
    ensures NextCharsOf(input, NextCharsOf(input, s, a), b) == NextCharsOf(input, s, a + b)
    decreases a
  {
    if a > 0 {
      NextCharsAdd(input, NextCharOf(input, s).0, a - 1, b);
    }
  }

  /** One step of `string_until("\"")`: a closing quote ends the string */
  lemma QuoteStep(input: string, s: State, acc: string)
    requires s.index < |input| && input[s.index] == '"'
    ensures StringUntilOf(input, s, "\"", acc) == (Ok(acc), NextCharsOf(input, s, 1))
  {
    assert IsPrefix("\"", input[s.index..]);
  }

  /** One step of `string_until("\"")`: a plain char is kept */
  lemma PlainStep(input: string, s: State, acc: string)
    requires s.index < |input| && input[s.index] != '"' && input[s.index] != '\\'
    ensures StringUntilOf(input, s, "\"", acc)
      == StringUntilOf(input, NextCharsOf(input, s, 1), "\"", acc + [input[s.index]])
  {
    assert !IsPrefix("\"", input[s.index..]);
  }

  /** One step of `string_until("\"")`: a backslash and a char other than `u`
      stand for the unescaped char */
  lemma EscapeStep(input: string, s: State, acc: string)
    requires s.index + 1 < |input| && input[s.index] == '\\' && input[s.index + 1] != 'u'
    ensures StringUntilOf(input, s, "\"", acc)
      == StringUntilOf(input, NextCharsOf(input, s, 2), "\"", acc + [Unescape(input[s.index + 1])])
  {
    assert !IsPrefix("\"", input[s.index..]);
    assert NextCharsOf(input, s, 2) == NextCharOf(input, NextCharOf(input, s).0).0;
  }

  /** One escaped char of a body reads back as the char itself */
  lemma HeadStep(input: string, s: State, acc: string, c: char)
    requires TextAt(input, s.index, EscapeChar(c))
    ensures StringUntilOf(input, s, "\"", acc)
      == StringUntilOf(input, NextCharsOf(input, s, |EscapeChar(c)|), "\"", acc + [c])
  {
    if |EscapeChar(c)| == 2 {
      assert TextAt(input, s.index + 1, EscapeChar(c)[1..]);
      EscapeStep(input, s, acc);
    } else {
      PlainStep(input, s, acc);
    }
  }

  /** An escaped body followed by a quote reads back as its data, and the
      cursor ends just after the closing quote. */
  lemma {:induction false} EscapedBody(input: string, s: State, acc: string, d: string)
    requires TextAt(input, s.index, Escape(d) + ['"'])
    ensures StringUntilOf(input, s, "\"", acc).0 == Ok(acc + d)
    ensures StringUntilOf(input, s, "\"", acc).1.index == s.index + |Escape(d)| + 1
    decreases d
  {
    if d == [] {
      assert Escape(d) + ['"'] == ['"'];
      QuoteStep(input, s, acc);
      assert acc + d == acc;
    } else {
      EscapedHead(input, s, acc, d);
      EscapedBody(input, NextCharsOf(input, s, |EscapeChar(d[0])|), acc + [d[0]], d[1..]);
      HeadAndRest(acc, d);
    }
  }

  /** The first char of a body and the rest of it, kept and escaped */
  lemma HeadAndRest(acc: string, d: string)
    requires d != []
    ensures acc + [d[0]] + d[1..] == acc + d
    ensures |Escape(d)| == |EscapeChar(d[0])| + |Escape(d[1..])|
  {
    assert [d[0]] + d[1..] == d;
  }

  /** Reading the first escaped char of a body moves on to the rest of it. */
  lemma EscapedHead(input: string, s: State, acc: string, d: string)
    requires d != [] && TextAt(input, s.index, Escape(d) + ['"'])
    ensures TextAt(input, s.index + |EscapeChar(d[0])|, Escape(d[1..]) + ['"'])
    ensures StringUntilOf(input, s, "\"", acc)
      == StringUntilOf(input, NextCharsOf(input, s, |EscapeChar(d[0])|), "\"", acc + [d[0]])
  {
    EscapedSplit(input, s.index, d);
    HeadStep(input, s, acc, d[0]);
  }

  /** A backslash as the last char of the input ends the string with an error. */
  lemma BackslashAtEnd(input: string, s: State, term: string, acc: string)
    requires s.index + 1 == |input| && input[s.index] == '\\'
    requires term != [] && term[0] != '\\'
    ensures StringUntilOf(input, s, term, acc).0 == Err(EndOfFile(String("")))
  {
    assert !IsPrefix(term, input[s.index..]);
  }

  /** Round trip: a quoted, escaped string is read back as its data, and the
      token spans the opening quote and the body. */
  lemma QuotedRoundTrip(input: string, s: State, p: Pos, d: string)
    requires 1 <= s.index && p.index + 1 == s.index
    requires TextAt(input, p.index, ['"'] + (Escape(d) + ['"']))
    requires !IsPrefix("\"\"\"", input[p.index..])
    ensures QuotedOf(input, s, p).0 == Ok(Some(Token(String(d), p.index, p.lineNo, p.column, |Escape(d)| + 1)))
    ensures QuotedOf(input, s, p).1.index == s.index + |Escape(d)| + 1
  {
    TextSplit(input, p.index, ['"'], Escape(d) + ['"']);
    EscapedBody(input, s, "", d);
    assert "" + d == d;
  }

  /** `unicode` yields a char only after a `{`, and only a valid code point. */
  lemma UnicodeShape(input: string, s: State)
    ensures UnicodeOf(input, s).0.Ok? ==>
      s.index < |input| && input[s.index] == '{' && IsScalarValue(UnicodeOf(input, s).0.value as int)
    ensures (s.index >= |input| || input[s.index] != '{') ==> UnicodeOf(input, s).0 == Err(InvalidUnicodeChar)
  {
  }

  // ---------------------------------------------------------------------
  // `scan_until`

  /** The tokens before the first one of type `close`, if there is one */
  function UpToClose(ts: seq<Token>, close: TokenType): (r: Option<seq<Token>>)
    ensures r.Some? ==> |r.value| < |ts| && r.value == ts[..|r.value|] && ts[|r.value|].tokenType == close
    ensures r.Some? ==> forall i :: 0 <= i < |r.value| ==> r.value[i].tokenType != close
    ensures r.None? ==> forall i :: 0 <= i < |ts| ==> ts[i].tokenType != close
  {
    if ts == [] then None
    else if ts[0].tokenType == close then Some([])
    else match UpToClose(ts[1..], close)
      case None => None
      case Some(rest) => Some([ts[0]] + rest)
  }

  /** The documented `scan_until` after one token that is not `close`, with
      the rest of the stream `rest` */
  lemma ScanUntilCons(t: Token, rest: seq<Token>, close: TokenType, acc: seq<Token>, later: Result<seq<Token>, Error>)
    requires t.tokenType != close
    requires later == match UpToClose(rest, close)
      case Some(before) => Ok(acc + [t] + before)
      case None => Err(EndOfFile(close))
    ensures later == match UpToClose([t] + rest, close)
      case Some(before) => Ok(acc + before)
      case None => Err(EndOfFile(close))
  {
    assert ([t] + rest)[1..] == rest;
    match UpToClose(rest, close)
    case None =>
    case Some(before) =>
      assert acc + [t] + before == acc + ([t] + before);
  }

  /** The documented `scan_until`: from the token stream, the tokens before
      the first `close`, or `EndOfFile(close)` when no token is `close` */
  lemma {:induction false} ScanUntilTokens(input: string, s: State, close: TokenType, acc: seq<Token>)
    requires TokensOf(input, s).Ok?
    ensures ScanUntilFixed(input, s, close, acc).0 ==
      match UpToClose(TokensOf(input, s).value, close)
      case Some(before) => Ok(acc + before)
      case None => Err(EndOfFile(close))
    decreases Remaining(input, s), if s.pastEof then 0 else 1
  {
    var (next, s1) := NextOf(input, s);
    if next.value.None? {
      assert TokensOf(input, s).value == [];
    } else if next.value.value.tokenType == close {
      assert TokensOf(input, s).value[0] == next.value.value;
      assert acc + [] == acc;
    } else {
      var t := next.value.value;
      ScanUntilTokens(input, s1, close, acc + [t]);
      assert TokensOf(input, s).value == [t] + TokensOf(input, s1).value;
      ScanUntilCons(t, TokensOf(input, s1).value, close, acc, ScanUntilFixed(input, s1, close, acc + [t]).0);
    }
  }

  lemma CloseBracketWord()
    ensures SkipWhitespaceOf("]", InitialState()) == State(1, 0, 1, false)
    ensures WordScanOf("]", State(1, 0, 1, false), "]") == ("]", State(2, 0, 1, false))
  {
    assert NextCharOf("]", InitialState()) == (State(1, 0, 1, false), Some(']'));
    assert NextCharOf("]", State(1, 0, 1, false)) == (State(2, 0, 1, false), None);
  }

  /** The first token of `]` is the close bracket, read up to one past the end. */
  lemma CloseBracketToken()
    ensures NextOf("]", InitialState()) == (Ok(Some(Token(CloseBracket, 0, 0, 1, 1))), State(2, 0, 1, false))
  {
    CloseBracketWord();
    KeywordsFirst("]");
    assert CurrentOf("]", State(1, 0, 1, false)) == Some(']');
    assert TokenAfterOf("]", State(1, 0, 1, false)) == WordOf("]", State(1, 0, 1, false), Pos(0, 0, 1));
  }

  /** As written, `scan_until` reports `EndOfFile` for `]` scanned up to `]`:
      the close token is the last word, so the cursor has passed the last char. */
  lemma ScanUntilAsWritten()
    ensures ScanUntilOf("]", InitialState(), CloseBracket, []).0 == Err(EndOfFile(CloseBracket))
    ensures ScanUntilFixed("]", InitialState(), CloseBracket, []).0 == Ok([])
  {
    CloseBracketToken();
  }
}
