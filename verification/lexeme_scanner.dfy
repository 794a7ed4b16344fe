/** The lexeme scanner: reads a source text char by char, keeping the line,
    the column and the byte offset of the next char, and turns it into tokens
    that carry their position and their source text: integers and decimal
    numbers, `#t`/`#f` booleans, operator keywords and plain words. */
module LexemeScanner {
  import opened Base

  datatype TokenType =
    | Integer(i: int)
    | Float(text: string)          // the value of a float is not modelled
    | Boolean(b: bool)
    | Dup | Swap | Rot | Drop
    | Plus | Dash | Star | Slash
    | EqualEqual | BangEqual | Less | Greater | LessEqual | GreaterEqual | Bang
    | Word(w: string)

  datatype ScanError = InvalidNumber(number: string) | InvalidLiteral(literal: string)

  /** A token, where it starts (1-based line and column, 0-based byte offset),
      its length in bytes and its text */
  datatype Token = Token(tokenType: TokenType, line: nat, column: nat, offset: nat, length: nat, lexeme: string)

  // ---------------------------------------------------------------------
  // Positions

  /** Line, column and byte offset of the next char to read */
  datatype Position = Position(line: nat, column: nat, offset: nat)

  /** `advance`: account for one consumed char */
  function PositionAfter(k: Position, c: char): Position
  {
    Position(if c == '\n' then k.line + 1 else k.line,
             if c == '\n' then 1 else k.column + 1,
             k.offset + Utf8Len(c))
  }

  /** The position reached after consuming the first `p` chars of `input` */
  function PositionAt(input: string, p: nat): Position
    requires p <= |input|
    decreases p
  {
    if p == 0 then Position(1, 1, 0) else PositionAfter(PositionAt(input, p - 1), input[p - 1])
  }

  /** The position after a prefix is its line count, its column and its byte
      length, each counted from the prefix itself. */
  lemma {:induction false} PositionOfPrefix(input: string, p: nat)
    requires p <= |input|
    ensures PositionAt(input, p)
      == Position(1 + Newlines(input[..p]), 1 + ColumnOf(input[..p]), ByteLen(input[..p]))
  {
    if p > 0 {
      PositionOfPrefix(input, p - 1);
      assert input[..p][..p - 1] == input[..p - 1];
    }
  }

  /** Offsets never decrease as the scanner reads on. */
  lemma {:induction false} OffsetGrows(input: string, p: nat, q: nat)
    requires p <= q <= |input|
    ensures PositionAt(input, p).offset <= PositionAt(input, q).offset
    decreases q
  {
    if p < q {
      OffsetGrows(input, p, q - 1);
    }
  }

  /** The bytes between two positions are those of the chars between them. */
  lemma OffsetSpan(input: string, p: nat, q: nat)
    requires p <= q <= |input|
    ensures PositionAt(input, q).offset - PositionAt(input, p).offset == ByteLen(input[p..q])
  {
    var head, span := input[..p], input[p..q];
    assert input[..q] == head + span;
    ByteLenAppend(head, span);
    OffsetIsByteLen(input, p);
    OffsetIsByteLen(input, q);
  }

  lemma OffsetIsByteLen(input: string, p: nat)
    requires p <= |input|
    ensures PositionAt(input, p).offset == ByteLen(input[..p])
  {
    PositionOfPrefix(input, p);
  }

  // ---------------------------------------------------------------------
  // Runs of chars

  /** The end of the run of chars satisfying `inRun` that starts at `p` */
  function RunEnd(s: string, p: nat, inRun: char -> bool): (q: nat)
    requires p <= |s|
    ensures p <= q <= |s|
    ensures forall i :: p <= i < q ==> inRun(s[i])
    ensures q == |s| || !inRun(s[q])
    decreases |s| - p
  {
    if p < |s| && inRun(s[p]) then RunEnd(s, p + 1, inRun) else p
  }

  predicate NotAsciiWhitespace(c: char) { !IsAsciiWhitespace(c) }

  /** Where `skip_whitespace` stops */
  function SkipFrom(input: string, p: nat): (q: nat)
    requires p <= |input|
  {
    RunEnd(input, p, IsWhitespace)
  }

  /** Skipping whitespace a second time changes nothing. */
  lemma SkipIdempotent(input: string, p: nat)
    requires p <= |input|
    ensures SkipFrom(input, SkipFrom(input, p)) == SkipFrom(input, p)
  {
  }

  // ---------------------------------------------------------------------
  // Numbers

  /** The loop of `scan_number` from char `p`, with the text read so far */
  function NumberLoop(input: string, p: nat, number: string, isFloat: bool): (r: (Result<TokenType, ScanError>, nat))
    requires p <= |input|
    ensures p <= r.1 <= |input|
    ensures r.0.Ok? ==> r.0.value.Integer? || r.0.value.Float?
    ensures isFloat && r.0.Ok? ==> r.0.value.Float?
    ensures r.0.Err? ==> r.0.error.InvalidNumber?
    decreases |input| - p
  {
    if p < |input| && IsAsciiDigit(input[p]) then
      NumberLoop(input, p + 1, number + [input[p]], isFloat)
    else if p < |input| && input[p] == '.' then
      if isFloat then (Err(InvalidNumber(number)), p)
      else if p + 1 < |input| && IsAsciiDigit(input[p + 1]) then
        NumberLoop(input, p + 1, number + ['.'], true)
      else (Err(InvalidNumber(number + ['.'])), p + 1)
    else if isFloat then (Ok(Float(number)), p)
    else match ParseI64(number)
      case Some(n) => (Ok(Integer(n)), p)
      case None => (Err(InvalidNumber(number)), p)
  }

  /** `scan_number`, stated without its loop: the integer digits, then
      optionally a dot and the fraction digits.  A dot that no digit follows
      and a second dot are errors; so is an integer that does not fit i64. */
  function NumberAt(input: string, p: nat, first: char): (r: (Result<TokenType, ScanError>, nat))
    requires p <= |input|
  {
    var q := RunEnd(input, p, IsAsciiDigit);
    var whole := [first] + input[p..q];
    if q < |input| && input[q] == '.' then
      if q + 1 < |input| && IsAsciiDigit(input[q + 1]) then
        var e := RunEnd(input, q + 1, IsAsciiDigit);
        var text := whole + ['.'] + input[q + 1..e];
        if e < |input| && input[e] == '.' then (Err(InvalidNumber(text)), e)
        else (Ok(Float(text)), e)
      else (Err(InvalidNumber(whole + ['.'])), q + 1)
    else if DigitsValue(whole, 10) <= I64_MAX then (Ok(Integer(DigitsValue(whole, 10))), q)
    else (Err(InvalidNumber(whole)), q)
  }

  /** The loop reads a run of digits whole. */
  lemma {:induction false} NumberLoopDigits(input: string, p: nat, number: string, isFloat: bool)
    requires p <= |input|
    ensures NumberLoop(input, p, number, isFloat)
      == NumberLoop(input, RunEnd(input, p, IsAsciiDigit), number + input[p..RunEnd(input, p, IsAsciiDigit)], isFloat)
    decreases |input| - p
  {
    if p < |input| && IsAsciiDigit(input[p]) {
      var q := RunEnd(input, p, IsAsciiDigit);
      assert q == RunEnd(input, p + 1, IsAsciiDigit);
      NumberLoopDigits(input, p + 1, number + [input[p]], isFloat);
      assert number + [input[p]] + input[p + 1..q] == number + input[p..q];
    } else {
      assert number + input[p..p] == number;
    }
  }

  lemma DigitsAreDigits(s: string)
    requires forall i :: 0 <= i < |s| ==> IsAsciiDigit(s[i])
    ensures AllDigits(s, 10)
  {
  }

  /** A digit string parses as its value when that fits i64. */
  lemma ParseDigits(s: string)
    requires s != [] && forall i :: 0 <= i < |s| ==> IsAsciiDigit(s[i])
    ensures ParseI64(s) == if DigitsValue(s, 10) <= I64_MAX then Some(DigitsValue(s, 10)) else None
  {
    DigitsAreDigits(s);
  }

  /** The loop of `scan_number` computes `NumberAt`. */
  lemma NumberLoopIsNumberAt(input: string, p: nat, first: char)
    requires p <= |input| && IsAsciiDigit(first)
    ensures NumberLoop(input, p, [first], false) == NumberAt(input, p, first)
  {
    var q := RunEnd(input, p, IsAsciiDigit);
    var whole := [first] + input[p..q];
    NumberLoopDigits(input, p, [first], false);
    if q < |input| && input[q] == '.' {
      if q + 1 < |input| && IsAsciiDigit(input[q + 1]) {
        NumberLoopDigits(input, q + 1, whole + ['.'], true);
        var e := RunEnd(input, q + 1, IsAsciiDigit);
        assert NumberLoop(input, q, whole, false) == NumberLoop(input, q + 1, whole + ['.'], true);
      }
    } else {
      ParseDigits(whole);
    }
  }

  // ---------------------------------------------------------------------
  // Booleans and words

  /** `scan_boolean`, after the `#`: the next char must be `t` or `f` */
  function BooleanAt(input: string, p: nat): (r: (Result<TokenType, ScanError>, nat))
    requires p <= |input|
  {
    if p < |input| && input[p] == 't' then (Ok(Boolean(true)), p + 1)
    else if p < |input| && input[p] == 'f' then (Ok(Boolean(false)), p + 1)
    else (Err(InvalidLiteral("#")), if p < |input| then p + 1 else p)
  }

  /** The words `scan_word` reads as operator or stack keywords */
  const Keywords: map<string, TokenType> := map[
    "dup" := Dup, "swap" := Swap, "rot" := Rot, "drop" := Drop,
    "+" := Plus, "-" := Dash, "*" := Star, "/" := Slash,
    "==" := EqualEqual, "!=" := BangEqual, "<" := Less, ">" := Greater,
    "<=" := LessEqual, ">=" := GreaterEqual, "!" := Bang]

  /** The keyword a word spells, or `Word` */
  function Keyword(word: string): TokenType
  {
    if word in Keywords then Keywords[word] else Word(word)
  }

  /** How an operator or stack keyword is written; literals and words have
      no fixed spelling */
  function Spelling(t: TokenType): Option<string>
  {
    match t
    case Dup => Some("dup")
    case Swap => Some("swap")
    case Rot => Some("rot")
    case Drop => Some("drop")
    case Plus => Some("+")
    case Dash => Some("-")
    case Star => Some("*")
    case Slash => Some("/")
    case EqualEqual => Some("==")
    case BangEqual => Some("!=")
    case Less => Some("<")
    case Greater => Some(">")
    case LessEqual => Some("<=")
    case GreaterEqual => Some(">=")
    case Bang => Some("!")
    case _ => None
  }

  /** Keywords and spellings are inverse: a keyword's spelling reads back as
      that keyword, and a word is a plain `Word` (of itself) exactly when it
      is no keyword's spelling. */
  lemma KeywordSpelling(word: string, t: TokenType)
    ensures Spelling(t) == Some(word) ==> Keyword(word) == t
    ensures Keyword(word).Word? <==> forall u: TokenType :: Spelling(u) != Some(word)
    ensures Keyword(word).Word? ==> Keyword(word).w == word
    ensures !Keyword(word).Word? ==> Spelling(Keyword(word)) == Some(word)
  {
    if !Keyword(word).Word? {
      assert Spelling(Keyword(word)) == Some(word);
    }
  }

  /** `scan_word`: the rest of the word runs to the next ASCII whitespace */
  function WordAt(input: string, p: nat, first: char): (r: (Result<TokenType, ScanError>, nat))
    requires p <= |input|
  {
    var q := RunEnd(input, p, NotAsciiWhitespace);
    (Ok(Keyword([first] + input[p..q])), q)
  }

  // ---------------------------------------------------------------------
  // Tokens

  /** What follows the first char of a token, by that char */
  function BodyAt(input: string, p: nat, first: char): (r: (Result<TokenType, ScanError>, nat))
    requires p <= |input|
  {
    if IsAsciiDigit(first) then NumberAt(input, p, first)
    else if first == '#' then BooleanAt(input, p)
    else WordAt(input, p, first)
  }

  /** `Iterator::next` from char `p`: skip whitespace; at the end there is no
      token, otherwise the token from its first char on, positioned where it
      starts and carrying the text it was read from */
  function NextAt(input: string, p: nat): (r: (Option<Result<Token, ScanError>>, nat))
    requires p <= |input|
    ensures p <= r.1 <= |input|
    ensures r.0.None? ==> r.1 == |input|
    ensures r.0.Some? ==> p < r.1
  {
    TokenAt(input, SkipFrom(input, p))
  }

  /** The token whose first char is char `q`, if there is one */
  function TokenAt(input: string, q: nat): (r: (Option<Result<Token, ScanError>>, nat))
    requires q <= |input|
    ensures q <= r.1 <= |input|
    ensures r.0.None? <==> q == |input|
    ensures r.0.Some? ==> q < r.1
  {
    if q == |input| then (None, q)
    else
      var body := BodyAt(input, q + 1, input[q]);
      (Some(TokenOver(input, q, body.1, body.0)), body.1)
  }

  /** The token read from char `q` up to char `e`, once its type is known */
  function TokenOver(input: string, q: nat, e: nat, body: Result<TokenType, ScanError>): Result<Token, ScanError>
    requires q <= e <= |input|
  {
    var k := PositionAt(input, q);
    OffsetGrows(input, q, e);
    match body
    case Ok(t) => Ok(Token(t, k.line, k.column, k.offset, PositionAt(input, e).offset - k.offset, input[q..e]))
    case Err(err) => Err(err)
  }

  /** There is no token exactly when only whitespace is left, and then the
      scanner stays at the end of the input. */
  lemma NextNoneIffBlank(input: string, p: nat)
    requires p <= |input|
    ensures NextAt(input, p).0.None? <==> AllWhitespace(input[p..])
    ensures NextAt(input, p).0.None? ==> NextAt(input, p).1 == |input|
    ensures NextAt(input, |input|) == (None, |input|)
  {
    var q := SkipFrom(input, p);
    if q < |input| {
      assert input[p..][q - p] == input[q];
    } else {
      assert forall i :: 0 <= i < |input[p..]| ==> input[p..][i] == input[p + i];
    }
  }

  /** A token starts at the first char that is not whitespace: its line,
      column and offset are counted from the text before it, its lexeme is
      the text it was read from, and its length is that lexeme's length in
      bytes. */
  lemma TokenPlaced(input: string, p: nat, t: Token)
    requires p <= |input| && NextAt(input, p).0 == Some(Ok(t))
    ensures SkipFrom(input, p) < NextAt(input, p).1 <= |input|
    ensures !IsWhitespace(input[SkipFrom(input, p)])
    ensures t.line == 1 + Newlines(input[..SkipFrom(input, p)])
    ensures t.column == 1 + ColumnOf(input[..SkipFrom(input, p)])
    ensures t.offset == ByteLen(input[..SkipFrom(input, p)])
    ensures t.lexeme == input[SkipFrom(input, p)..NextAt(input, p).1]
    ensures t.length == ByteLen(t.lexeme)
  {
    var q := SkipFrom(input, p);
    var e := BodyAt(input, q + 1, input[q]).1;
    PositionOfPrefix(input, q);
    OffsetSpan(input, q, e);
  }

  /** The type of a scanned token, or its error */
  function TypeOf(r: Result<Token, ScanError>): Result<TokenType, ScanError>
  {
    match r
    case Ok(t) => Ok(t.tokenType)
    case Err(e) => Err(e)
  }

  /** A token starting with `#` is `#t`, `#f` or an invalid literal; the
      `#` and the char after it are consumed either way. */
  lemma HashLiteral(input: string, q: nat)
    requires q < |input| && input[q] == '#'
    ensures TokenAt(input, q).0.Some?
    ensures TypeOf(TokenAt(input, q).0.value)
      == if q + 1 < |input| && input[q + 1] == 't' then Ok(Boolean(true))
         else if q + 1 < |input| && input[q + 1] == 'f' then Ok(Boolean(false))
         else Err(InvalidLiteral("#"))
    ensures TokenAt(input, q).1 == if q + 1 < |input| then q + 2 else q + 1
  {
  }

  /** A token starting with a digit is a number: an integer when only digits
      follow (an error when it does not fit i64), a decimal when one dot and
      more digits follow, and an error for a dot with no digit after it or a
      second dot. */
  lemma DigitLiteral(input: string, q: nat)
    requires q < |input| && IsAsciiDigit(input[q])
    ensures var d := RunEnd(input, q, IsAsciiDigit);
      var whole := input[q..d];
      TokenAt(input, q).0.Some? && TypeOf(TokenAt(input, q).0.value)
      == if d < |input| && input[d] == '.' then
           if d + 1 < |input| && IsAsciiDigit(input[d + 1]) then
             var e := RunEnd(input, d + 1, IsAsciiDigit);
             if e < |input| && input[e] == '.' then Err(InvalidNumber(input[q..e]))
             else Ok(Float(input[q..e]))
           else Err(InvalidNumber(input[q..d + 1]))
         else if DigitsValue(whole, 10) <= I64_MAX then Ok(Integer(DigitsValue(whole, 10)))
         else Err(InvalidNumber(whole))
  {
    assert TypeOf(TokenAt(input, q).0.value) == NumberAt(input, q + 1, input[q]).0;
    NumberAtSlices(input, q);
  }

  lemma NumberAtSlices(input: string, q: nat)
    requires q < |input| && IsAsciiDigit(input[q])
    ensures var d := RunEnd(input, q, IsAsciiDigit);
      var whole := input[q..d];
      NumberAt(input, q + 1, input[q]).0
      == if d < |input| && input[d] == '.' then
           if d + 1 < |input| && IsAsciiDigit(input[d + 1]) then
             var e := RunEnd(input, d + 1, IsAsciiDigit);
             if e < |input| && input[e] == '.' then Err(InvalidNumber(input[q..e]))
             else Ok(Float(input[q..e]))
           else Err(InvalidNumber(input[q..d + 1]))
         else if DigitsValue(whole, 10) <= I64_MAX then Ok(Integer(DigitsValue(whole, 10)))
         else Err(InvalidNumber(whole))
  {
    var d := RunEnd(input, q + 1, IsAsciiDigit);
    assert d == RunEnd(input, q, IsAsciiDigit);
    assert [input[q]] + input[q + 1..d] == input[q..d];
    if d < |input| && input[d] == '.' {
      assert input[q..d] + ['.'] == input[q..d + 1];
      if d + 1 < |input| && IsAsciiDigit(input[d + 1]) {
        var e := RunEnd(input, d + 1, IsAsciiDigit);
        assert input[q..d] + ['.'] + input[d + 1..e] == input[q..e];
      }
    }
  }

  /** Any other first char starts a word running to the next ASCII
      whitespace, read as a keyword when it spells one. */
  lemma WordLiteral(input: string, q: nat)
    requires q < |input| && !IsWhitespace(input[q]) && !IsAsciiDigit(input[q]) && input[q] != '#'
    ensures var e := RunEnd(input, q, NotAsciiWhitespace);
      TokenAt(input, q).0.Some? && TypeOf(TokenAt(input, q).0.value) == Ok(Keyword(input[q..e]))
  {
    var e := RunEnd(input, q + 1, NotAsciiWhitespace);
    assert NotAsciiWhitespace(input[q]);
    assert e == RunEnd(input, q, NotAsciiWhitespace);
    var word := [input[q]] + input[q + 1..e];
    assert word == input[q..e];
    assert WordAt(input, q + 1, input[q]) == (Ok(Keyword(word)), e);
  }

  /** Scanning `42 #x`: the integer 42 on line 1, column 1, two bytes long,
      then an invalid literal. */
  lemma ScanExample()
    ensures NextAt("42 #x", 0) == (Some(Ok(Token(Integer(42), 1, 1, 0, 2, "42"))), 2)
    ensures NextAt("42 #x", 2) == (Some(Err(InvalidLiteral("#"))), 5)
  {
    ScanExampleNumber();
    ScanExampleHash();
  }

  lemma ScanExampleNumber()
    ensures NextAt("42 #x", 0) == (Some(Ok(Token(Integer(42), 1, 1, 0, 2, "42"))), 2)
  {
    var input := "42 #x";
    assert SkipFrom(input, 0) == 0 by { assert !IsWhitespace(input[0]); }
    assert RunEnd(input, 2, IsAsciiDigit) == 2 by { assert !IsAsciiDigit(input[2]); }
    assert RunEnd(input, 1, IsAsciiDigit) == 2 by { assert IsAsciiDigit(input[1]); }
    assert ['4'] + input[1..2] == "42";
    assert DigitsValue("42", 10) == 42 by {
      assert "42"[..1] == "4";
      assert DigitsValue("4", 10) == 4 by { assert "4"[..0] == []; }
    }
    assert NumberAt(input, 1, '4') == (Ok(Integer(42)), 2);
    assert PositionAt(input, 2).offset == 2;
    assert input[0..2] == "42";
  }

  lemma ScanExampleHash()
    ensures NextAt("42 #x", 2) == (Some(Err(InvalidLiteral("#"))), 5)
  {
    var input := "42 #x";
    assert SkipFrom(input, 2) == 3 by {
      assert IsWhitespace(input[2]) && !IsWhitespace(input[3]);
      assert RunEnd(input, 3, IsWhitespace) == 3;
    }
    assert BooleanAt(input, 4) == (Err(InvalidLiteral("#")), 5);
  }

  // ---------------------------------------------------------------------
  // The scanner

  class Scanner {
    const input: string
    /** the number of chars consumed: the peekable iterator's place */
    var pos: nat
    var line: nat
    var column: nat
    var offset: nat

    function At(): Position
      reads this
    {
      Position(line, column, offset)
    }

    ghost predicate Valid()
      reads this
    {
      pos <= |input| && At() == PositionAt(input, pos)
    }

    constructor New(source: string)
      ensures Valid() && input == source && pos == 0
      ensures line == 1 && column == 1 && offset == 0
    {
      input := source;
      pos := 0;
      line := 1;
      column := 1;
      offset := 0;
    }

    method Advance(c: char)
      modifies this
      ensures pos == old(pos) && At() == PositionAfter(old(At()), c)
    {
      offset := offset + Utf8Len(c);
      if c == '\n' {
        line := line + 1;
        column := 1;
      } else {
        column := column + 1;
      }
    }

    function Peek(): (c: Option<char>)
      reads this
      requires Valid()
    {
      if pos < |input| then Some(input[pos]) else None
    }

    method NextChar() returns (c: Option<char>)
      requires Valid()
      modifies this
      ensures Valid() && c == old(Peek())
      ensures pos == if c.Some? then old(pos) + 1 else old(pos)
    {
      if pos == |input| {
        return None;
      }
      c := Some(input[pos]);
      pos := pos + 1;
      Advance(c.value);
    }

    method SkipWhitespace()
      requires Valid()
      modifies this
      ensures Valid() && pos == SkipFrom(input, old(pos))
    {
      ghost var p0 := pos;
      while Peek().Some? && IsWhitespace(Peek().value)
        invariant Valid() && p0 <= pos
        invariant RunEnd(input, pos, IsWhitespace) == SkipFrom(input, p0)
        decreases |input| - pos
      {
        var _ := NextChar();
      }
    }

    method ScanNumber(first: char) returns (r: Result<TokenType, ScanError>)
      requires Valid()
      modifies this
      ensures Valid() && (r, pos) == NumberLoop(input, old(pos), [first], false)
    {
      ghost var p0 := pos;
      var number := [first];
      var isFloat := false;
      while Peek().Some? && (IsAsciiDigit(Peek().value) || Peek().value == '.')
        invariant Valid() && p0 <= pos
        invariant NumberLoop(input, pos, number, isFloat) == NumberLoop(input, p0, [first], false)
        decreases |input| - pos
      {
        var c := Peek().value;
        if !IsAsciiDigit(c) {
          if isFloat {
            return Err(InvalidNumber(number));
          }
          isFloat := true;
          number := number + [c];
          var _ := NextChar();
          var next := Peek();
          if next.None? || !IsAsciiDigit(next.value) {
            return Err(InvalidNumber(number));
          }
        } else {
          number := number + [c];
          var _ := NextChar();
        }
      }
      if isFloat {
        r := Ok(Float(number));
      } else {
        match ParseI64(number)
        case Some(n) => r := Ok(Integer(n));
        case None => r := Err(InvalidNumber(number));
      }
    }

    method ScanBoolean() returns (r: Result<TokenType, ScanError>)
      requires Valid()
      modifies this
      ensures Valid() && (r, pos) == BooleanAt(input, old(pos))
    {
      var c := NextChar();
      match c
      case Some('t') => r := Ok(Boolean(true));
      case Some('f') => r := Ok(Boolean(false));
      case _ => r := Err(InvalidLiteral("#"));
    }

    method ScanWord(first: char) returns (r: Result<TokenType, ScanError>)
      requires Valid()
      modifies this
      ensures Valid() && (r, pos) == WordAt(input, old(pos), first)
    {
      ghost var p0 := pos;
      var word := [first];
      while Peek().Some? && !IsAsciiWhitespace(Peek().value)
        invariant Valid() && p0 <= pos
        invariant word == [first] + input[p0..pos]
        invariant RunEnd(input, pos, NotAsciiWhitespace) == RunEnd(input, p0, NotAsciiWhitespace)
        decreases |input| - pos
      {
        word := word + [Peek().value];
        var _ := NextChar();
      }
      r := Ok(Keyword(word));
    }

    /** The token's type, by its first char */
    method ScanBody(first: char) returns (r: Result<TokenType, ScanError>)
      requires Valid()
      modifies this
      ensures Valid() && (r, pos) == BodyAt(input, old(pos), first)
    {
      if IsAsciiDigit(first) {
        r := ScanNumber(first);
        NumberLoopIsNumberAt(input, old(pos), first);
      } else if first == '#' {
        r := ScanBoolean();
      } else {
        r := ScanWord(first);
      }
    }

    /** `Iterator::next` */
    method Next() returns (r: Option<Result<Token, ScanError>>)
      requires Valid()
      modifies this
      ensures Valid() && (r, pos) == NextAt(input, old(pos))
    {
      SkipWhitespace();
      r := ReadToken();
    }

    /** The part of `Iterator::next` after the whitespace: read the first
        char, then the rest by that char, and wrap the type in a token */
    method ReadToken() returns (r: Option<Result<Token, ScanError>>)
      requires Valid()
      modifies this
      ensures Valid() && (r, pos) == TokenAt(input, old(pos))
    {
      var startLine, startColumn, startOffset := line, column, offset;
      var q := pos;
      var c := NextChar();
      if c.None? {
        return None;
      }
      var result := ScanBody(c.value);
      OffsetGrows(input, q, pos);
      var length := offset - startOffset;
      match result
      case Ok(t) => r := Some(Ok(Token(t, startLine, startColumn, startOffset, length, input[q..pos])));
      case Err(e) => r := Some(Err(e));
    }
  }
}
